// internal/auth/auth.go, the administrator account: a secret, a username and a
// password hash that live in the settings table and are read again at each start.
module Account {
  import opened Wrappers
  import opened Bytes
  import opened Session
  import Base64Url
  import Hex

  // The keyed hash, the password hash (a salt chosen by the caller; no result
  // for a password it refuses), its comparison, and strings.TrimSpace.
  datatype Library = Library(
    mac: Mac,
    hash: (bytes, bytes) -> Option<bytes>,
    matches: (bytes, bytes) -> bool,
    trim: bytes -> bytes)

  type SettingsTable = map<string, bytes>

  const KEY_USERNAME := "admin_username"
  const KEY_HASH := "admin_password_hash"
  const KEY_SECRET := "session_secret"

  const ADMIN: bytes := [97, 100, 109, 105, 110]

  // What one start draws: a secret, a password, and the salt of a hash.
  datatype Draws = Draws(secret: bytes, password: bytes, salt: bytes)

  ghost predicate GoodDraws(d: Draws) {
    |d.secret| == 32 && |d.password| == 12
  }

  // Which accesses to the settings table, and which draws, fail during a start.
  datatype StartFaults = StartFaults(
    readSecret: bool, drawSecret: bool, writeSecret: bool, readUser: bool, writeUser: bool,
    readHash: bool, drawPassword: bool, writeHash: bool)

  // Which of its two reads fail during a login.
  datatype CheckFaults = CheckFaults(readUser: bool, readHash: bool)

  const NO_CHECK_FAULTS := CheckFaults(false, false)

  // A password change reads the name on its own before it checks the password.
  datatype ChangeFaults = ChangeFaults(readName: bool, check: CheckFaults, writeHash: bool)

  function Setting(t: SettingsTable, key: string): bytes {
    if key in t then t[key] else []
  }

  // What a caller that ignores the error of a read sees.
  function SettingOrNone(t: SettingsTable, key: string, fail: bool): bytes {
    if fail then [] else Setting(t, key)
  }

  // The table and the secret in use afterwards; no secret if the stored one is
  // not hex or something failed.
  function LoadOrCreateSecret(t: SettingsTable, d: Draws, f: StartFaults): (SettingsTable, Option<bytes>) {
    if f.readSecret then (t, None)
    else if Setting(t, KEY_SECRET) != [] then (t, Hex.Decode(t[KEY_SECRET]))
    else if f.drawSecret || f.writeSecret then (t, None)
    else (t[KEY_SECRET := Hex.Encode(d.secret)], Some(d.secret))
  }

  // A stored name that cannot be read counts as absent.
  function ChooseUsername(lib: Library, t: SettingsTable, bootstrapUser: bytes, f: StartFaults): bytes {
    var name, stored := lib.trim(bootstrapUser), SettingOrNone(t, KEY_USERNAME, f.readUser);
    if name != [] then name else if stored != [] then stored else ADMIN
  }

  function SetPassword(lib: Library, t: SettingsTable, password: bytes, salt: bytes, fail: bool): (SettingsTable, bool) {
    var h := lib.hash(password, salt);
    if h.None? || fail then (t, false) else (t[KEY_HASH := h.value], true)
  }

  // A running authenticator: the secret it signs with, and the password it made
  // up, if it did.
  datatype Instance = Instance(secret: bytes, generatedPassword: bytes)

  // New: the table afterwards, and the authenticator unless it failed.
  function Start(lib: Library, t: SettingsTable, bootstrapUser: bytes, bootstrapPassword: bytes, d: Draws, f: StartFaults)
    : (SettingsTable, Option<Instance>)
  {
    var (t1, secret) := LoadOrCreateSecret(t, d, f);
    if secret.None? || f.writeUser then (t1, None)
    else
      var t2 := t1[KEY_USERNAME := ChooseUsername(lib, t1, bootstrapUser, f)];
      if f.readHash then (t2, None)
      else if bootstrapPassword != [] then
        var (t3, ok) := SetPassword(lib, t2, bootstrapPassword, d.salt, f.writeHash);
        (t3, if ok then Some(Instance(secret.value, [])) else None)
      else if KEY_HASH !in t2 then
        if f.drawPassword then (t2, None)
        else
          var made := Base64Url.Encode(d.password);
          var (t3, ok) := SetPassword(lib, t2, made, d.salt, f.writeHash);
          (t3, if ok then Some(Instance(secret.value, made)) else None)
      else (t2, Some(Instance(secret.value, [])))
  }

  predicate Check(lib: Library, t: SettingsTable, username: bytes, password: bytes, f: CheckFaults) {
    && !f.readHash && KEY_HASH in t
    && username == SettingOrNone(t, KEY_USERNAME, f.readUser) && lib.matches(t[KEY_HASH], password)
  }

  datatype ChangeError = InvalidCredentials | TooShort | Refused

  function ChangePassword(lib: Library, t: SettingsTable, current: bytes, next: bytes, salt: bytes, f: ChangeFaults)
    : (SettingsTable, Option<ChangeError>)
  {
    if !Check(lib, t, SettingOrNone(t, KEY_USERNAME, f.readName), current, f.check) then (t, Some(InvalidCredentials))
    else if |next| < 8 then (t, Some(TooShort))
    else
      var (t', ok) := SetPassword(lib, t, next, salt, f.writeHash);
      (t', if ok then None else Some(Refused))
  }

  // ----- The objects -----

  class Settings {
    var table: SettingsTable

    constructor (table: SettingsTable)
      ensures this.table == table
    {
      this.table := table;
    }

    // `ok` is the absence of an error; a failed read looks like an absent key.
    method Get(key: string, fail: bool) returns (v: bytes, found: bool, ok: bool)
      ensures ok == !fail
      ensures found == (ok && key in table) && v == SettingOrNone(table, key, fail)
    {
      if fail {
        return [], false, false;
      }
      if key in table {
        return table[key], true, true;
      }
      return [], false, true;
    }

    method Set(key: string, value: bytes, fail: bool) returns (ok: bool)
      modifies this
      ensures ok == !fail
      ensures table == if ok then old(table)[key := value] else old(table)
    {
      if fail {
        return false;
      }
      table := table[key := value];
      return true;
    }
  }

  class Authenticator {
    const lib: Library
    const store: Settings
    const secret: bytes
    var generatedPassword: bytes

    constructor (lib: Library, store: Settings, secret: bytes)
      ensures this.lib == lib && this.store == store && this.secret == secret && generatedPassword == []
    {
      this.lib, this.store, this.secret := lib, store, secret;
      generatedPassword := [];
    }

    static method LoadSecret(store: Settings, d: Draws, f: StartFaults) returns (secret: Option<bytes>)
      modifies store
      ensures (store.table, secret) == LoadOrCreateSecret(old(store.table), d, f)
    {
      var v, found, ok := store.Get(KEY_SECRET, f.readSecret);
      if !ok {
        return None;
      }
      if found && v != [] {
        return Hex.Decode(v);
      }
      if f.drawSecret {
        return None;
      }
      ok := store.Set(KEY_SECRET, Hex.Encode(d.secret), f.writeSecret);
      return if ok then Some(d.secret) else None;
    }

    static method New(lib: Library, store: Settings, bootstrapUser: bytes, bootstrapPassword: bytes, d: Draws, f: StartFaults)
      returns (a: Option<Authenticator>)
      modifies store
      ensures a.Some? ==> fresh(a.value) && a.value.lib == lib && a.value.store == store
      ensures var made := if a.Some? then Some(Instance(a.value.secret, a.value.generatedPassword)) else None;
              (store.table, made) == Start(lib, old(store.table), bootstrapUser, bootstrapPassword, d, f)
    {
      var secret := LoadSecret(store, d, f);
      if secret.None? {
        return None;
      }
      var auth := new Authenticator(lib, store, secret.value);
      var username := lib.trim(bootstrapUser);
      if username == [] {
        var v, found, _ := store.Get(KEY_USERNAME, f.readUser);
        username := if found && v != [] then v else ADMIN;
      }
      var ok := store.Set(KEY_USERNAME, username, f.writeUser);
      if !ok {
        return None;
      }
      var _, hasHash, readable := store.Get(KEY_HASH, f.readHash);
      if !readable {
        return None;
      }
      if bootstrapPassword != [] {
        ok := auth.StorePassword(bootstrapPassword, d.salt, f.writeHash);
        if !ok {
          return None;
        }
      } else if !hasHash {
        if f.drawPassword {
          return None;
        }
        var made := Base64Url.Encode(d.password);
        ok := auth.StorePassword(made, d.salt, f.writeHash);
        if !ok {
          return None;
        }
        auth.generatedPassword := made;
      }
      return Some(auth);
    }

    method StorePassword(password: bytes, salt: bytes, fail: bool) returns (ok: bool)
      modifies store
      ensures (store.table, ok) == SetPassword(lib, old(store.table), password, salt, fail)
    {
      var h := lib.hash(password, salt);
      if h.None? {
        return false;
      }
      ok := store.Set(KEY_HASH, h.value, fail);
    }

    method CheckLogin(username: bytes, password: bytes, f: CheckFaults) returns (ok: bool)
      ensures ok == Check(lib, store.table, username, password, f)
    {
      var storedUser, _, _ := store.Get(KEY_USERNAME, f.readUser);
      var hash, found, _ := store.Get(KEY_HASH, f.readHash);
      if !found {
        return false;
      }
      return username == storedUser && lib.matches(hash, password);
    }

    method Change(current: bytes, next: bytes, salt: bytes, f: ChangeFaults) returns (error: Option<ChangeError>)
      modifies store
      ensures (store.table, error) == ChangePassword(lib, old(store.table), current, next, salt, f)
    {
      var user, _, _ := store.Get(KEY_USERNAME, f.readName);
      var known := CheckLogin(user, current, f.check);
      if !known {
        return Some(InvalidCredentials);
      }
      if |next| < 8 {
        return Some(TooShort);
      }
      var ok := StorePassword(next, salt, f.writeHash);
      return if ok then None else Some(Refused);
    }

    method IssueToken(username: bytes, now: int) returns (token: bytes)
      ensures token == Token(lib.mac, secret, username, now)
    {
      var payload := Payload(username, now + SESSION_SECONDS);
      token := Base64Url.Encode(payload) + [DOT] + Sign(lib.mac, secret, payload);
    }
  }
}
