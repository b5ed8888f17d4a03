// Runs of the administrator account over one settings table: starts, password
// changes, logins and presented cookies, with restarts anywhere in between.
module AuthRuns {
  import opened Wrappers
  import opened Bytes
  import opened Session
  import opened Account
  import Base64Url
  import Hex

  datatype Event =
    | Starts(bootstrapUser: bytes, bootstrapPassword: bytes, draws: Draws, startFaults: StartFaults)
    | Changes(current: bytes, next: bytes, salt: bytes, changeFaults: ChangeFaults)
    | Issues(username: bytes, at: int)
    | Presents(token: bytes, at: int)

  // The settings table, and the process if one is running.
  datatype State = State(table: SettingsTable, running: Option<Instance>)

  function Next(lib: Library, s: State, e: Event): State {
    match e
    case Starts(user, password, d, f) =>
      var (table, instance) := Start(lib, s.table, user, password, d, f);
      State(table, instance)
    case Changes(current, next, salt, f) =>
      if s.running.None? then s else s.(table := ChangePassword(lib, s.table, current, next, salt, f).0)
    case Issues(_, _) => s
    case Presents(_, _) => s
  }

  // The state after the first n events.
  function After(lib: Library, s: State, es: seq<Event>, n: nat): State
    requires n <= |es|
  {
    if n == 0 then s else Next(lib, After(lib, s, es, n - 1), es[n - 1])
  }

  ghost predicate DrawsGood(es: seq<Event>) {
    forall e <- es :: e.Starts? ==> GoodDraws(e.draws)
  }

  // ----- The secret never changes -----

  ghost predicate StoredSecret(t: SettingsTable, secret: bytes) {
    Setting(t, KEY_SECRET) != [] && Hex.Decode(t[KEY_SECRET]) == Some(secret)
  }

  // A running process signs with the stored secret.
  ghost predicate SecretInUse(s: State) {
    s.running.Some? ==> StoredSecret(s.table, s.running.value.secret)
  }

  lemma StartUsesStoredSecret(lib: Library, t: SettingsTable, user: bytes, password: bytes, d: Draws, f: StartFaults)
    requires GoodDraws(d)
    ensures var (t', instance) := Start(lib, t, user, password, d, f);
            && SecretInUse(State(t', instance))
            && (Setting(t, KEY_SECRET) != [] ==> Setting(t', KEY_SECRET) == Setting(t, KEY_SECRET))
  {
    Hex.DecodeInvertsEncode(d.secret);
  }

  lemma NextKeepsSecret(lib: Library, s: State, e: Event)
    requires SecretInUse(s) && (e.Starts? ==> GoodDraws(e.draws))
    ensures SecretInUse(Next(lib, s, e))
    ensures Setting(s.table, KEY_SECRET) != [] ==> Setting(Next(lib, s, e).table, KEY_SECRET) == Setting(s.table, KEY_SECRET)
  {
    if e.Starts? {
      StartUsesStoredSecret(lib, s.table, e.bootstrapUser, e.bootstrapPassword, e.draws, e.startFaults);
    }
  }

  lemma {:induction false} SecretKept(lib: Library, s: State, es: seq<Event>, i: nat, j: nat)
    requires SecretInUse(s) && DrawsGood(es) && i <= j <= |es|
    ensures SecretInUse(After(lib, s, es, i)) && SecretInUse(After(lib, s, es, j))
    ensures var ti, tj := After(lib, s, es, i).table, After(lib, s, es, j).table;
            Setting(ti, KEY_SECRET) != [] ==> Setting(tj, KEY_SECRET) == Setting(ti, KEY_SECRET)
    decreases j
  {
    if j > 0 {
      assert es[j - 1] in es;
      SecretKept(lib, s, es, if i < j then i else j - 1, j - 1);
      NextKeepsSecret(lib, After(lib, s, es, j - 1), es[j - 1]);
    }
  }

  // Whatever restarts lie between two moments, the processes running at them
  // sign with the same secret.
  lemma SecretSurvivesRestarts(lib: Library, s: State, es: seq<Event>, i: nat, j: nat)
    requires s.running == None && DrawsGood(es) && i <= j <= |es|
    requires After(lib, s, es, i).running.Some? && After(lib, s, es, j).running.Some?
    ensures After(lib, s, es, i).running.value.secret == After(lib, s, es, j).running.value.secret
  {
    SecretKept(lib, s, es, i, j);
  }

  // The start that first stored a secret: the first one at which neither the
  // read, nor the draw, nor the write of the secret failed.
  function SecretStart(es: seq<Event>, n: nat): (i: Option<nat>)
    requires n <= |es|
    ensures i.Some? ==> i.value < n && es[i.value].Starts?
  {
    if n == 0 then None
    else
      var before := SecretStart(es, n - 1);
      if before.Some? then before
      else
        match es[n - 1]
        case Starts(_, _, _, f) => if f.readSecret || f.drawSecret || f.writeSecret then None else Some(n - 1)
        case _ => None
  }

  // On a table without a secret a start that can, stores the 32 bytes it drew
  // and uses them; every later start reads back those.
  lemma FirstSecretIsDrawn(t: SettingsTable, d: Draws, f: StartFaults, later: Draws, g: StartFaults)
    requires Setting(t, KEY_SECRET) == [] && GoodDraws(d) && !f.readSecret && !f.drawSecret && !f.writeSecret
    ensures var (t', secret) := LoadOrCreateSecret(t, d, f);
            && secret == Some(d.secret) && |secret.value| == 32
            && (forall key :: key != KEY_SECRET ==> Setting(t', key) == Setting(t, key))
            && LoadOrCreateSecret(t', later, g) == (t', if g.readSecret then None else Some(d.secret))
  {
    Hex.DecodeInvertsEncode(d.secret);
  }

  // What is stored under the key of the secret, and what a process signs with,
  // is what that start drew.
  ghost predicate SecretFrom(s: State, es: seq<Event>, start: Option<nat>)
    requires start.Some? ==> start.value < |es| && es[start.value].Starts?
  {
    match start
    case None => Setting(s.table, KEY_SECRET) == [] && s.running == None
    case Some(i) =>
      && StoredSecret(s.table, es[i].draws.secret)
      && (s.running.Some? ==> s.running.value.secret == es[i].draws.secret)
  }

  lemma StartTakesSecret(lib: Library, t: SettingsTable, user: bytes, password: bytes, d: Draws, f: StartFaults)
    requires GoodDraws(d)
    ensures var (t', instance) := Start(lib, t, user, password, d, f);
            var (stored, secret) := LoadOrCreateSecret(t, d, f);
            Setting(t', KEY_SECRET) == Setting(stored, KEY_SECRET) && (instance.Some? ==> secret == Some(instance.value.secret))
  {
  }

  lemma {:induction false} SecretFollowsStart(lib: Library, es: seq<Event>, n: nat)
    requires DrawsGood(es) && n <= |es|
    ensures SecretFrom(After(lib, State(map[], None), es, n), es, SecretStart(es, n))
    decreases n
  {
    if n > 0 {
      SecretFollowsStart(lib, es, n - 1);
      assert es[n - 1] in es;
      var s := After(lib, State(map[], None), es, n - 1);
      match es[n - 1]
      case Starts(user, password, d, f) =>
        StartTakesSecret(lib, s.table, user, password, d, f);
        Hex.DecodeInvertsEncode(d.secret);
      case _ =>
    }
  }

  // In every run on a fresh database a running process signs with the 32 bytes
  // drawn by the start that first stored a secret.
  lemma SecretIsDrawn(lib: Library, es: seq<Event>, n: nat)
    requires DrawsGood(es) && n <= |es| && After(lib, State(map[], None), es, n).running.Some?
    ensures SecretStart(es, n).Some?
    ensures var drawn := es[SecretStart(es, n).value].draws.secret;
            |drawn| == 32 && After(lib, State(map[], None), es, n).running.value.secret == drawn
  {
    SecretFollowsStart(lib, es, n);
    assert es[SecretStart(es, n).value] in es;
  }

  // ----- Issued sessions stay valid -----

  ghost predicate IssuedAt(lib: Library, s: State, es: seq<Event>, i: nat) {
    i < |es| && es[i].Issues? && After(lib, s, es, i).running.Some? && InInt64(es[i].at + SESSION_SECONDS)
  }

  function TokenOf(lib: Library, s: State, es: seq<Event>, i: nat): bytes
    requires i < |es| && es[i].Issues? && After(lib, s, es, i).running.Some?
  {
    Token(lib.mac, After(lib, s, es, i).running.value.secret, es[i].username, es[i].at)
  }

  function VerifyAt(lib: Library, s: State, es: seq<Event>, j: nat): Option<bytes>
    requires j < |es| && es[j].Presents? && After(lib, s, es, j).running.Some?
  {
    Verify(lib.mac, After(lib, s, es, j).running.value.secret, es[j].token, es[j].at)
  }

  // A token handed out at one moment and presented at a later one, any number of
  // restarts and password changes in between, is accepted exactly when its name
  // has no bar and its week is not over.
  lemma SessionsSurviveRestarts(lib: Library, s: State, es: seq<Event>, i: nat, j: nat)
    requires s.running == None && DrawsGood(es)
    requires IssuedAt(lib, s, es, i) && i < j < |es| && es[j].Presents? && After(lib, s, es, j).running.Some?
    requires es[j].token == TokenOf(lib, s, es, i)
    ensures VerifyAt(lib, s, es, j)
            == if BAR in es[i].username || es[j].at > es[i].at + 604800 then None else Some(es[i].username)
  {
    SecretSurvivesRestarts(lib, s, es, i, j);
    TokenRoundTrip(lib.mac, After(lib, s, es, i).running.value.secret, es[i].username, es[i].at, es[j].at);
  }

  // ----- Only issued sessions are accepted -----

  // The tag of the token issued by event i.
  ghost predicate TagOf(lib: Library, s: State, es: seq<Event>, i: nat, tag: bytes) {
    IssuedAt(lib, s, es, i)
    && tag == Sign(lib.mac, After(lib, s, es, i).running.value.secret, Payload(es[i].username, es[i].at + SESSION_SECONDS))
  }

  // Event j presents a payload together with its right tag.
  ghost predicate PresentsTagged(lib: Library, s: State, es: seq<Event>, j: nat) {
    && j < |es| && es[j].Presents? && After(lib, s, es, j).running.Some? && SignedPayload(es[j].token).Some?
    && Bytes.After(es[j].token, DOT) == Sign(lib.mac, After(lib, s, es, j).running.value.secret, SignedPayload(es[j].token).value)
  }

  // What is asked of the keyed hash in one run. First, nobody comes up with a
  // payload and its right tag, but for a tag the server has put on a token.
  ghost predicate TagsCopied(lib: Library, s: State, es: seq<Event>) {
    forall j :: 0 <= j < |es| && PresentsTagged(lib, s, es, j)
      ==> exists i :: 0 <= i < j && TagOf(lib, s, es, i, Bytes.After(es[j].token, DOT))
  }

  // Second, no presented payload has the hash of another, issued one.
  ghost predicate NoCollisions(lib: Library, s: State, es: seq<Event>) {
    forall i, j :: 0 <= i < j < |es| && IssuedAt(lib, s, es, i) && PresentsTagged(lib, s, es, j)
      ==> var secret := After(lib, s, es, j).running.value.secret;
          var issued, presented := Payload(es[i].username, es[i].at + SESSION_SECONDS), SignedPayload(es[j].token).value;
          lib.mac(secret, presented) == lib.mac(secret, issued) ==> presented == issued
  }

  // Every accepted cookie stands for a session issued earlier in the run, to that
  // very name, less than a week before.
  lemma OnlyIssuedAccepted(lib: Library, s: State, es: seq<Event>, j: nat)
    requires s.running == None && DrawsGood(es) && TagsCopied(lib, s, es) && NoCollisions(lib, s, es)
    requires j < |es| && es[j].Presents? && After(lib, s, es, j).running.Some?
    requires VerifyAt(lib, s, es, j).Some?
    ensures exists i :: 0 <= i < j && IssuedAt(lib, s, es, i)
              && VerifyAt(lib, s, es, j) == Some(es[i].username) && es[j].at <= es[i].at + SESSION_SECONDS
  {
    var secret := After(lib, s, es, j).running.value.secret;
    var tag, payload := Bytes.After(es[j].token, DOT), SignedPayload(es[j].token).value;
    assert PresentsTagged(lib, s, es, j);
    var i :| 0 <= i < j && TagOf(lib, s, es, i, tag);
    SecretSurvivesRestarts(lib, s, es, i, j);
    var issued := Payload(es[i].username, es[i].at + SESSION_SECONDS);
    Hex.EncodeInjective(lib.mac(secret, payload), lib.mac(secret, issued));
    ReadInvertsPayload(es[i].username, es[i].at + SESSION_SECONDS, es[j].at);
  }

  // ----- The password is the one the history says -----

  // An ideal password hash: it refuses what is longer than 72 bytes, and a hash
  // matches exactly the password it was made from.
  ghost predicate IdealHash(lib: Library) {
    && (forall p, salt :: lib.hash(p, salt).Some? <==> |p| <= 72)
    && (forall p, q, salt :: |p| <= 72 ==> (lib.matches(lib.hash(p, salt).value, q) <==> p == q))
  }

  // What an operator who only sees the events knows: the password and the name
  // in force, whether a secret is stored, and whether the process is up.
  datatype Known = Known(password: Option<bytes>, user: bytes, secret: bool, up: bool)

  const NOTHING := Known(None, [], false, false)

  // A start gets as far as its first failure.
  function LearnStart(lib: Library, k: Known, user: bytes, bootstrap: bytes, d: Draws, f: StartFaults): Known {
    if f.readSecret || (!k.secret && (f.drawSecret || f.writeSecret)) then k.(up := false)
    else if f.writeUser then k.(secret := true, up := false)
    else
      var name := if lib.trim(user) != [] then lib.trim(user) else if !f.readUser && k.user != [] then k.user else ADMIN;
      var named := Known(k.password, name, true, false);
      if f.readHash then named
      else if bootstrap != [] then
        if |bootstrap| <= 72 && !f.writeHash then named.(password := Some(bootstrap), up := true) else named
      else if k.password == None then
        if f.drawPassword || f.writeHash then named else named.(password := Some(Base64Url.Encode(d.password)), up := true)
      else named.(up := true)
  }

  // A change counts if it names the right current password. Its two reads of the
  // user name must agree: both go well, or both fail, or there is no name.
  predicate Authorised(k: Known, current: bytes, f: ChangeFaults) {
    k.up && k.password == Some(current) && !f.check.readHash && (f.readName == f.check.readUser || k.user == [])
  }

  function Learn(lib: Library, k: Known, e: Event): Known {
    match e
    case Starts(user, bootstrap, d, f) => LearnStart(lib, k, user, bootstrap, d, f)
    case Changes(current, next, _, f) =>
      if Authorised(k, current, f) && 8 <= |next| <= 72 && !f.writeHash then k.(password := Some(next)) else k
    case _ => k
  }

  function LearnAll(lib: Library, k: Known, es: seq<Event>, n: nat): Known
    requires n <= |es|
  {
    if n == 0 then k else Learn(lib, LearnAll(lib, k, es, n - 1), es[n - 1])
  }

  ghost predicate HashFor(lib: Library, t: SettingsTable, password: Option<bytes>) {
    match password
    case None => KEY_HASH !in t
    case Some(p) => KEY_HASH in t && forall q :: lib.matches(t[KEY_HASH], q) <==> q == p
  }

  ghost predicate Agrees(lib: Library, s: State, k: Known) {
    && HashFor(lib, s.table, k.password)
    && Setting(s.table, KEY_USERNAME) == k.user
    && s.running.Some? == k.up
    && (Setting(s.table, KEY_SECRET) != []) == k.secret
    && (k.secret ==> Hex.Decode(s.table[KEY_SECRET]).Some?)
  }

  lemma SetPasswordAgrees(lib: Library, t: SettingsTable, password: bytes, salt: bytes, fail: bool)
    requires IdealHash(lib)
    ensures var (t', ok) := SetPassword(lib, t, password, salt, fail);
            && ok == (|password| <= 72 && !fail)
            && (ok ==> HashFor(lib, t', Some(password)) && t'.Keys == t.Keys + {KEY_HASH} && t' - {KEY_HASH} == t - {KEY_HASH})
            && (!ok ==> t' == t)
  {
    if |password| <= 72 {
      var h := lib.hash(password, salt).value;
      assert forall q :: lib.matches(h, q) <==> q == password;
    }
  }

  lemma SecretAgrees(lib: Library, t: SettingsTable, k: Known, d: Draws, f: StartFaults)
    requires Agrees(lib, State(t, None), k.(up := false)) && GoodDraws(d)
    ensures var (t', secret) := LoadOrCreateSecret(t, d, f);
            && secret.Some? == (!f.readSecret && (k.secret || (!f.drawSecret && !f.writeSecret)))
            && Agrees(lib, State(t', None), k.(up := false, secret := k.secret || secret.Some?))
  {
    Hex.DecodeInvertsEncode(d.secret);
    var t' := LoadOrCreateSecret(t, d, f).0;
    assert HashFor(lib, t', k.password);
  }

  lemma NameAgrees(lib: Library, t: SettingsTable, k: Known, name: bytes)
    requires Agrees(lib, State(t, None), k)
    ensures Agrees(lib, State(t[KEY_USERNAME := name], None), k.(user := name))
  {
    assert HashFor(lib, t[KEY_USERNAME := name], k.password);
  }

  // A stored password, with the process up or down afterwards.
  lemma PasswordAgrees(lib: Library, s: State, k: Known, password: bytes, salt: bytes, fail: bool)
    requires IdealHash(lib) && Agrees(lib, s, k)
    ensures var (t', ok) := SetPassword(lib, s.table, password, salt, fail);
            Agrees(lib, s.(table := t'), if ok then k.(password := Some(password)) else k)
  {
    SetPasswordAgrees(lib, s.table, password, salt, fail);
  }

  lemma StartAgrees(lib: Library, s: State, k: Known, user: bytes, bootstrap: bytes, d: Draws, f: StartFaults)
    requires IdealHash(lib) && Agrees(lib, s, k) && GoodDraws(d)
    ensures Agrees(lib, Next(lib, s, Starts(user, bootstrap, d, f)), LearnStart(lib, k, user, bootstrap, d, f))
  {
    var (t1, secret) := LoadOrCreateSecret(s.table, d, f);
    SecretAgrees(lib, s.table, k, d, f);
    if secret.Some? && !f.writeUser {
      var name := ChooseUsername(lib, t1, user, f);
      NameAgrees(lib, t1, k.(up := false, secret := true), name);
      if !f.readHash {
        PasswordStage(lib, t1[KEY_USERNAME := name], Known(k.password, name, true, false), bootstrap, d, f);
      }
    }
  }

  lemma PasswordStage(lib: Library, t: SettingsTable, k: Known, bootstrap: bytes, d: Draws, f: StartFaults)
    requires IdealHash(lib) && Agrees(lib, State(t, None), k) && GoodDraws(d)
    ensures bootstrap != [] ==>
              var (t', ok) := SetPassword(lib, t, bootstrap, d.salt, f.writeHash);
              && ok == (|bootstrap| <= 72 && !f.writeHash)
              && Agrees(lib, State(t', None), if ok then k.(password := Some(bootstrap)) else k)
    ensures var made := Base64Url.Encode(d.password);
            var (t', ok) := SetPassword(lib, t, made, d.salt, f.writeHash);
            && ok == !f.writeHash && Agrees(lib, State(t', None), if ok then k.(password := Some(made)) else k)
  {
    Base64Url.DecodeInvertsEncode(d.password);
    SetPasswordAgrees(lib, t, bootstrap, d.salt, f.writeHash);
    PasswordAgrees(lib, State(t, None), k, bootstrap, d.salt, f.writeHash);
    SetPasswordAgrees(lib, t, Base64Url.Encode(d.password), d.salt, f.writeHash);
    PasswordAgrees(lib, State(t, None), k, Base64Url.Encode(d.password), d.salt, f.writeHash);
  }

  lemma ChangeAgrees(lib: Library, s: State, k: Known, current: bytes, next: bytes, salt: bytes, f: ChangeFaults)
    requires IdealHash(lib) && Agrees(lib, s, k)
    ensures Agrees(lib, Next(lib, s, Changes(current, next, salt, f)), Learn(lib, k, Changes(current, next, salt, f)))
  {
    SetPasswordAgrees(lib, s.table, next, salt, f.writeHash);
    PasswordAgrees(lib, s, k, next, salt, f.writeHash);
  }

  lemma {:induction false} HistoryAgrees(lib: Library, s: State, k: Known, es: seq<Event>, n: nat)
    requires IdealHash(lib) && DrawsGood(es) && n <= |es| && Agrees(lib, s, k)
    ensures Agrees(lib, After(lib, s, es, n), LearnAll(lib, k, es, n))
    decreases n
  {
    if n > 0 {
      HistoryAgrees(lib, s, k, es, n - 1);
      var s1, k1 := After(lib, s, es, n - 1), LearnAll(lib, k, es, n - 1);
      assert es[n - 1] in es;
      match es[n - 1]
      case Starts(user, bootstrap, d, f) => StartAgrees(lib, s1, k1, user, bootstrap, d, f);
      case Changes(current, next, salt, f) => ChangeAgrees(lib, s1, k1, current, next, salt, f);
      case _ =>
    }
  }

  // After any history on a fresh database, whatever failed in it, a login
  // succeeds exactly for the name and the password that the history says. A
  // login that cannot read the hash is refused; one that cannot read the name
  // takes it to be empty.
  lemma LoginFollowsHistory(lib: Library, es: seq<Event>, n: nat, username: bytes, password: bytes, f: CheckFaults)
    requires IdealHash(lib) && DrawsGood(es) && n <= |es|
    ensures var k := LearnAll(lib, NOTHING, es, n);
            Check(lib, After(lib, State(map[], None), es, n).table, username, password, f)
            <==> !f.readHash && k.password == Some(password) && username == if f.readUser then [] else k.user
  {
    HistoryAgrees(lib, State(map[], None), NOTHING, es, n);
  }

  // What a change request answers and stores, at any moment of any run on a
  // fresh database at which the process is up.
  lemma ChangeAnswers(
    lib: Library, es: seq<Event>, n: nat, current: bytes, next: bytes, salt: bytes, f: ChangeFaults)
    requires IdealHash(lib) && DrawsGood(es) && n <= |es|
    requires After(lib, State(map[], None), es, n).running.Some?
    ensures var k, t := LearnAll(lib, NOTHING, es, n), After(lib, State(map[], None), es, n).table;
            var (t', error) := ChangePassword(lib, t, current, next, salt, f);
            && (error == Some(InvalidCredentials) <==> !Authorised(k, current, f))
            && (error == Some(TooShort) <==> Authorised(k, current, f) && |next| < 8)
            && (error == Some(Refused) <==> Authorised(k, current, f) && 8 <= |next| && (72 < |next| || f.writeHash))
            && (error == None <==> Authorised(k, current, f) && 8 <= |next| <= 72 && !f.writeHash)
            && (error == None ==>
                  && t' == t[KEY_HASH := lib.hash(next, salt).value]
                  && forall p :: lib.matches(t'[KEY_HASH], p) <==> p == next)
            && (error != None ==> t' == t)
  {
    HistoryAgrees(lib, State(map[], None), NOTHING, es, n);
    var t := After(lib, State(map[], None), es, n).table;
    SetPasswordAgrees(lib, t, next, salt, f.writeHash);
  }

  // A start that succeeds leaves the hash of the password given, or else the one
  // stored before, or else that of a password made up, under the salt drawn.
  lemma StartStoresHash(lib: Library, t: SettingsTable, user: bytes, bootstrap: bytes, d: Draws, f: StartFaults)
    requires Start(lib, t, user, bootstrap, d, f).1.Some?
    ensures var (t', instance) := Start(lib, t, user, bootstrap, d, f);
            var made := instance.value.generatedPassword;
            && KEY_HASH in t'
            && (if bootstrap != [] then Some(t'[KEY_HASH]) == lib.hash(bootstrap, d.salt) && made == []
                else if KEY_HASH in t then t'[KEY_HASH] == t[KEY_HASH] && made == []
                else Some(t'[KEY_HASH]) == lib.hash(made, d.salt) && Base64Url.Decode(made) == Some(d.password))
  {
    Base64Url.DecodeInvertsEncode(d.password);
  }

  // A password is made up exactly when none was given and none was stored, and
  // it is one that logs the operator in.
  lemma GeneratedPasswordWorks(lib: Library, t: SettingsTable, user: bytes, bootstrap: bytes, d: Draws, f: StartFaults)
    requires IdealHash(lib) && GoodDraws(d) && Start(lib, t, user, bootstrap, d, f).1.Some?
    ensures var (t', instance) := Start(lib, t, user, bootstrap, d, f);
            var made := instance.value.generatedPassword;
            && (made != [] <==> bootstrap == [] && KEY_HASH !in t)
            && (made != [] ==> |made| == 16 && Check(lib, t', Setting(t', KEY_USERNAME), made, NO_CHECK_FAULTS))
  {
    Base64Url.DecodeInvertsEncode(d.password);
  }
}
