// internal/auth/auth.go, the session cookie: what IssueCookie prints and what
// verify reads. The keyed hash is a parameter.
module Session {
  import opened Wrappers
  import opened Bytes
  import Base64Url
  import Hex
  import Decimal

  // HMAC-SHA256 of a payload under a secret.
  type Mac = (bytes, bytes) -> bytes

  // Seven days in seconds.
  const SESSION_SECONDS := 7 * 24 * 3600

  function Payload(username: bytes, expiry: int): bytes {
    username + [BAR] + Decimal.Format(expiry)
  }

  function Sign(mac: Mac, secret: bytes, payload: bytes): bytes {
    Hex.Encode(mac(secret, payload))
  }

  // The cookie value issued to `username` at time `now` (seconds).
  function Token(mac: Mac, secret: bytes, username: bytes, now: int): bytes {
    var payload := Payload(username, now + SESSION_SECONDS);
    Base64Url.Encode(payload) + [DOT] + Sign(mac, secret, payload)
  }

  // The name in a payload that has not expired at `now`.
  function ReadPayload(payload: bytes, now: int): Option<bytes> {
    if BAR !in payload then None
    else
      var expiry := Decimal.Parse(After(payload, BAR));
      if expiry.None? || now > expiry.value then None else Some(Before(payload, BAR))
  }

  // The signed part of a cookie value, if it is one.
  function SignedPayload(token: bytes): Option<bytes> {
    if DOT !in token then None else Base64Url.Decode(Before(token, DOT))
  }

  function Verify(mac: Mac, secret: bytes, token: bytes, now: int): Option<bytes> {
    var payload := SignedPayload(token);
    if payload.None? || After(token, DOT) != Sign(mac, secret, payload.value) then None
    else ReadPayload(payload.value, now)
  }

  predicate InInt64(n: int) {
    Decimal.MIN_INT64 <= n <= Decimal.MAX_INT64
  }

  // Reading a payload gives back the name it was made for, and fails when the
  // name holds a bar or the time has passed.
  lemma ReadInvertsPayload(username: bytes, expiry: int, now: int)
    requires InInt64(expiry)
    ensures ReadPayload(Payload(username, expiry), now)
            == if BAR in username || now > expiry then None else Some(username)
  {
    Decimal.ParseInvertsFormat(expiry);
    var digits := Decimal.Format(expiry);
    if BAR in username {
      CutInside(username, BAR, digits);
      var k :| 0 <= k <= |username| && After(Payload(username, expiry), BAR) == username[k..] + [BAR] + digits;
      var rest := username[k..] + [BAR] + digits;
      assert rest[|username| - k] == BAR;
      Decimal.ParseRefuses(rest, BAR);
    } else {
      CutAtFirst(username, BAR, digits);
    }
  }

  lemma TokenParts(mac: Mac, secret: bytes, username: bytes, now: int)
    ensures var token := Token(mac, secret, username, now);
            var payload := Payload(username, now + SESSION_SECONDS);
            SignedPayload(token) == Some(payload) && After(token, DOT) == Sign(mac, secret, payload)
  {
    var payload := Payload(username, now + SESSION_SECONDS);
    Base64Url.DecodeInvertsEncode(payload);
    CutAtFirst(Base64Url.Encode(payload), DOT, Sign(mac, secret, payload));
  }

  // The token issued to `username` at `issued` is accepted at `now` exactly when
  // the name has no bar and seven days are not over; then it gives that very name.
  lemma TokenRoundTrip(mac: Mac, secret: bytes, username: bytes, issued: int, now: int)
    requires InInt64(issued + 604800)
    ensures Verify(mac, secret, Token(mac, secret, username, issued), now)
            == if BAR in username || now > issued + 604800 then None else Some(username)
  {
    TokenParts(mac, secret, username, issued);
    ReadInvertsPayload(username, issued + SESSION_SECONDS, now);
  }

  // What a cookie carries, read with the codecs alone: before the dot, in
  // base64url, the name, a bar and the decimal second at which the week is over;
  // after it, in hex, the keyed hash of that text under the secret.
  lemma TokenCarries(mac: Mac, secret: bytes, username: bytes, issued: int)
    requires InInt64(issued + 604800)
    ensures var token := Token(mac, secret, username, issued);
            var text := Base64Url.Decode(Before(token, 46));
            && text.Some? && username + [124] <= text.value
            && Decimal.Parse(text.value[|username| + 1..]) == Some(issued + 604800)
            && Hex.Decode(After(token, 46)) == Some(mac(secret, text.value))
  {
    var payload := Payload(username, issued + SESSION_SECONDS);
    var digits := Decimal.Format(issued + SESSION_SECONDS);
    TokenParts(mac, secret, username, issued);
    Hex.DecodeInvertsEncode(mac(secret, payload));
    Decimal.ParseInvertsFormat(issued + SESSION_SECONDS);
    assert payload == (username + [BAR]) + digits;
    assert payload[|username| + 1..] == digits;
  }

  // cookie-octet, section 4.1.1 of RFC 6265.
  predicate CookieOctet(c: byte) {
    c == 0x21 || 0x23 <= c <= 0x2B || 0x2D <= c <= 0x3A || 0x3C <= c <= 0x5B || 0x5D <= c <= 0x7E
  }

  // A token passes through a cookie header as it is, even for a name that holds
  // arbitrary bytes.
  lemma TokenIsCookieValue(mac: Mac, secret: bytes, username: bytes, now: int)
    ensures forall c <- Token(mac, secret, username, now) :: CookieOctet(c)
  {
    var payload := Payload(username, now + SESSION_SECONDS);
    Base64Url.DecodeInvertsEncode(payload);
    Hex.DecodeInvertsEncode(mac(secret, payload));
  }
}
