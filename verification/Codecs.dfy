// The text encodings behind session tokens and the settings table: unpadded
// base64url (section 5 of RFC 4648), hex (section 8 of RFC 4648) and decimal
// 64-bit integers. Go strings are byte sequences, so everything is over bytes.
module Bytes {
  type byte = x: int | 0 <= x < 256

  type bytes = seq<byte>

  const DOT: byte := 46
  const BAR: byte := 124
  const LF: byte := 10
  const CR: byte := 13

  // The part before the first `sep` and the part after it; without a `sep`,
  // everything and nothing.
  function Before(s: bytes, sep: byte): bytes {
    if s == [] || s[0] == sep then [] else [s[0]] + Before(s[1..], sep)
  }

  function After(s: bytes, sep: byte): bytes {
    if s == [] then [] else if s[0] == sep then s[1..] else After(s[1..], sep)
  }

  lemma {:induction false} CutAtFirst(a: bytes, sep: byte, b: bytes)
    requires sep !in a
    ensures Before(a + [sep] + b, sep) == a && After(a + [sep] + b, sep) == b && sep in a + [sep] + b
  {
    var s := a + [sep] + b;
    assert s[|a|] == sep;
    if a == [] {
      assert s == [sep] + b;
    } else {
      CutAtFirst(a[1..], sep, b);
      assert s[0] == a[0] && s[1..] == a[1..] + [sep] + b;
    }
  }

  // A cut can only go wrong when the first part holds the separator: then the
  // second part still holds it or begins after it, inside the first part.
  lemma {:induction false} CutInside(a: bytes, sep: byte, b: bytes)
    requires sep in a
    ensures exists k :: 0 <= k <= |a| && After(a + [sep] + b, sep) == a[k..] + [sep] + b
  {
    var s := a + [sep] + b;
    assert s[0] == a[0] && s[1..] == a[1..] + [sep] + b;
    if a[0] == sep {
      assert After(s, sep) == a[1..] + [sep] + b;
    } else {
      CutInside(a[1..], sep, b);
      var k :| 0 <= k <= |a[1..]| && After(a[1..] + [sep] + b, sep) == a[1..][k..] + [sep] + b;
      assert a[1..][k..] == a[k + 1..];
      assert After(s, sep) == a[k + 1..] + [sep] + b;
    }
  }
}

module Base64Url {
  import opened Wrappers
  import opened Bytes

  // The letter for six bits, and back.
  function Letter(v: int): byte
    requires 0 <= v < 64
  {
    if v < 26 then 65 + v
    else if v < 52 then 97 + (v - 26)
    else if v < 62 then 48 + (v - 52)
    else if v == 62 then 45
    else 95
  }

  function Value(c: byte): Option<int> {
    if 65 <= c <= 90 then Some(c - 65)
    else if 97 <= c <= 122 then Some(c - 97 + 26)
    else if 48 <= c <= 57 then Some(c - 48 + 52)
    else if c == 45 then Some(62)
    else if c == 95 then Some(63)
    else None
  }

  predicate IsLetter(c: byte) {
    65 <= c <= 90 || 97 <= c <= 122 || 48 <= c <= 57 || c == 45 || c == 95
  }

  const UPPER := "ABCDEFGHIJKLMNOPQRSTUVWXYZ"
  const LOWER := "abcdefghijklmnopqrstuvwxyz"
  const NUMERALS := "0123456789"
  const ALPHABET := UPPER + LOWER + NUMERALS + "-_"

  // The letters are those of table 2 of RFC 4648, in its order.
  lemma LettersAreAlphabet(v: int)
    requires 0 <= v < 64
    ensures |ALPHABET| == 64 && Letter(v) == ALPHABET[v] as int
  {
  }

  // Three bytes become four letters; one or two left over become two or three.
  function Encode(b: bytes): bytes {
    if b == [] then []
    else if |b| == 1 then [Letter(b[0] / 4), Letter(b[0] % 4 * 16)]
    else if |b| == 2 then [Letter(b[0] / 4), Letter(b[0] % 4 * 16 + b[1] / 16), Letter(b[1] % 16 * 4)]
    else
      [Letter(b[0] / 4), Letter(b[0] % 4 * 16 + b[1] / 16), Letter(b[1] % 16 * 4 + b[2] / 64), Letter(b[2] % 64)]
      + Encode(b[3..])
  }

  // The decoder skips line breaks.
  function Unwrapped(s: bytes): bytes {
    if s == [] then [] else (if s[0] == LF || s[0] == CR then [] else [s[0]]) + Unwrapped(s[1..])
  }

  predicate AllLetters(s: bytes) {
    forall c <- s :: Value(c).Some?
  }

  // Letters to bytes; a single letter left over holds no byte. Spare low bits of
  // the last letter are not looked at.
  function Letters(s: bytes): Option<bytes>
    requires AllLetters(s)
  {
    if s == [] then Some([])
    else if |s| == 1 then None
    else
      var v0, v1 := Value(s[0]).value, Value(s[1]).value;
      if |s| == 2 then Some([v0 * 4 + v1 / 16])
      else
        var v2 := Value(s[2]).value;
        if |s| == 3 then Some([v0 * 4 + v1 / 16, v1 % 16 * 16 + v2 / 4])
        else
          var v3 := Value(s[3]).value;
          var rest := Letters(s[4..]);
          if rest.None? then None
          else Some([v0 * 4 + v1 / 16, v1 % 16 * 16 + v2 / 4, v2 % 4 * 64 + v3] + rest.value)
  }

  function Decode(s: bytes): Option<bytes> {
    var clean := Unwrapped(s);
    if AllLetters(clean) then Letters(clean) else None
  }

  lemma LetterRoundTrip(v: int)
    requires 0 <= v < 64
    ensures Value(Letter(v)) == Some(v) && IsLetter(Letter(v))
  {
  }

  lemma {:induction false} EncodeUsesLetters(b: bytes)
    ensures forall c <- Encode(b) :: IsLetter(c)
    decreases |b|
  {
    if |b| > 2 {
      EncodeUsesLetters(b[3..]);
    }
  }

  lemma {:induction false} UnwrappedLetters(s: bytes)
    requires forall c <- s :: IsLetter(c)
    ensures Unwrapped(s) == s && AllLetters(s)
  {
    if s != [] {
      assert s[0] in s && IsLetter(s[0]);
      UnwrappedLetters(s[1..]);
      assert s == [s[0]] + s[1..];
    }
  }

  // Three bytes split into four six-bit groups fit together again.
  lemma Regroup(x: byte, y: byte, z: byte) returns (v0: int, v1: int, v2: int, v3: int)
    ensures v0 == x / 4 && v1 == x % 4 * 16 + y / 16 && v2 == y % 16 * 4 + z / 64 && v3 == z % 64
    ensures 0 <= v0 < 64 && 0 <= v1 < 64 && 0 <= v2 < 64 && 0 <= v3 < 64
    ensures v0 * 4 + v1 / 16 == x && v1 % 16 * 16 + v2 / 4 == y && v2 % 4 * 64 + v3 == z
  {
    v0, v1, v2, v3 := x / 4, x % 4 * 16 + y / 16, y % 16 * 4 + z / 64, z % 64;
    assert v1 / 16 == x % 4 && v1 % 16 == y / 16;
    assert v2 / 4 == y % 16 && v2 % 4 == z / 64;
  }

  // How four, three and two letters are read.
  lemma ReadQuantum(v0: int, v1: int, v2: int, v3: int, s: bytes, rest: bytes)
    requires 0 <= v0 < 64 && 0 <= v1 < 64 && 0 <= v2 < 64 && 0 <= v3 < 64
    requires s == [Letter(v0), Letter(v1), Letter(v2), Letter(v3)] + rest
    requires AllLetters(s) && AllLetters(rest) && Letters(rest).Some?
    ensures Letters(s) == Some([v0 * 4 + v1 / 16, v1 % 16 * 16 + v2 / 4, v2 % 4 * 64 + v3] + Letters(rest).value)
  {
    LetterRoundTrip(v0);
    LetterRoundTrip(v1);
    LetterRoundTrip(v2);
    LetterRoundTrip(v3);
    assert s[4..] == rest;
  }

  lemma ReadThree(v0: int, v1: int, v2: int)
    requires 0 <= v0 < 64 && 0 <= v1 < 64 && 0 <= v2 < 64
    ensures AllLetters([Letter(v0), Letter(v1), Letter(v2)])
    ensures Letters([Letter(v0), Letter(v1), Letter(v2)]) == Some([v0 * 4 + v1 / 16, v1 % 16 * 16 + v2 / 4])
  {
    LetterRoundTrip(v0);
    LetterRoundTrip(v1);
    LetterRoundTrip(v2);
  }

  lemma ReadTwo(v0: int, v1: int)
    requires 0 <= v0 < 64 && 0 <= v1 < 64
    ensures AllLetters([Letter(v0), Letter(v1)])
    ensures Letters([Letter(v0), Letter(v1)]) == Some([v0 * 4 + v1 / 16])
  {
    LetterRoundTrip(v0);
    LetterRoundTrip(v1);
  }

  // How one and two left-over bytes are written, given their six-bit groups.
  lemma WriteOne(b: bytes, v0: int, v1: int)
    requires |b| == 1 && v0 == b[0] / 4 && v1 == b[0] % 4 * 16
    ensures 0 <= v0 < 64 && 0 <= v1 < 64 && Encode(b) == [Letter(v0), Letter(v1)]
  {
  }

  lemma WriteTwo(b: bytes, v0: int, v1: int, v2: int)
    requires |b| == 2 && v0 == b[0] / 4 && v1 == b[0] % 4 * 16 + b[1] / 16 && v2 == b[1] % 16 * 4
    ensures 0 <= v0 < 64 && 0 <= v1 < 64 && 0 <= v2 < 64 && Encode(b) == [Letter(v0), Letter(v1), Letter(v2)]
  {
  }

  lemma OneByteRestored(x: byte)
    ensures AllLetters(Encode([x])) && Letters(Encode([x])) == Some([x])
  {
    var v0, v1, _, _ := Regroup(x, 0, 0);
    WriteOne([x], v0, v1);
    ReadTwo(v0, v1);
  }

  lemma TwoBytesRestored(x: byte, y: byte)
    ensures AllLetters(Encode([x, y])) && Letters(Encode([x, y])) == Some([x, y])
  {
    var v0, v1, v2, _ := Regroup(x, y, 0);
    WriteTwo([x, y], v0, v1, v2);
    ReadThree(v0, v1, v2);
  }

  lemma {:induction false} LettersInvertEncode(b: bytes)
    requires AllLetters(Encode(b))
    ensures Letters(Encode(b)) == Some(b)
    decreases |b|
  {
    if |b| == 1 {
      OneByteRestored(b[0]);
      assert b == [b[0]];
    } else if |b| == 2 {
      TwoBytesRestored(b[0], b[1]);
      assert b == [b[0], b[1]];
    } else if |b| > 2 {
      assert forall c <- Encode(b[3..]) :: c in Encode(b);
      LettersInvertEncode(b[3..]);
      QuantumRestores(b[0], b[1], b[2], Encode(b), Encode(b[3..]), b[3..]);
      assert b == [b[0], b[1], b[2]] + b[3..];
    }
  }

  lemma QuantumRestores(x: byte, y: byte, z: byte, s: bytes, tail: bytes, rest: bytes)
    requires s == [Letter(x / 4), Letter(x % 4 * 16 + y / 16), Letter(y % 16 * 4 + z / 64), Letter(z % 64)] + tail
    requires AllLetters(s) && AllLetters(tail) && Letters(tail) == Some(rest)
    ensures Letters(s) == Some([x, y, z] + rest)
  {
    var v0, v1, v2, v3 := Regroup(x, y, z);
    ReadQuantum(v0, v1, v2, v3, s, tail);
  }

  // Decoding inverts encoding for every byte sequence, whatever its length is
  // modulo three, and the encoding uses the URL-safe alphabet only.
  lemma DecodeInvertsEncode(b: bytes)
    ensures Decode(Encode(b)) == Some(b)
    ensures forall c <- Encode(b) :: IsLetter(c) && c != DOT
    ensures |Encode(b)| == (4 * |b| + 2) / 3
  {
    EncodeUsesLetters(b);
    UnwrappedLetters(Encode(b));
    LettersInvertEncode(b);
    EncodedLength(b);
  }

  // The bits of the input, first byte first, in groups of six: three bytes and
  // four letters are the same number, and left-over bytes are padded with zeros.
  lemma GroupsKeepBits(b: bytes) returns (v0: int, v1: int, v2: int, v3: int)
    requires b != []
    ensures 0 <= v0 < 64 && 0 <= v1 < 64 && 0 <= v2 < 64 && 0 <= v3 < 64
    ensures |b| >= 3 ==>
              && Encode(b)[..4] == [Letter(v0), Letter(v1), Letter(v2), Letter(v3)] && Encode(b)[4..] == Encode(b[3..])
              && ((v0 * 64 + v1) * 64 + v2) * 64 + v3 == (b[0] as int * 256 + b[1] as int) * 256 + b[2] as int
    ensures |b| == 2 ==> Encode(b) == [Letter(v0), Letter(v1), Letter(v2)] && (v0 * 64 + v1) * 64 + v2 == (b[0] as int * 256 + b[1] as int) * 4
    ensures |b| == 1 ==> Encode(b) == [Letter(v0), Letter(v1)] && v0 * 64 + v1 == b[0] as int * 16
  {
    var y, z := if |b| > 1 then b[1] else 0, if |b| > 2 then b[2] else 0;
    v0, v1, v2, v3 := Regroup(b[0], y, z);
  }

  lemma {:induction false} EncodedLength(b: bytes)
    ensures |Encode(b)| == (4 * |b| + 2) / 3
    decreases |b|
  {
    if |b| > 2 {
      EncodedLength(b[3..]);
    }
  }
}

module Hex {
  import opened Wrappers
  import opened Bytes

  function Digit(v: int): byte
    requires 0 <= v < 16
  {
    if v < 10 then 48 + v else 97 + (v - 10)
  }

  const DIGITS := "0123456789abcdef"

  lemma DigitsAreLowerCase(v: int)
    requires 0 <= v < 16
    ensures |DIGITS| == 16 && Digit(v) == DIGITS[v] as int
  {
  }

  // Either case is read.
  function Value(c: byte): Option<int> {
    if 48 <= c <= 57 then Some(c - 48)
    else if 97 <= c <= 102 then Some(c - 97 + 10)
    else if 65 <= c <= 70 then Some(c - 65 + 10)
    else None
  }

  predicate IsHexDigit(c: byte) {
    48 <= c <= 57 || 97 <= c <= 102
  }

  function Encode(b: bytes): bytes {
    if b == [] then [] else [Digit(b[0] / 16), Digit(b[0] % 16)] + Encode(b[1..])
  }

  function Decode(s: bytes): Option<bytes> {
    if s == [] then Some([])
    else if |s| == 1 || Value(s[0]).None? || Value(s[1]).None? then None
    else
      var rest := Decode(s[2..]);
      if rest.None? then None else Some([Value(s[0]).value * 16 + Value(s[1]).value] + rest.value)
  }

  lemma {:induction false} DecodeInvertsEncode(b: bytes)
    ensures Decode(Encode(b)) == Some(b)
    ensures |Encode(b)| == 2 * |b| && forall c <- Encode(b) :: IsHexDigit(c)
  {
    if b != [] {
      DecodeInvertsEncode(b[1..]);
      assert Encode(b)[2..] == Encode(b[1..]);
      assert b == [b[0]] + b[1..];
    }
  }

  // Byte k becomes digits 2k and 2k + 1, the high one first.
  lemma {:induction false} EncodesEachByte(b: bytes, k: nat)
    requires k < |b|
    ensures |Encode(b)| == 2 * |b|
    ensures exists high, low :: 0 <= high < 16 && 0 <= low < 16 && 16 * high + low == b[k]
              && Encode(b)[2 * k] == Digit(high) && Encode(b)[2 * k + 1] == Digit(low)
  {
    DecodeInvertsEncode(b);
    if k == 0 {
      var high, low := b[0] / 16, b[0] % 16;
      assert 16 * high + low == b[0] && Encode(b)[0] == Digit(high) && Encode(b)[1] == Digit(low);
    } else {
      EncodesEachByte(b[1..], k - 1);
      assert Encode(b)[2..] == Encode(b[1..]);
    }
  }

  lemma EncodeInjective(a: bytes, b: bytes)
    requires Encode(a) == Encode(b)
    ensures a == b
  {
    DecodeInvertsEncode(a);
    DecodeInvertsEncode(b);
  }
}

module Decimal {
  import opened Wrappers
  import opened Bytes

  const MIN_INT64 := -0x8000_0000_0000_0000
  const MAX_INT64 := 0x7FFF_FFFF_FFFF_FFFF

  predicate IsDigit(c: byte) {
    48 <= c <= 57
  }

  function Digits(n: nat): bytes {
    if n < 10 then [48 + n] else Digits(n / 10) + [48 + n % 10]
  }

  function Format(n: int): bytes {
    if n < 0 then [45] + Digits(-n) else Digits(n)
  }

  predicate AllDigits(s: bytes) {
    forall c <- s :: IsDigit(c)
  }

  function Number(s: bytes): nat
    requires AllDigits(s)
  {
    if s == [] then 0
    else
      assert s[|s| - 1] in s;
      var last: int := s[|s| - 1];
      Number(s[..|s| - 1]) * 10 + (last - 48)
  }

  // A sign, then at least one digit and nothing but digits, within 64 bits.
  function Parse(s: bytes): Option<int> {
    var signed := s != [] && (s[0] == 43 || s[0] == 45);
    var digits := if signed then s[1..] else s;
    if digits == [] || !AllDigits(digits) then None
    else
      var n: int := if signed && s[0] == 45 then 0 - Number(digits) else Number(digits);
      if MIN_INT64 <= n <= MAX_INT64 then Some(n) else None
  }

  lemma {:induction false} NumberInvertsDigits(n: nat)
    ensures Digits(n) != [] && AllDigits(Digits(n)) && Number(Digits(n)) == n
  {
    var s := Digits(n);
    if n >= 10 {
      NumberInvertsDigits(n / 10);
      assert s[..|s| - 1] == Digits(n / 10);
    } else {
      assert s[..|s| - 1] == [];
    }
  }

  // Digits are to base ten, the last one last, without leading zeros.
  lemma BaseTen(n: int, d: int)
    requires n >= 0 && 0 <= d < 10
    ensures Digits(d) == ["0123456789"[d] as int]
    ensures n > 0 ==> Digits(10 * n + d) == Digits(n) + Digits(d)
    ensures n > 0 ==> Format(n) == Digits(n) && Format(-n) == ['-' as int] + Digits(n)
  {
    assert (10 * n + d) / 10 == n && (10 * n + d) % 10 == d;
  }

  lemma ParseInvertsFormat(n: int)
    requires MIN_INT64 <= n <= MAX_INT64
    ensures Parse(Format(n)) == Some(n)
    ensures forall c <- Format(n) :: IsDigit(c) || c == 45
  {
    var m: nat := if n < 0 then -n else n;
    NumberInvertsDigits(m);
    if n < 0 {
      assert Format(n)[1..] == Digits(m);
    } else {
      assert Format(n)[0] in Format(n);
    }
  }

  // Anything that holds a byte other than digits and signs is refused.
  lemma ParseRefuses(s: bytes, c: byte)
    requires c in s && !IsDigit(c) && c != 43 && c != 45
    ensures Parse(s) == None
  {
    if s[0] == 43 || s[0] == 45 {
      assert c in s[1..];
    }
  }
}
