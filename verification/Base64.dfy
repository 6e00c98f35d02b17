/** Bytes of text: UTF-8 (RFC 3629) and Base64 without padding in the URL-safe alphabet
    (sections 4 and 5 of RFC 4648).  */
module Base64 {
  import opened Wrappers

  type Octet = x: int | 0 <= x < 256

  // ---- UTF-8 --------------------------------------------------------------------------------------

  function EncodeChar(c: char): seq<Octet> {
    var n := c as int;
    if n < 0x80 then [n]
    else if n < 0x800 then [0xC0 + n / 0x40, 0x80 + n % 0x40]
    else if n < 0x10000 then [0xE0 + n / 0x1000, 0x80 + n / 0x40 % 0x40, 0x80 + n % 0x40]
    else [0xF0 + n / 0x40000, 0x80 + n / 0x1000 % 0x40, 0x80 + n / 0x40 % 0x40, 0x80 + n % 0x40]
  }

  function EncodeText(s: string): seq<Octet> {
    if s == [] then [] else EncodeChar(s[0]) + EncodeText(s[1..])
  }

  predicate Continues(b: Octet) { 0x80 <= b < 0xC0 }

  predicate IsScalar(n: int) { 0 <= n < 0xD800 || 0xE000 <= n < 0x11_0000 }

  /** The first character and how many bytes it takes. */
  function DecodeChar(b: seq<Octet>): (r: Option<(char, nat)>)
    requires b != []
    ensures r.Some? ==> 1 <= r.value.1 <= |b|
  {
    if b[0] < 0x80 then Some((b[0] as char, 1))
    else if 0xC2 <= b[0] < 0xE0 && |b| >= 2 && Continues(b[1]) then
      var n: int := (b[0] as int - 0xC0) * 0x40 + (b[1] as int - 0x80);
      Some((n as char, 2))
    else if 0xE0 <= b[0] < 0xF0 && |b| >= 3 && Continues(b[1]) && Continues(b[2]) then
      var n: int := (b[0] as int - 0xE0) * 0x1000 + (b[1] as int - 0x80) * 0x40 + (b[2] as int - 0x80);
      if n >= 0x800 && IsScalar(n) then Some((n as char, 3)) else None
    else if 0xF0 <= b[0] < 0xF5 && |b| >= 4 && Continues(b[1]) && Continues(b[2]) && Continues(b[3]) then
      var n: int := (b[0] as int - 0xF0) * 0x40000 + (b[1] as int - 0x80) * 0x1000
                    + (b[2] as int - 0x80) * 0x40 + (b[3] as int - 0x80);
      if n >= 0x10000 && IsScalar(n) then Some((n as char, 4)) else None
    else None
  }

  function DecodeText(b: seq<Octet>): Option<string> {
    if b == [] then Some([])
    else
      var first := DecodeChar(b);
      if first.None? then None
      else
        var rest := DecodeText(b[first.value.1..]);
        if rest.None? then None else Some([first.value.0] + rest.value)
  }

  lemma SplitTwo(n: nat)
    ensures n == n / 0x40 * 0x40 + n % 0x40
    ensures n < 0x800 ==> n / 0x40 < 0x20
    ensures n >= 0x80 ==> n / 0x40 >= 2
  {
  }

  lemma SplitThree(n: nat)
    ensures n == n / 0x1000 * 0x1000 + n / 0x40 % 0x40 * 0x40 + n % 0x40
    ensures n < 0x10000 ==> n / 0x1000 < 0x10
  {
    SplitTwo(n);
    SplitTwo(n / 0x40);
    assert n / 0x40 / 0x40 == n / 0x1000;
  }

  lemma SplitFour(n: nat)
    ensures n == n / 0x40000 * 0x40000 + n / 0x1000 % 0x40 * 0x1000 + n / 0x40 % 0x40 * 0x40 + n % 0x40
    ensures n < 0x110000 ==> n / 0x40000 < 5
  {
    SplitThree(n);
    SplitTwo(n / 0x1000);
    assert n / 0x1000 / 0x40 == n / 0x40000;
  }

  lemma CharRoundTrip(c: char, rest: seq<Octet>)
    ensures DecodeChar(EncodeChar(c) + rest) == Some((c, |EncodeChar(c)|))
  {
    var n := c as int;
    var b := EncodeChar(c) + rest;
    assert IsScalar(n);
    if n < 0x80 {
      assert b[0] == n;
    } else if n < 0x800 {
      SplitTwo(n);
      assert b[0] == 0xC0 + n / 0x40 && b[1] == 0x80 + n % 0x40;
    } else if n < 0x10000 {
      SplitThree(n);
      assert b[0] == 0xE0 + n / 0x1000 && b[1] == 0x80 + n / 0x40 % 0x40 && b[2] == 0x80 + n % 0x40;
    } else {
      SplitFour(n);
      assert b[0] == 0xF0 + n / 0x40000 && b[1] == 0x80 + n / 0x1000 % 0x40;
      assert b[2] == 0x80 + n / 0x40 % 0x40 && b[3] == 0x80 + n % 0x40;
    }
  }

  /** Encoding loses nothing. */
  lemma {:induction false} TextRoundTrip(s: string)
    ensures DecodeText(EncodeText(s)) == Some(s)
  {
    if s != [] {
      var head, tail := EncodeChar(s[0]), EncodeText(s[1..]);
      CharRoundTrip(s[0], tail);
      TextRoundTrip(s[1..]);
      assert (head + tail)[|head|..] == tail;
      assert s == [s[0]] + s[1..];
    }
  }

  // ---- Base64 -------------------------------------------------------------------------------------

  type Sextet = v: int | 0 <= v < 64

  function Digit(v: Sextet): char {
    if v < 26 then 'A' + v as char
    else if v < 52 then 'a' + (v - 26) as char
    else if v < 62 then '0' + (v - 52) as char
    else if v == 62 then '-' else '_'
  }

  /** The value of a character of either alphabet. */
  function Value(c: char): Option<Sextet> {
    if 'A' <= c <= 'Z' then Some(c as int - 'A' as int)
    else if 'a' <= c <= 'z' then Some(c as int - 'a' as int + 26)
    else if '0' <= c <= '9' then Some(c as int - '0' as int + 52)
    else if c == '-' || c == '+' then Some(62)
    else if c == '_' || c == '/' then Some(63)
    else None
  }

  predicate IsSafe(c: char) {
    'A' <= c <= 'Z' || 'a' <= c <= 'z' || '0' <= c <= '9' || c == '-' || c == '_'
  }

  predicate AllSafe(s: string) { forall i | 0 <= i < |s| :: IsSafe(s[i]) }

  lemma DigitRoundTrip(v: Sextet)
    ensures Value(Digit(v)) == Some(v) && IsSafe(Digit(v))
  {
  }

  /** The URL-safe alphabet in its own order: A to Z, a to z, 0 to 9, - and _ (section 5 of RFC 4648). */
  lemma DigitIsAlphabet(v: Sextet)
    ensures Digit(0) == 'A' && Digit(25) == 'Z' && Digit(26) == 'a' && Digit(51) == 'z'
    ensures Digit(52) == '0' && Digit(61) == '9' && Digit(62) == '-' && Digit(63) == '_'
    ensures v !in {25, 51, 61, 62, 63} ==> Digit(v + 1) as int == Digit(v) as int + 1
  {
  }

  /** The six-bit groups of up to three bytes. */
  function Sextets(b: seq<Octet>): (v: seq<Sextet>)
    requires 1 <= |b| <= 3
    ensures |v| == |b| + 1
  {
    if |b| == 1 then [b[0] / 4, b[0] % 4 * 16]
    else if |b| == 2 then [b[0] / 4, b[0] % 4 * 16 + b[1] / 16, b[1] % 16 * 4]
    else [b[0] / 4, b[0] % 4 * 16 + b[1] / 16, b[1] % 16 * 4 + b[2] / 64, b[2] % 64]
  }

  /** The groups are the bytes as one number, filled up with zero bits (section 4 of RFC 4648). */
  lemma SextetsAreBits(b: seq<Octet>)
    requires 1 <= |b| <= 3
    ensures var v := Sextets(b);
      && (|b| == 1 ==> v[0] as int * 64 + v[1] as int == b[0] as int * 16)
      && (|b| == 2 ==> (v[0] as int * 64 + v[1] as int) * 64 + v[2] as int == (b[0] as int * 256 + b[1] as int) * 4)
      && (|b| == 3 ==> ((v[0] as int * 64 + v[1] as int) * 64 + v[2] as int) * 64 + v[3] as int
                       == (b[0] as int * 256 + b[1] as int) * 256 + b[2] as int)
  {
  }

  /** The bytes of two to four six-bit groups; left-over bits are dropped. */
  function Octets(v: seq<Sextet>): (b: seq<Octet>)
    requires 2 <= |v| <= 4
  {
    var first: Octet := v[0] as int * 4 + v[1] / 16;
    if |v| == 2 then [first]
    else
      var second: Octet := v[1] as int % 16 * 16 + v[2] / 4;
      if |v| == 3 then [first, second] else [first, second, v[2] as int % 4 * 64 + v[3]]
  }

  lemma TwoBytesBack(x: Octet, y: Octet)
    ensures x / 4 * 4 + (x % 4 * 16 + y / 16) / 16 == x
    ensures (x % 4 * 16 + y / 16) % 16 * 16 + y % 16 == y
  {
  }

  lemma SextetsBack(b: seq<Octet>)
    requires 1 <= |b| <= 3
    ensures Octets(Sextets(b)) == b
  {
    if |b| == 1 {
      TwoBytesBack(b[0], 0);
    } else if |b| == 2 {
      TwoBytesBack(b[0], b[1]);
    } else {
      TwoBytesBack(b[0], b[1]);
      assert (b[1] % 16 * 4 + b[2] / 64) / 4 == b[1] % 16;
      assert (b[1] % 16 * 4 + b[2] / 64) % 4 * 64 + b[2] % 64 == b[2];
    }
  }

  function Digits(v: seq<Sextet>): (s: string)
    ensures |s| == |v| && forall i | 0 <= i < |v| :: s[i] == Digit(v[i])
  {
    seq(|v|, i requires 0 <= i < |v| => Digit(v[i]))
  }

  function EncodeGroup(b: seq<Octet>): (s: string)
    requires 1 <= |b| <= 3
    ensures |s| == |b| + 1
  {
    Digits(Sextets(b))
  }

  /** `urlsafe_b64encode(b)` with the padding stripped. */
  function Encode(b: seq<Octet>): string {
    if b == [] then []
    else if |b| <= 3 then EncodeGroup(b)
    else EncodeGroup(b[..3]) + Encode(b[3..])
  }

  predicate AllValues(s: string) { forall i | 0 <= i < |s| :: Value(s[i]).Some? }

  function Values(s: string): (v: seq<Sextet>)
    requires AllValues(s)
    ensures |v| == |s| && forall i | 0 <= i < |s| :: v[i] == Value(s[i]).value
  {
    seq<Sextet>(|s|, i requires 0 <= i < |s| => Value(s[i]).value)
  }

  function DecodeGroup(s: string): Option<seq<Octet>>
    requires 1 <= |s| <= 4
  {
    if |s| == 1 || !AllValues(s) then None else Some(Octets(Values(s)))
  }

  /** `_b64decode` of a text without padding. */
  function Decode(s: string): Option<seq<Octet>> {
    if s == [] then Some([])
    else if |s| <= 4 then DecodeGroup(s)
    else
      var first, rest := DecodeGroup(s[..4]), Decode(s[4..]);
      if first.None? || rest.None? then None else Some(first.value + rest.value)
  }

  lemma DigitsBack(v: seq<Sextet>)
    ensures AllValues(Digits(v)) && AllSafe(Digits(v)) && Values(Digits(v)) == v
  {
    forall i | 0 <= i < |v| ensures Value(Digits(v)[i]) == Some(v[i]) && IsSafe(Digits(v)[i]) {
      DigitRoundTrip(v[i]);
    }
  }

  lemma GroupRoundTrip(b: seq<Octet>)
    requires 1 <= |b| <= 3
    ensures DecodeGroup(EncodeGroup(b)) == Some(b) && AllSafe(EncodeGroup(b))
  {
    SextetsBack(b);
    DigitsBack(Sextets(b));
  }

  lemma {:induction false} EncodeNotEmpty(b: seq<Octet>)
    requires b != []
    ensures |Encode(b)| >= 2
  {
  }

  /** Stripping the padding loses nothing. */
  lemma {:induction false} BytesRoundTrip(b: seq<Octet>)
    ensures Decode(Encode(b)) == Some(b)
  {
    if b == [] {
    } else if |b| <= 3 {
      GroupRoundTrip(b);
    } else {
      var head, tail := EncodeGroup(b[..3]), Encode(b[3..]);
      GroupRoundTrip(b[..3]);
      BytesRoundTrip(b[3..]);
      EncodeNotEmpty(b[3..]);
      assert (head + tail)[..4] == head && (head + tail)[4..] == tail;
      assert b == b[..3] + b[3..];
    }
  }

  /** The encoding uses the URL-safe alphabet only. */
  lemma {:induction false} EncodeIsSafe(b: seq<Octet>)
    ensures AllSafe(Encode(b))
  {
    if b == [] {
    } else if |b| <= 3 {
      GroupRoundTrip(b);
    } else {
      GroupRoundTrip(b[..3]);
      EncodeIsSafe(b[3..]);
    }
  }
}
