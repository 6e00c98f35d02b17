/** The stream decryptor of v2ray/npv_decrypt.py: a counter that is incremented in place, and a
    block cipher given by tables. Counter mode is section 6.5 of NIST SP 800-38A.  */
module CtrDecrypt {
  import opened Arith

  type Byte = x: int | 0 <= x < 256

  type Block = b: seq<Byte> | |b| == 16 witness seq(16, _ => 0)

  // ---- numbers as big-endian bytes --------------------------------------------------------------

  function Pow256(n: nat): (p: nat)
    ensures p > 0
  {
    if n == 0 then 1 else Pow256(n - 1) * 256
  }

  /** The number that the bytes spell, most significant first. */
  function Number(s: seq<Byte>): nat {
    if s == [] then 0 else Number(s[..|s| - 1]) * 256 + s[|s| - 1]
  }

  /** The last n bytes of a number. */
  function Spell(v: nat, n: nat): (s: seq<Byte>)
    ensures |s| == n
  {
    if n == 0 then [] else Spell(v / 256, n - 1) + [v % 256]
  }

  lemma {:induction false} NumberBound(s: seq<Byte>)
    ensures Number(s) < Pow256(|s|)
  {
    if s != [] { NumberBound(s[..|s| - 1]); }
  }

  lemma {:induction false} SpellNumber(s: seq<Byte>)
    ensures Spell(Number(s), |s|) == s
  {
    if s != [] {
      var n := |s| - 1;
      SpellNumber(s[..n]);
      DivUnique(Number(s), 256, Number(s[..n]), s[n]);
      assert s == s[..n] + [s[n]];
    }
  }

  // ---- the counter ------------------------------------------------------------------------------

  /** The carry loop: add one to the last byte, and go on to the left while the sum is zero. */
  function Increment(s: seq<Byte>): (r: seq<Byte>)
    ensures |r| == |s|
  {
    if s == [] then []
    else
      var n := |s| - 1;
      var sum: int := (s[n] as int + 1) % 256;
      if sum != 0 then s[..n] + [sum] else Increment(s[..n]) + [sum]
  }

  lemma Wraps(v: nat, m: nat)
    requires v < m
    ensures (v + 1) % m == if v + 1 == m then 0 else v + 1
  {
    if v + 1 == m { DivUnique(v + 1, m, 1, 0); } else { DivUnique(v + 1, m, 0, v + 1); }
  }

  lemma WrapsTo(v: nat, m: nat, next: nat)
    requires v < m
    requires next == if v + 1 == m then 0 else v + 1
    ensures next == (v + 1) % m
  {
    Wraps(v, m);
  }

  lemma NumberSnoc(head: seq<Byte>, x: Byte)
    ensures Number(head + [x]) == Number(head) * 256 + x
  {
    assert (head + [x])[..|head|] == head;
  }

  lemma {:induction false} IncrementSteps(s: seq<Byte>)
    ensures Number(Increment(s)) == if Number(s) + 1 == Pow256(|s|) then 0 else Number(s) + 1
  {
    if s != [] {
      var head, x := s[..|s| - 1], s[|s| - 1];
      IncrementSteps(head);
      NumberBound(head);
      NumberSnoc(head, (x as int + 1) % 256);
      NumberSnoc(Increment(head), 0);
    }
  }

  /** The carry loop is exactly +1 modulo 256 to the length. */
  lemma IncrementIsPlusOne(s: seq<Byte>)
    ensures Number(Increment(s)) == (Number(s) + 1) % Pow256(|s|)
  {
    IncrementSteps(s);
    NumberBound(s);
    WrapsTo(Number(s), Pow256(|s|), Number(Increment(s)));
  }

  /** The counter after n increments. */
  function Advanced(iv: seq<Byte>, n: nat): (r: seq<Byte>)
    ensures |r| == |iv|
  {
    if n == 0 then iv else Increment(Advanced(iv, n - 1))
  }

  lemma ModStep(a: nat, n: nat, m: nat)
    requires m > 0
    ensures ((a + n) % m + 1) % m == (a + n + 1) % m
  {
    var q, r := (a + n) / m, (a + n) % m;
    Wraps(r, m);
    if r + 1 == m {
      assert a + n + 1 == (q + 1) * m + 0;
      DivUnique(a + n + 1, m, q + 1, 0);
    } else {
      DivUnique(a + n + 1, m, q, r + 1);
    }
  }

  lemma {:induction false} AdvancedNumber(iv: seq<Byte>, n: nat)
    ensures Number(Advanced(iv, n)) == (Number(iv) + n) % Pow256(|iv|)
  {
    var m := Pow256(|iv|);
    if n == 0 {
      NumberBound(iv);
      DivUnique(Number(iv), m, 0, Number(iv));
    } else {
      AdvancedNumber(iv, n - 1);
      IncrementIsPlusOne(Advanced(iv, n - 1));
      ModStep(Number(iv), n - 1, m);
    }
  }

  lemma SixteenBytes()
    ensures Pow256(16) == 0x1_0000_0000_0000_0000_0000_0000_0000_0000
  {
    assert Pow256(4) == 0x1_0000_0000;
    assert Pow256(8) == 0x1_0000_0000_0000_0000;
    assert Pow256(12) == 0x1_0000_0000_0000_0000_0000_0000;
  }

  // ---- counter mode -----------------------------------------------------------------------------

  /** The initial number plus i, modulo 256 to the length, as that many bytes. */
  function CounterBytes(iv: seq<Byte>, i: nat): (r: seq<Byte>)
    ensures |r| == |iv|
  {
    Spell((Number(iv) + i) % Pow256(|iv|), |iv|)
  }

  /** The counter block of index i: for sixteen bytes the modulus is 2^128. */
  function CounterBlock(iv: Block, i: nat): Block { CounterBytes(iv, i) }

  /** Exclusive or of the last n bits. */
  function XorBits(a: nat, b: nat, n: nat): nat {
    if n == 0 then 0
    else 2 * XorBits(a / 2, b / 2, n - 1) + if a % 2 != b % 2 then 1 else 0
  }

  lemma {:induction false} XorBitsBound(a: nat, b: nat, n: nat)
    ensures XorBits(a, b, n) < Pow2(n)
  {
    if n > 0 { XorBitsBound(a / 2, b / 2, n - 1); }
  }

  function Xor(a: Byte, b: Byte): Byte {
    XorBitsBound(a, b, 8);
    assert Pow2(8) == 256;
    XorBits(a, b, 8)
  }

  /** The key stream byte for byte j of a text. */
  function KeyByte(cipher: Block -> Block, iv: Block, j: nat): Byte { cipher(CounterBlock(iv, j / 16))[j % 16] }

  /** Every byte is combined with its key stream byte. */
  function CounterMode(cipher: Block -> Block, iv: Block, text: seq<Byte>): (r: seq<Byte>)
    ensures |r| == |text|
  {
    if text == [] then []
    else
      var n := |text| - 1;
      CounterMode(cipher, iv, text[..n]) + [Xor(text[n], KeyByte(cipher, iv, n))]
  }

  /** Byte j of the result is byte j of the text combined with byte j mod 16 of the enciphered
      counter block j / 16. */
  lemma {:induction false} CounterModeAt(cipher: Block -> Block, iv: Block, text: seq<Byte>, j: nat)
    requires j < |text|
    ensures CounterMode(cipher, iv, text)[j] == Xor(text[j], cipher(CounterBlock(iv, j / 16))[j % 16])
  {
    var n := |text| - 1;
    if j < n { CounterModeAt(cipher, iv, text[..n], j); }
  }

  lemma AdvancedSpelled(iv: seq<Byte>, n: nat)
    ensures Advanced(iv, n) == CounterBytes(iv, n)
  {
    AdvancedNumber(iv, n);
    SpellNumber(Advanced(iv, n));
  }

  /** The counter of the code is the counter block of the specification. */
  lemma AdvancedIsCounterBlock(iv: Block, n: nat)
    ensures Advanced(iv, n) == CounterBlock(iv, n)
  {
    AdvancedSpelled(iv, n);
  }

  lemma {:induction false} XorBitsTwice(a: nat, k: nat, n: nat)
    requires a < Pow2(n)
    ensures XorBits(XorBits(a, k, n), k, n) == a
  {
    if n > 0 {
      var half, bit := XorBits(a / 2, k / 2, n - 1), if a % 2 != k % 2 then 1 else 0;
      XorBitsTwice(a / 2, k / 2, n - 1);
      assert (2 * half + bit) / 2 == half && (2 * half + bit) % 2 == bit;
    }
  }

  lemma XorTwice(a: Byte, k: Byte)
    ensures Xor(Xor(a, k), k) == a
  {
    assert Pow2(8) == 256;
    XorBitsTwice(a, k, 8);
  }

  /** Applying the transform twice gives the text back, so the decryptor also encrypts. */
  lemma {:induction false} CounterModeTwice(cipher: Block -> Block, iv: Block, text: seq<Byte>)
    ensures CounterMode(cipher, iv, CounterMode(cipher, iv, text)) == text
  {
    if text != [] {
      var n := |text| - 1;
      var once := CounterMode(cipher, iv, text);
      CounterModeTwice(cipher, iv, text[..n]);
      assert once[..n] == CounterMode(cipher, iv, text[..n]);
      XorTwice(text[n], KeyByte(cipher, iv, n));
    }
  }

  lemma RemaindersDiffer(a: nat, b: nat, m: nat)
    requires a < b < a + m
    ensures a % m != b % m
  {
    var p, q := a / m, b / m;
    MulDiff(q, p, m);
    if q > p { MulAtLeast(q - p, m); }
    if q > p + 1 { MulAtLeast(q - p - 1, m); MulDiff(q - p, 1, m); }
    if q < p { MulAtLeast(p - q, m); MulDiff(p, q, m); }
  }

  /** A counter of n bytes repeats only after 256^n increments, so within one text no two blocks
      are enciphered from the same counter. */
  lemma CountersDiffer(iv: seq<Byte>, i: nat, j: nat)
    requires i < j < i + Pow256(|iv|)
    ensures Advanced(iv, i) != Advanced(iv, j)
  {
    AdvancedNumber(iv, i);
    AdvancedNumber(iv, j);
    RemaindersDiffer(Number(iv) + i, Number(iv) + j, Pow256(|iv|));
  }

  lemma CarryStep(s: seq<Byte>, k: nat)
    requires k < |s|
    ensures var sum := (s[k] as int + 1) % 256;
      Increment(s[..k + 1]) == if sum != 0 then s[..k] + [sum] else Increment(s[..k]) + [sum]
  {
    assert s[..k + 1][..k] == s[..k];
  }

  method IncrementInPlace(iv: array<Byte>)
    modifies iv
    ensures iv[..] == Increment(old(iv[..]))
  {
    ghost var was := iv[..];
    var k := iv.Length;
    assert was[..k] == was;
    while k > 0
      invariant 0 <= k <= iv.Length == |was|
      invariant iv[..k] == was[..k]
      invariant Increment(was) == Increment(was[..k]) + iv[k..]
    {
      k := k - 1;
      CarryStep(was, k);
      ghost var rest := iv[k + 1..];
      iv[k] := (iv[k] as int + 1) % 256;
      assert iv[k..] == [iv[k]] + rest;
      if iv[k] != 0 {
        assert iv[..] == iv[..k] + iv[k..];
        assert iv[..k] == was[..k];
        return;
      }
    }
    assert iv[..] == iv[k..];
  }

  /** How many blocks have been begun before byte j. */
  function Begun(j: nat): nat { (j + 15) / 16 }

  lemma BegunStep(j: nat)
    ensures Begun(j + 1) == j / 16 + 1
    ensures Begun(j) == if j % 16 == 0 then j / 16 else j / 16 + 1
  {
    var q, r := j / 16, j % 16;
    DivUnique(j + 16, 16, q + 1, r);
    if r == 0 { DivUnique(j + 15, 16, q, 15); } else { DivUnique(j + 15, 16, q + 1, r - 1); }
  }

  method NextKeystream(iv: array<Byte>, cipher: Block -> Block, ghost iv0: Block, ghost n: nat)
    returns (keystream: Block)
    requires iv.Length == 16 && iv[..] == Advanced(iv0, n)
    modifies iv
    ensures iv[..] == Advanced(iv0, n + 1) && keystream == cipher(CounterBlock(iv0, n))
  {
    AdvancedIsCounterBlock(iv0, n);
    keystream := cipher(iv[..]);
    IncrementInPlace(iv);
  }

  /** Before byte j: the counter and the last key stream block are those of the blocks begun. */
  ghost predicate Ready(cipher: Block -> Block, iv0: Block, counter: seq<Byte>, keystream: Block, j: nat) {
    && counter == Advanced(iv0, Begun(j))
    && (Begun(j) > 0 ==> keystream == cipher(CounterBlock(iv0, Begun(j) - 1)))
  }

  /** A new key stream block at every sixteenth byte. */
  method RefillKeystream(iv: array<Byte>, cipher: Block -> Block, j: nat, current: Block, ghost iv0: Block)
    returns (keystream: Block)
    requires iv.Length == 16 && Ready(cipher, iv0, iv[..], current, j)
    modifies iv
    ensures Ready(cipher, iv0, iv[..], keystream, j + 1) && keystream[j % 16] == KeyByte(cipher, iv0, j)
  {
    BegunStep(j);
    keystream := current;
    if j % 16 == 0 {
      keystream := NextKeystream(iv, cipher, iv0, Begun(j));
    }
  }

  lemma NextByte(cipher: Block -> Block, iv: Block, text: seq<Byte>, j: nat)
    requires j < |text|
    ensures CounterMode(cipher, iv, text[..j + 1])
         == CounterMode(cipher, iv, text[..j]) + [Xor(text[j], KeyByte(cipher, iv, j))]
  {
    assert text[..j + 1][..j] == text[..j];
  }

  /** The bytes after the counter, one by one. */
  method ApplyKeystream(iv: array<Byte>, ciphertext: seq<Byte>, cipher: Block -> Block) returns (text: seq<Byte>)
    requires iv.Length == 16
    modifies iv
    ensures text == CounterMode(cipher, old(iv[..]), ciphertext)
  {
    ghost var iv0: Block := iv[..];
    var keystream: Block := iv[..];
    text := [];
    for j := 0 to |ciphertext|
      invariant text == CounterMode(cipher, iv0, ciphertext[..j])
      invariant Ready(cipher, iv0, iv[..], keystream, j)
    {
      keystream := RefillKeystream(iv, cipher, j, keystream, iv0);
      NextByte(cipher, iv0, ciphertext, j);
      text := text + [Xor(ciphertext[j], keystream[j % 16])];
    }
    assert ciphertext[..|ciphertext|] == ciphertext;
  }

  /** `decrypt_logic` between the decoding of its argument and of its result. The first sixteen
      bytes are the initial counter; a shorter input has no text and gives none. */
  method DecryptLogic(raw: seq<Byte>, cipher: Block -> Block) returns (text: seq<Byte>)
    ensures |raw| >= 16 ==> text == CounterMode(cipher, raw[..16], raw[16..])
    ensures |raw| < 16 ==> text == []
  {
    if |raw| < 16 { return []; }
    var iv := new Byte[16](i requires 0 <= i < 16 => raw[i]);
    assert iv[..] == raw[..16];
    text := ApplyKeystream(iv, raw[16..], cipher);
  }
}
