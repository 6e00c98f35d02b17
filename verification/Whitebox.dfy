/** `whitebox_encrypt_block` of v2ray/npv_decrypt.py: two rounds of table lookups over sixteen
    bytes, the second of which only permutes and substitutes. The tables are parameters; their
    entries are bytes, nibbles and 32-bit words by type.  */
module Whitebox {
  import opened CtrDecrypt

  /** `xor` is p2, `first` p3, `last` p4 and `second` p5. */
  datatype Tables = Tables(xor: (nat, nat, bv4, bv4) -> bv4, first: (nat, nat, Byte) -> bv32,
                           last: (nat, Byte) -> Byte, second: (nat, nat, Byte) -> bv32)

  const PERM: seq<nat> := [0, 5, 10, 15, 4, 9, 14, 3, 8, 13, 2, 7, 12, 1, 6, 11]

  lemma PermInRange()
    ensures |PERM| == 16 && forall i | 0 <= i < 16 :: PERM[i] < 16
  {
  }

  function Nibble(t: bv32, shift: nat): bv4
    requires shift <= 28
  {
    ((t >> shift) & 0xF) as bv4
  }

  function Join(hi: bv4, lo: bv4): Byte { (hi as int) * 16 + (lo as int) }

  /** Half a byte of the mixed column: the four words combined pairwise through nibble tables. */
  function Half(T: Tables, r: nat, a: nat, b: nat, c: nat, words: seq<bv32>, shift: nat): bv4
    requires |words| == 4 && shift <= 28
  {
    T.xor(r, c, T.xor(r, a, Nibble(words[0], shift), Nibble(words[1], shift)),
                T.xor(r, b, Nibble(words[2], shift), Nibble(words[3], shift)))
  }

  /** The byte at (column, row) mixed from the four words of its column. */
  function Cell(T: Tables, r: nat, words: seq<bv32>, col: nat, row: nat): Byte
    requires |words| == 4 && row < 4
  {
    var idx := col * 24 + row * 6;
    Join(Half(T, r, idx, idx + 1, idx + 4, words, 28 - row * 8),
         Half(T, r, idx + 2, idx + 3, idx + 5, words, 24 - row * 8))
  }

  function Words(table: (nat, nat, Byte) -> bv32, r: nat, s: Block, col: nat): (w: seq<bv32>)
    requires col < 4
    ensures |w| == 4
  {
    [table(r, col * 4, s[col * 4]), table(r, col * 4 + 1, s[col * 4 + 1]),
     table(r, col * 4 + 2, s[col * 4 + 2]), table(r, col * 4 + 3, s[col * 4 + 3])]
  }

  function Permuted(s: Block): Block { PermInRange(); seq(16, i requires 0 <= i < 16 => s[PERM[i]]) }

  function MixedAt(T: Tables, table: (nat, nat, Byte) -> bv32, r: nat, s: Block, i: nat): Byte
    requires i < 16
  {
    Cell(T, r, Words(table, r, s, i / 4), i / 4, i % 4)
  }

  function Mixed(T: Tables, table: (nat, nat, Byte) -> bv32, r: nat, s: Block): Block {
    seq<Byte>(16, i requires 0 <= i < 16 => MixedAt(T, table, r, s, i))
  }

  function LastAt(T: Tables, i: nat, x: Byte): Byte { T.last(i, x) }

  function Substituted(T: Tables, s: Block): Block { seq<Byte>(16, i requires 0 <= i < 16 => LastAt(T, i, s[i])) }

  function Encrypt(T: Tables, block: Block): Block {
    var mid := Mixed(T, T.first, 0, Permuted(block));
    Substituted(T, Permuted(Mixed(T, T.second, 0, mid)))
  }

  // ---- the bytes, spelled out ---------------------------------------------------------------------

  /** The permutation takes byte 5 i modulo 16 to place i. */
  lemma PermutedAt(s: Block, i: nat)
    requires i < 16
    ensures 5 * i % 16 < 16 && Permuted(s)[i] == s[5 * i % 16]
  {
    PermInRange();
  }

  /** Byte 4 c + r of a mixed state: each of the four words that table gives for the bytes of column c
      has the byte's high nibble at bit 28 - 8 r and its low one four bits lower; the xor tables of
      the byte start at 24 c + 6 r, the first two and the fifth for the high nibble, the other three
      for the low one. */
  lemma MixedMeans(T: Tables, table: (nat, nat, Byte) -> bv32, round: nat, s: Block, c: nat, r: nat)
    requires c < 4 && r < 4
    ensures var x, h, l := c * 24 + r * 6, 28 - r * 8, 24 - r * 8;
            var t0, t1 := table(round, c * 4, s[c * 4]), table(round, c * 4 + 1, s[c * 4 + 1]);
            var t2, t3 := table(round, c * 4 + 2, s[c * 4 + 2]), table(round, c * 4 + 3, s[c * 4 + 3]);
            var hi := T.xor(round, x + 4, T.xor(round, x, Nibble(t0, h), Nibble(t1, h)),
                                          T.xor(round, x + 1, Nibble(t2, h), Nibble(t3, h)));
            var lo := T.xor(round, x + 5, T.xor(round, x + 2, Nibble(t0, l), Nibble(t1, l)),
                                          T.xor(round, x + 3, Nibble(t2, l), Nibble(t3, l)));
      Mixed(T, table, round, s)[4 * c + r] == (hi as int) * 16 + (lo as int)
  {
    var i, words := 4 * c + r, Words(table, round, s, c);
    assert i / 4 == c && i % 4 == r;
    assert Mixed(T, table, round, s)[i] == Cell(T, round, words, c, r);
    CellMeans(T, round, words, c, r);
  }

  lemma CellMeans(T: Tables, round: nat, words: seq<bv32>, c: nat, r: nat)
    requires |words| == 4 && r < 4
    ensures var x, h, l := c * 24 + r * 6, 28 - r * 8, 24 - r * 8;
            var hi := T.xor(round, x + 4, T.xor(round, x, Nibble(words[0], h), Nibble(words[1], h)),
                                          T.xor(round, x + 1, Nibble(words[2], h), Nibble(words[3], h)));
            var lo := T.xor(round, x + 5, T.xor(round, x + 2, Nibble(words[0], l), Nibble(words[1], l)),
                                          T.xor(round, x + 3, Nibble(words[2], l), Nibble(words[3], l)));
      Cell(T, round, words, c, r) == (hi as int) * 16 + (lo as int)
  {
  }

  /** A block is permuted, mixed with both tables, permuted again and substituted byte by byte; the
      tables are those of round zero. */
  lemma EncryptAt(T: Tables, block: Block, i: nat)
    requires i < 16
    ensures 5 * i % 16 < 16
    ensures Encrypt(T, block)[i]
         == T.last(i, Mixed(T, T.second, 0, Mixed(T, T.first, 0, Permuted(block)))[5 * i % 16])
  {
    PermutedAt(Mixed(T, T.second, 0, Mixed(T, T.first, 0, Permuted(block))), i);
  }

  // ---- how far a byte reaches ---------------------------------------------------------------------

  /** Two states agree on a column. */
  predicate SameColumn(a: Block, b: Block, col: nat)
    requires col < 4
  {
    forall i | 4 * col <= i < 4 * col + 4 :: a[i] == b[i]
  }

  lemma MixKeepsColumns(T: Tables, table: (nat, nat, Byte) -> bv32, r: nat, a: Block, b: Block, col: nat)
    requires col < 4 && SameColumn(a, b, col)
    ensures SameColumn(Mixed(T, table, r, a), Mixed(T, table, r, b), col)
  {
    assert Words(table, r, a, col) == Words(table, r, b, col);
    forall i | 4 * col <= i < 4 * col + 4 ensures MixedAt(T, table, r, a, i) == MixedAt(T, table, r, b, i) {
      assert i / 4 == col;
    }
  }

  /** Output byte i depends on only four input bytes: those that the permutation brings into the
      column that byte i is taken from. */
  lemma OutputSeesFourBytes(T: Tables, a: Block, b: Block, i: nat)
    requires i < 16
    requires SameColumn(Permuted(a), Permuted(b), PERM[i] / 4)
    ensures Encrypt(T, a)[i] == Encrypt(T, b)[i]
  {
    var p, q := Permuted(a), Permuted(b);
    MixKeepsColumns(T, T.first, 0, p, q, PERM[i] / 4);
    MixKeepsColumns(T, T.second, 0, Mixed(T, T.first, 0, p), Mixed(T, T.first, 0, q), PERM[i] / 4);
  }

  // ---- the loops ----------------------------------------------------------------------------------

  method PermuteState(state: Block) returns (r: seq<Byte>)
    ensures r == Permuted(state)
  {
    PermInRange();
    r := [];
    for i := 0 to 16
      invariant r == Permuted(state)[..i]
    {
      r := r + [state[PERM[i]]];
    }
  }

  /** Column by column, row by row. */
  method FillColumns(cell: (nat, nat) -> Byte) returns (mixed: array<Byte>)
    ensures fresh(mixed) && mixed.Length == 16
    ensures forall i | 0 <= i < 16 :: mixed[i] == cell(i / 4, i % 4)
  {
    mixed := new Byte[16];
    for col := 0 to 4
      invariant forall i | 0 <= i < col * 4 :: mixed[i] == cell(i / 4, i % 4)
    {
      for row := 0 to 4
        invariant forall i | 0 <= i < col * 4 + row :: mixed[i] == cell(i / 4, i % 4)
      {
        assert (col * 4 + row) / 4 == col && (col * 4 + row) % 4 == row;
        mixed[col * 4 + row] := cell(col, row);
      }
    }
  }

  method MixColumns(T: Tables, table: (nat, nat, Byte) -> bv32, r: nat, state: Block) returns (mixed: array<Byte>)
    ensures fresh(mixed) && mixed.Length == 16 && mixed[..] == Mixed(T, table, r, state)
  {
    mixed := FillColumns((col: nat, row: nat) =>
      if col < 4 && row < 4 then Cell(T, r, Words(table, r, state, col), col, row) else 0);
    assert forall i | 0 <= i < 16 :: mixed[i] == MixedAt(T, table, r, state, i);
  }

  method Substitute(T: Tables, state: Block) returns (out: array<Byte>)
    ensures fresh(out) && out.Length == 16 && out[..] == Substituted(T, state)
  {
    out := new Byte[16];
    for i := 0 to 16
      invariant forall k | 0 <= k < i :: out[k] == LastAt(T, k, state[k])
    {
      out[i] := LastAt(T, i, state[i]);
    }
  }

  /** One full round: mix with one table, then with the other. */
  method Round(T: Tables, r: nat, state: Block) returns (mixed: Block)
    ensures mixed == Mixed(T, T.second, r, Mixed(T, T.first, r, state))
  {
    var mid := MixColumns(T, T.first, r, state);
    var last := MixColumns(T, T.second, r, mid[..]);
    mixed := last[..];
  }

  /** `whitebox_encrypt_block`: the second of its two rounds stops after the permutation. */
  method EncryptBlock(T: Tables, block: Block) returns (r: Block)
    ensures r == Encrypt(T, block)
  {
    var state := PermuteState(block);
    var mixed := Round(T, 0, state);
    state := PermuteState(mixed);
    var out := Substitute(T, state);
    r := out[..];
  }
}
