/** The one-round, keyless variant of DES that obfuscates GRF files (des.c). Bit numbers in the
    tables count from 1, the most significant bit of the first byte. */
module Des {
  type Block = b: seq<bv8> | |b| == 8 witness [0, 0, 0, 0, 0, 0, 0, 0]

  // ---------- Tables ----------

  function Mask(k: nat): bv8
    requires k < 8
  {
    match k
    case 0 => 0x80 case 1 => 0x40 case 2 => 0x20 case 3 => 0x10
    case 4 => 0x08 case 5 => 0x04 case 6 => 0x02 case _ => 0x01
  }

  // Initial permutation.
  function IpTable(i: nat): (j: nat)
    requires i < 64
    ensures 1 <= j <= 64
  {
    match i
    case 0 => 58 case 1 => 50 case 2 => 42 case 3 => 34 case 4 => 26 case 5 => 18 case 6 => 10 case 7 => 2
    case 8 => 60 case 9 => 52 case 10 => 44 case 11 => 36 case 12 => 28 case 13 => 20 case 14 => 12 case 15 => 4
    case 16 => 62 case 17 => 54 case 18 => 46 case 19 => 38 case 20 => 30 case 21 => 22 case 22 => 14 case 23 => 6
    case 24 => 64 case 25 => 56 case 26 => 48 case 27 => 40 case 28 => 32 case 29 => 24 case 30 => 16 case 31 => 8
    case 32 => 57 case 33 => 49 case 34 => 41 case 35 => 33 case 36 => 25 case 37 => 17 case 38 => 9 case 39 => 1
    case 40 => 59 case 41 => 51 case 42 => 43 case 43 => 35 case 44 => 27 case 45 => 19 case 46 => 11 case 47 => 3
    case 48 => 61 case 49 => 53 case 50 => 45 case 51 => 37 case 52 => 29 case 53 => 21 case 54 => 13 case 55 => 5
    case 56 => 63 case 57 => 55 case 58 => 47 case 59 => 39 case 60 => 31 case 61 => 23 case 62 => 15 case _ => 7
  }

  // Final permutation.
  function FpTable(i: nat): (j: nat)
    requires i < 64
    ensures 1 <= j <= 64
  {
    match i
    case 0 => 40 case 1 => 8 case 2 => 48 case 3 => 16 case 4 => 56 case 5 => 24 case 6 => 64 case 7 => 32
    case 8 => 39 case 9 => 7 case 10 => 47 case 11 => 15 case 12 => 55 case 13 => 23 case 14 => 63 case 15 => 31
    case 16 => 38 case 17 => 6 case 18 => 46 case 19 => 14 case 20 => 54 case 21 => 22 case 22 => 62 case 23 => 30
    case 24 => 37 case 25 => 5 case 26 => 45 case 27 => 13 case 28 => 53 case 29 => 21 case 30 => 61 case 31 => 29
    case 32 => 36 case 33 => 4 case 34 => 44 case 35 => 12 case 36 => 52 case 37 => 20 case 38 => 60 case 39 => 28
    case 40 => 35 case 41 => 3 case 42 => 43 case 43 => 11 case 44 => 51 case 45 => 19 case 46 => 59 case 47 => 27
    case 48 => 34 case 49 => 2 case 50 => 42 case 51 => 10 case 52 => 50 case 53 => 18 case 54 => 58 case 55 => 26
    case 56 => 33 case 57 => 1 case 58 => 41 case 59 => 9 case 60 => 49 case 61 => 17 case 62 => 57 case _ => 25
  }

  // Expansion of 32 bits to eight groups of six.
  function ExpandTable(i: nat): (j: nat)
    requires i < 48
    ensures 1 <= j <= 32
  {
    match i
    case 0 => 32 case 1 => 1 case 2 => 2 case 3 => 3 case 4 => 4 case 5 => 5
    case 6 => 4 case 7 => 5 case 8 => 6 case 9 => 7 case 10 => 8 case 11 => 9
    case 12 => 8 case 13 => 9 case 14 => 10 case 15 => 11 case 16 => 12 case 17 => 13
    case 18 => 12 case 19 => 13 case 20 => 14 case 21 => 15 case 22 => 16 case 23 => 17
    case 24 => 16 case 25 => 17 case 26 => 18 case 27 => 19 case 28 => 20 case 29 => 21
    case 30 => 20 case 31 => 21 case 32 => 22 case 33 => 23 case 34 => 24 case 35 => 25
    case 36 => 24 case 37 => 25 case 38 => 26 case 39 => 27 case 40 => 28 case 41 => 29
    case 42 => 28 case 43 => 29 case 44 => 30 case 45 => 31 case 46 => 32 case _ => 1
  }

  // Transposition.
  function TpTable(i: nat): (j: nat)
    requires i < 32
    ensures 1 <= j <= 32
  {
    match i
    case 0 => 16 case 1 => 7 case 2 => 20 case 3 => 21 case 4 => 29 case 5 => 12 case 6 => 28 case 7 => 17
    case 8 => 1 case 9 => 15 case 10 => 23 case 11 => 26 case 12 => 5 case 13 => 18 case 14 => 31 case 15 => 10
    case 16 => 2 case 17 => 8 case 18 => 24 case 19 => 14 case 20 => 32 case 21 => 27 case 22 => 3 case 23 => 9
    case 24 => 19 case 25 => 13 case 26 => 30 case 27 => 6 case 28 => 22 case 29 => 11 case 30 => 4 case _ => 25
  }

  // Substitution boxes, two of the standard's boxes in one: each serves one nibble.
  const S_TABLE: seq<seq<bv8>> := [
    [
      0xef, 0x03, 0x41, 0xfd, 0xd8, 0x74, 0x1e, 0x47, 0x26, 0xef, 0xfb, 0x22, 0xb3, 0xd8, 0x84, 0x1e,
      0x39, 0xac, 0xa7, 0x60, 0x62, 0xc1, 0xcd, 0xba, 0x5c, 0x96, 0x90, 0x59, 0x05, 0x3b, 0x7a, 0x85,
      0x40, 0xfd, 0x1e, 0xc8, 0xe7, 0x8a, 0x8b, 0x21, 0xda, 0x43, 0x64, 0x9f, 0x2d, 0x14, 0xb1, 0x72,
      0xf5, 0x5b, 0xc8, 0xb6, 0x9c, 0x37, 0x76, 0xec, 0x39, 0xa0, 0xa3, 0x05, 0x52, 0x6e, 0x0f, 0xd9
    ], [
      0xa7, 0xdd, 0x0d, 0x78, 0x9e, 0x0b, 0xe3, 0x95, 0x60, 0x36, 0x36, 0x4f, 0xf9, 0x60, 0x5a, 0xa3,
      0x11, 0x24, 0xd2, 0x87, 0xc8, 0x52, 0x75, 0xec, 0xbb, 0xc1, 0x4c, 0xba, 0x24, 0xfe, 0x8f, 0x19,
      0xda, 0x13, 0x66, 0xaf, 0x49, 0xd0, 0x90, 0x06, 0x8c, 0x6a, 0xfb, 0x91, 0x37, 0x8d, 0x0d, 0x78,
      0xbf, 0x49, 0x11, 0xf4, 0x23, 0xe5, 0xce, 0x3b, 0x55, 0xbc, 0xa2, 0x57, 0xe8, 0x22, 0x74, 0xce
    ], [
      0x2c, 0xea, 0xc1, 0xbf, 0x4a, 0x24, 0x1f, 0xc2, 0x79, 0x47, 0xa2, 0x7c, 0xb6, 0xd9, 0x68, 0x15,
      0x80, 0x56, 0x5d, 0x01, 0x33, 0xfd, 0xf4, 0xae, 0xde, 0x30, 0x07, 0x9b, 0xe5, 0x83, 0x9b, 0x68,
      0x49, 0xb4, 0x2e, 0x83, 0x1f, 0xc2, 0xb5, 0x7c, 0xa2, 0x19, 0xd8, 0xe5, 0x7c, 0x2f, 0x83, 0xda,
      0xf7, 0x6b, 0x90, 0xfe, 0xc4, 0x01, 0x5a, 0x97, 0x61, 0xa6, 0x3d, 0x40, 0x0b, 0x58, 0xe6, 0x3d
    ], [
      0x4d, 0xd1, 0xb2, 0x0f, 0x28, 0xbd, 0xe4, 0x78, 0xf6, 0x4a, 0x0f, 0x93, 0x8b, 0x17, 0xd1, 0xa4,
      0x3a, 0xec, 0xc9, 0x35, 0x93, 0x56, 0x7e, 0xcb, 0x55, 0x20, 0xa0, 0xfe, 0x6c, 0x89, 0x17, 0x62,
      0x17, 0x62, 0x4b, 0xb1, 0xb4, 0xde, 0xd1, 0x87, 0xc9, 0x14, 0x3c, 0x4a, 0x7e, 0xa8, 0xe2, 0x7d,
      0xa0, 0x9f, 0xf6, 0x5c, 0x6a, 0x09, 0x8d, 0xf0, 0x0f, 0xe3, 0x53, 0x25, 0x95, 0x36, 0x28, 0xcb
    ]]

  // ---------- Blocks as bits ----------

  // Whether x has bit k, counted from the most significant one.
  predicate Has(x: bv8, k: nat)
    requires k < 8
  {
    x & Mask(k) != 0
  }

  predicate Bit(b: Block, i: nat)
    requires i < 64
  {
    Has(b[i / 8], i % 8)
  }

  function PackByte(w: seq<bool>): bv8
    requires |w| == 8
  {
    (if w[0] then 0x80 else 0) | (if w[1] then 0x40 else 0) | (if w[2] then 0x20 else 0) | (if w[3] then 0x10 else 0)
    | (if w[4] then 0x08 else 0) | (if w[5] then 0x04 else 0) | (if w[6] then 0x02 else 0) | (if w[7] then 0x01 else 0)
  }

  // The block with the given 64 bits.
  function Pack(w: seq<bool>): Block
    requires |w| == 64
  {
    [PackByte(w[0..8]), PackByte(w[8..16]), PackByte(w[16..24]), PackByte(w[24..32]),
     PackByte(w[32..40]), PackByte(w[40..48]), PackByte(w[48..56]), PackByte(w[56..64])]
  }

  lemma PackedByteBit(w: seq<bool>, k: nat)
    requires |w| == 8 && k < 8
    ensures Has(PackByte(w), k) <==> w[k]
  {
    hide Mask;
    MaskIs(k);
  }

  lemma MaskIs(k: nat)
    requires k < 8
    ensures Mask(k) == [0x80, 0x40, 0x20, 0x10, 0x08, 0x04, 0x02, 0x01][k]
  {
  }

  lemma PackedBit(w: seq<bool>, i: nat)
    requires |w| == 64 && i < 64
    ensures Bit(Pack(w), i) == w[i]
  {
    hide PackByte, Has;
    PackedByteBit(w[i / 8 * 8..i / 8 * 8 + 8], i % 8);
  }

  lemma SameByte(x: bv8, y: bv8)
    requires forall k: nat | k < 8 :: Has(x, k) == Has(y, k)
    ensures x == y
  {
    assert Has(x, 0) == Has(y, 0) && Has(x, 1) == Has(y, 1) && Has(x, 2) == Has(y, 2) && Has(x, 3) == Has(y, 3);
    assert Has(x, 4) == Has(y, 4) && Has(x, 5) == Has(y, 5) && Has(x, 6) == Has(y, 6) && Has(x, 7) == Has(y, 7);
  }

  // A block is determined by its bits.
  lemma SameBits(a: Block, b: Block)
    requires forall i: nat | i < 64 :: Bit(a, i) == Bit(b, i)
    ensures a == b
  {
    hide Has;
    forall n: nat | n < 8 ensures a[n] == b[n] {
      forall k: nat | k < 8 ensures Has(a[n], k) == Has(b[n], k) {
        assert Bit(a, 8 * n + k) == Bit(b, 8 * n + k);
      }
      SameByte(a[n], b[n]);
    }
  }

  // ---------- What each stage computes ----------

  function IpBits(b: Block): (w: seq<bool>)
    ensures |w| == 64
  {
    seq(64, i requires 0 <= i < 64 => Bit(b, IpTable(i) - 1))
  }

  function FpBits(b: Block): (w: seq<bool>)
    ensures |w| == 64
  {
    seq(64, i requires 0 <= i < 64 => Bit(b, FpTable(i) - 1))
  }

  // The right half, transposed, and nothing in the left half.
  function TpBits(b: Block): (w: seq<bool>)
    ensures |w| == 64
  {
    seq(64, i requires 0 <= i < 64 => i >= 32 && Bit(b, TpTable(i - 32) - 1))
  }

  // Bit k of group n in the expansion of the right half.
  predicate ExpandedBit(b: Block, n: nat, k: nat)
    requires n < 8 && k < 6
  {
    Bit(b, 31 + ExpandTable(6 * n + k))
  }

  // Group n of the expansion as a number below 64.
  function Sextet(b: Block, n: nat): bv8
    requires n < 8
  {
    PackByte([false, false, ExpandedBit(b, n, 0), ExpandedBit(b, n, 1), ExpandedBit(b, n, 2),
              ExpandedBit(b, n, 3), ExpandedBit(b, n, 4), ExpandedBit(b, n, 5)])
  }

  function Expanded(b: Block): Block { seq(8, n requires 0 <= n < 8 => Sextet(b, n)) }

  // What the disabled branch of the source computes: the same groups in the high bits.
  function HighSextet(b: Block, n: nat): bv8
    requires n < 8
  {
    PackByte([ExpandedBit(b, n, 0), ExpandedBit(b, n, 1), ExpandedBit(b, n, 2),
              ExpandedBit(b, n, 3), ExpandedBit(b, n, 4), ExpandedBit(b, n, 5), false, false])
  }

  // Bit by bit: six bits of every byte.
  function HighBits(b: Block): (w: seq<bool>)
    ensures |w| == 64
  {
    seq(64, i requires 0 <= i < 64 => i % 8 < 6 && ExpandedBit(b, i / 8, i % 8))
  }

  lemma HighBitsAre(b: Block, n: nat)
    requires n < 8
    ensures Pack(HighBits(b))[n] == HighSextet(b, n)
  {
    hide ExpandedBit, PackByte;
    var w := HighBits(b);
    assert w[8 * n..8 * n + 8]
        == [ExpandedBit(b, n, 0), ExpandedBit(b, n, 1), ExpandedBit(b, n, 2),
            ExpandedBit(b, n, 3), ExpandedBit(b, n, 4), ExpandedBit(b, n, 5), false, false];
  }

  lemma BranchesDifferByAShift(b: Block, n: nat)
    requires n < 8
    ensures HighSextet(b, n) == Sextet(b, n) << 2
    ensures HighSextet(b, n) >> 2 == Sextet(b, n)
  {
    hide ExpandedBit;
  }

  // Byte n of the expansion as the source computes it, from the byte before, c, and the byte d.
  function OddSlot(c: bv8, d: bv8): bv8 { ((c << 5) | (d >> 3)) & 0x3f }

  function EvenSlot(c: bv8, d: bv8): bv8 { ((c << 1) | (d >> 7)) & 0x3f }

  predicate Indices(b: Block) { forall n: nat | n < 8 :: b[n] < 64 }

  function SBox(n: nat, x: bv8): bv8
    requires n < 4 && x < 64
  {
    S_TABLE[n][x as nat]
  }

  // Two groups make one byte, a nibble each.
  function Nibbles(n: nat, x: bv8, y: bv8): bv8
    requires n < 4 && x < 64 && y < 64
  {
    (SBox(n, x) & 0xf0) | (SBox(n, y) & 0x0f)
  }

  function Substituted(b: Block): Block
    requires Indices(b)
  {
    [Nibbles(0, b[0], b[1]), Nibbles(1, b[2], b[3]), Nibbles(2, b[4], b[5]), Nibbles(3, b[6], b[7]), 0, 0, 0, 0]
  }

  lemma SextetIsIndex(b: Block, n: nat)
    requires n < 8
    ensures Sextet(b, n) < 64
  {
    hide ExpandedBit;
  }

  // The cipher function: what the round adds to the left half.
  function Cipher(b: Block): Block
  {
    ExpandedIsIndices(b);
    Pack(TpBits(Substituted(Expanded(b))))
  }

  lemma ExpandedIsIndices(b: Block)
    ensures Indices(Expanded(b))
  {
    hide Sextet;
    forall n: nat | n < 8 ensures Expanded(b)[n] < 64 { SextetIsIndex(b, n); }
  }

  function Xor(x: bv8, y: bv8): bv8 { x ^ y }

  function Mixed(b: Block, t: Block): Block
  {
    [Xor(b[0], t[4]), Xor(b[1], t[5]), Xor(b[2], t[6]), Xor(b[3], t[7]), b[4], b[5], b[6], b[7]]
  }

  function Round(b: Block): Block { Mixed(b, Cipher(b)) }

  function Decrypted(b: Block): Block { Pack(FpBits(Round(Pack(IpBits(b))))) }

  // ---------- The cipher undoes itself ----------

  // The tables read columns of every other bit, from the bottom up.
  lemma IpTableIs(r: nat, c: nat)
    requires r < 8 && c < 8
    ensures IpTable(8 * r + c) == 58 - 8 * c + 2 * r - (if r >= 4 then 9 else 0)
  {
    hide IpTable;
    if r < 4 { IpTableLow(r, c); } else { IpTableHigh(r, c); }
  }

  lemma IpTableLow(r: nat, c: nat)
    requires r < 4 && c < 8
    ensures IpTable(8 * r + c) == 58 - 8 * c + 2 * r
  {
  }

  lemma IpTableHigh(r: nat, c: nat)
    requires 4 <= r < 8 && c < 8
    ensures IpTable(8 * r + c) == 58 - 8 * c + 2 * r - 9
  {
  }

  lemma FpTableIs(r: nat, c: nat)
    requires r < 8 && c < 8
    ensures FpTable(8 * r + c) == 4 * c + (if c % 2 == 0 then 40 else 4) - r
  {
    hide FpTable;
    if r < 4 { FpTableLow(r, c); } else { FpTableHigh(r, c); }
  }

  lemma FpTableLow(r: nat, c: nat)
    requires r < 4 && c < 8
    ensures FpTable(8 * r + c) == 4 * c + (if c % 2 == 0 then 40 else 4) - r
  {
  }

  lemma FpTableHigh(r: nat, c: nat)
    requires 4 <= r < 8 && c < 8
    ensures FpTable(8 * r + c) == 4 * c + (if c % 2 == 0 then 40 else 4) - r
  {
  }

  lemma TablesInverse(i: nat)
    requires i < 64
    ensures IpTable(FpTable(i) - 1) == i + 1 && FpTable(IpTable(i) - 1) == i + 1
  {
    hide IpTable, FpTable;
    var r, c := i / 8, i % 8;
    IpTableIs(r, c);
    FpTableIs(r, c);
    IpTableIs(if c % 2 == 0 then 4 + c / 2 else c / 2, 7 - r);
    FpTableIs(7 - c, if r < 4 then 2 * r + 1 else 2 * r - 8);
  }

  lemma PermutationsInverse(b: Block)
    ensures Pack(FpBits(Pack(IpBits(b)))) == b
    ensures Pack(IpBits(Pack(FpBits(b)))) == b
  {
    hide Bit, Pack, IpTable, FpTable;
    forall i: nat | i < 64
      ensures Bit(Pack(FpBits(Pack(IpBits(b)))), i) == Bit(b, i)
      ensures Bit(Pack(IpBits(Pack(FpBits(b)))), i) == Bit(b, i)
    {
      TablesInverse(i);
      PackedBit(FpBits(Pack(IpBits(b))), i);
      PackedBit(IpBits(b), FpTable(i) - 1);
      PackedBit(IpBits(Pack(FpBits(b))), i);
      PackedBit(FpBits(b), IpTable(i) - 1);
    }
    SameBits(Pack(FpBits(Pack(IpBits(b)))), b);
    SameBits(Pack(IpBits(Pack(FpBits(b)))), b);
  }

  // The cipher function reads the right half only.
  lemma CipherReadsRight(a: Block, b: Block)
    requires a[4..] == b[4..]
    ensures Cipher(a) == Cipher(b)
  {
    forall n: nat | n < 8 ensures Sextet(a, n) == Sextet(b, n) { SextetReadsRight(a, b, n); }
    hide Sextet;
    assert Expanded(a) == Expanded(b);
  }

  lemma SextetReadsRight(a: Block, b: Block, n: nat)
    requires a[4..] == b[4..] && n < 8
    ensures Sextet(a, n) == Sextet(b, n)
  {
    hide PackByte, Has, ExpandTable;
    forall i: nat | 32 <= i < 64 ensures Bit(a, i) == Bit(b, i) {
      assert a[i / 8] == a[4..][i / 8 - 4] && b[i / 8] == b[4..][i / 8 - 4];
    }
  }

  lemma XorTwice(x: bv8, y: bv8)
    ensures Xor(Xor(x, y), y) == x
  {
  }

  lemma RoundUndoesItself(b: Block)
    ensures Round(Round(b)) == b
  {
    hide Cipher, Xor;
    var r := Round(b);
    var t := Cipher(b);
    assert r[4..] == b[4..];
    CipherReadsRight(r, b);
    XorTwice(b[0], t[4]);
    XorTwice(b[1], t[5]);
    XorTwice(b[2], t[6]);
    XorTwice(b[3], t[7]);
  }

  // Deciphering a block twice gives it back: the cipher is its own inverse.
  lemma DecryptIsInvolution(b: Block)
    ensures Decrypted(Decrypted(b)) == b
  {
    hide Pack, IpBits, FpBits, Round;
    var p := Pack(IpBits(b));
    PermutationsInverse(Round(p));
    RoundUndoesItself(p);
    PermutationsInverse(b);
  }

  // ---------- The stages in place ----------

  // The first i bits of t are those of w, the others are clear.
  ghost predicate BitsUpTo(t: Block, i: nat, w: seq<bool>)
    requires |w| == 64
  {
    forall k: nat | k < 64 :: Bit(t, k) == (k < i && w[k])
  }

  function WithBit(t: Block, i: nat): Block
    requires i < 64
  {
    t[i / 8 := t[i / 8] | Mask(i % 8)]
  }

  lemma MaskSets(x: bv8, j: nat, k: nat)
    requires j < 8 && k < 8
    ensures Has(x | Mask(j), k) <==> j == k || Has(x, k)
  {
  }

  lemma WithBitIs(t: Block, i: nat, k: nat)
    requires i < 64 && k < 64
    ensures Bit(WithBit(t, i), k) == (i == k || Bit(t, k))
  {
    hide Has, Mask;
    MaskSets(t[i / 8], i % 8, k % 8);
  }

  lemma BitStep(t: Block, i: nat, w: seq<bool>)
    requires |w| == 64 && i < 64 && BitsUpTo(t, i, w)
    ensures BitsUpTo(if w[i] then WithBit(t, i) else t, i + 1, w)
  {
    hide Bit, WithBit;
    forall k: nat | k < 64 ensures Bit(WithBit(t, i), k) == (i == k || Bit(t, k)) { WithBitIs(t, i, k); }
  }

  lemma BitsDone(t: Block, w: seq<bool>)
    requires |w| == 64 && BitsUpTo(t, 64, w)
    ensures t == Pack(w)
  {
    hide Bit, Pack;
    forall i: nat | i < 64 ensures Bit(t, i) == Bit(Pack(w), i) { PackedBit(w, i); }
    SameBits(t, Pack(w));
  }

  lemma NoBits(w: seq<bool>)
    requires |w| == 64
    ensures BitsUpTo([0, 0, 0, 0, 0, 0, 0, 0], 0, w)
  {
  }

  // The block at an offset of a buffer.
  ghost function BlockAt(buf: array<bv8>, at: nat): Block
    requires at + 8 <= buf.Length
    reads buf
  {
    buf[at..at + 8]
  }

  method Store(buf: array<bv8>, at: nat, b: array<bv8>)
    requires b.Length == 8 && at + 8 <= buf.Length && b != buf
    modifies buf
    ensures buf[..] == old(buf[..at]) + b[..] + old(buf[at + 8..])
  {
    forall k | 0 <= k < 8 {
      buf[at + k] := b[k];
    }
  }

  // Bit i of dst is set when bit j of the block in src is.
  method CopyBit(src: array<bv8>, at: nat, j: nat, dst: array<bv8>, i: nat)
    requires at + 8 <= src.Length && dst.Length == 8 && dst != src && i < 64 && j < 64
    modifies dst
    ensures dst[..] == if Bit(BlockAt(src, at), j) then WithBit(old(dst[..]), i) else old(dst[..])
  {
    hide Mask, Has;
    if Has(src[at + j / 8], j % 8) {
      dst[i / 8] := dst[i / 8] | Mask(i % 8);
    }
  }

  method IP(buf: array<bv8>, at: nat)
    requires at + 8 <= buf.Length
    modifies buf
    ensures buf[..] == old(buf[..at]) + Pack(IpBits(old(BlockAt(buf, at)))) + old(buf[at + 8..])
  {
    hide Bit, WithBit, IpTable, Pack;
    ghost var w := IpBits(BlockAt(buf, at));
    var tmp := Zero();
    NoBits(w);
    var i := 0;
    while i < 64
      invariant 0 <= i <= 64 && buf[..] == old(buf[..])
      invariant BitsUpTo(tmp[..], i, w)
    {
      BitStep(tmp[..], i, w);
      CopyBit(buf, at, IpTable(i) - 1, tmp, i);
      i := i + 1;
    }
    BitsDone(tmp[..], w);
    Store(buf, at, tmp);
  }

  method FP(buf: array<bv8>, at: nat)
    requires at + 8 <= buf.Length
    modifies buf
    ensures buf[..] == old(buf[..at]) + Pack(FpBits(old(BlockAt(buf, at)))) + old(buf[at + 8..])
  {
    hide Bit, WithBit, FpTable, Pack;
    ghost var w := FpBits(BlockAt(buf, at));
    var tmp := Zero();
    NoBits(w);
    var i := 0;
    while i < 64
      invariant 0 <= i <= 64 && buf[..] == old(buf[..])
      invariant BitsUpTo(tmp[..], i, w)
    {
      BitStep(tmp[..], i, w);
      CopyBit(buf, at, FpTable(i) - 1, tmp, i);
      i := i + 1;
    }
    BitsDone(tmp[..], w);
    Store(buf, at, tmp);
  }

  // The expansion by shifts, as the source computes it; src holds one block.
  method E(src: array<bv8>)
    requires src.Length == 8
    modifies src
    ensures src[..] == Expanded(old(src[..]))
  {
    hide OddSlot, EvenSlot, Sextet;
    ghost var b := src[..];
    OddSlots(b, 0);
    EvenSlots(b, 0);
    OddSlots(b, 1);
    EvenSlots(b, 1);
    OddSlots(b, 2);
    EvenSlots(b, 2);
    OddSlots(b, 3);
    EvenSlots(b, 3);
    src[0], src[1], src[2], src[3], src[4], src[5], src[6], src[7] :=
      OddSlot(src[7], src[4]), EvenSlot(src[4], src[5]), OddSlot(src[4], src[5]), EvenSlot(src[5], src[6]),
      OddSlot(src[5], src[6]), EvenSlot(src[6], src[7]), OddSlot(src[6], src[7]), EvenSlot(src[7], src[4]);
  }

  // The disabled branch of E: the loop over the table.
  method EByTable(src: array<bv8>)
    requires src.Length == 8
    modifies src
    ensures forall n: nat | n < 8 :: src[n] == HighSextet(old(src[..]), n)
  {
    hide Bit, WithBit, ExpandTable, Pack, HighSextet, HighBits, HighPlace, BitsUpTo;
    ghost var b := src[..];
    assert BlockAt(src, 0) == b;
    ghost var w := HighBits(b);
    var tmp := Zero();
    NoBits(w);
    var i := 0;
    HighPlaceEnds();
    while i < 48
      invariant 0 <= i <= 48 && src[..] == b && BlockAt(src, 0) == b
      invariant BitsUpTo(tmp[..], HighPlace(i), w)
    {
      HighStep(tmp[..], b, i);
      CopyBit(src, 0, 31 + ExpandTable(i), tmp, HighPlace(i));
      assert BlockAt(src, 0) == src[..];
      i := i + 1;
    }
    BitsDone(tmp[..], w);
    Store(src, 0, tmp);
    forall n: nat | n < 8 ensures src[n] == HighSextet(b, n) { HighBitsAre(b, n); }
  }

  // Where bit i of the table goes.
  function HighPlace(i: nat): nat { i / 6 * 8 + i % 6 }

  lemma HighPlaceEnds()
    ensures HighPlace(0) == 0 && HighPlace(48) == 64
  {
  }

  lemma HighStep(t: Block, b: Block, i: nat)
    requires i < 48 && BitsUpTo(t, HighPlace(i), HighBits(b))
    ensures HighPlace(i) < 64
    ensures BitsUpTo(if Bit(b, 31 + ExpandTable(i)) then WithBit(t, HighPlace(i)) else t, HighPlace(i + 1), HighBits(b))
  {
    hide WithBit, BitsUpTo, HighBits, HighPlace, Bit, ExpandTable;
    var k, w := HighPlace(i), HighBits(b);
    TableBit(b, i);
    BitStep(t, k, w);
    HighPlaceNext(i);
    if HighPlace(i + 1) == k + 3 {
      ClearBits(b, i);
      TwoMore(if w[k] then WithBit(t, k) else t, k + 1, w);
    }
  }

  lemma HighPlaceNext(i: nat)
    ensures HighPlace(i + 1) == HighPlace(i) + if i % 6 == 5 then 3 else 1
  {
  }

  lemma TableBit(b: Block, i: nat)
    requires i < 48
    ensures HighPlace(i) < 64 && HighBits(b)[HighPlace(i)] == Bit(b, 31 + ExpandTable(i))
  {
    hide ExpandTable, Bit;
    var k := HighPlace(i);
    assert k / 8 == i / 6 && k % 8 == i % 6 && 6 * (i / 6) + i % 6 == i;
  }

  lemma ClearBits(b: Block, i: nat)
    requires i < 48 && HighPlace(i + 1) == HighPlace(i) + 3
    ensures var k := HighPlace(i); k + 3 <= 64 && !HighBits(b)[k + 1] && !HighBits(b)[k + 2]
  {
    hide ExpandedBit;
    HighPlaceNext(i);
    var k := HighPlace(i);
    assert (k + 1) % 8 == 6 && (k + 2) % 8 == 7;
  }

  // The two low bits of a byte stay clear.
  lemma TwoMore(t: Block, k: nat, w: seq<bool>)
    requires |w| == 64 && k + 2 <= 64 && BitsUpTo(t, k, w) && !w[k] && !w[k + 1]
    ensures BitsUpTo(t, k + 2, w)
  {
    hide Bit;
  }

  // Group n begins with the bit before the four that are its own, and ends with the bit after.
  lemma ExpandTableIs(n: nat, k: nat)
    requires n < 8 && k < 6
    ensures ExpandTable(6 * n + k) == if n == 0 && k == 0 then 32 else if n == 7 && k == 5 then 1 else 4 * n + k
  {
  }

  lemma ExpandedBitIs(b: Block, n: nat, k: nat, i: nat, j: nat)
    requires n < 8 && k < 6 && i < 4 && j < 8
    requires 8 * i + j + 1 == if n == 0 && k == 0 then 32 else if n == 7 && k == 5 then 1 else 4 * n + k
    ensures ExpandedBit(b, n, k) == Has(b[4 + i], j)
  {
    hide ExpandTable, Has;
    ExpandTableIs(n, k);
    assert 31 + ExpandTable(6 * n + k) == 8 * (4 + i) + j;
  }

  lemma OddSlots(b: Block, m: nat)
    requires m < 4
    ensures Sextet(b, 2 * m) == OddSlot(b[if m == 0 then 7 else 3 + m], b[4 + m])
  {
    hide Has, ExpandedBit, PackByte, OddSlot;
    var c := if m == 0 then 7 else 3 + m;
    OddByte(b[c], b[4 + m]);
    ExpandedBitIs(b, 2 * m, 0, c - 4, 7);
    ExpandedBitIs(b, 2 * m, 1, m, 0);
    ExpandedBitIs(b, 2 * m, 2, m, 1);
    ExpandedBitIs(b, 2 * m, 3, m, 2);
    ExpandedBitIs(b, 2 * m, 4, m, 3);
    ExpandedBitIs(b, 2 * m, 5, m, 4);
  }

  lemma OddByte(c: bv8, d: bv8)
    ensures OddSlot(c, d) == PackByte([false, false, Has(c, 7), Has(d, 0), Has(d, 1),
                                       Has(d, 2), Has(d, 3), Has(d, 4)])
  {
  }

  lemma EvenSlots(b: Block, m: nat)
    requires m < 4
    ensures Sextet(b, 2 * m + 1) == EvenSlot(b[4 + m], b[if m == 3 then 4 else 5 + m])
  {
    hide Has, ExpandedBit, PackByte, EvenSlot;
    var d := if m == 3 then 4 else 5 + m;
    EvenByte(b[4 + m], b[d]);
    ExpandedBitIs(b, 2 * m + 1, 0, m, 3);
    ExpandedBitIs(b, 2 * m + 1, 1, m, 4);
    ExpandedBitIs(b, 2 * m + 1, 2, m, 5);
    ExpandedBitIs(b, 2 * m + 1, 3, m, 6);
    ExpandedBitIs(b, 2 * m + 1, 4, m, 7);
    ExpandedBitIs(b, 2 * m + 1, 5, d - 4, 0);
  }

  lemma EvenByte(c: bv8, d: bv8)
    ensures EvenSlot(c, d) == PackByte([false, false, Has(c, 3), Has(c, 4), Has(c, 5),
                                        Has(c, 6), Has(c, 7), Has(d, 0)])
  {
  }

  method SBOX(src: array<bv8>)
    requires src.Length == 8 && Indices(src[..])
    modifies src
    ensures src[..] == Substituted(old(src[..]))
  {
    hide Nibbles;
    var tmp := Zero();
    ghost var b := src[..];
    var i := 0;
    while i < 4
      invariant 0 <= i <= 4 && src[..] == b
      invariant forall k | 0 <= k < i :: tmp[k] == Nibbles(k, b[2 * k], b[2 * k + 1])
      invariant forall k | i <= k < 8 :: tmp[k] == 0
    {
      tmp[i] := Nibbles(i, src[2 * i], src[2 * i + 1]);
      i := i + 1;
    }
    assert tmp[..] == Substituted(b);
    hide Substituted;
    Store(src, 0, tmp);
  }

  method TP(src: array<bv8>)
    requires src.Length == 8
    modifies src
    ensures src[..] == Pack(TpBits(old(src[..])))
  {
    hide Bit, WithBit, TpTable, Pack;
    assert BlockAt(src, 0) == src[..];
    ghost var w := TpBits(BlockAt(src, 0));
    var tmp := Zero();
    NoBits(w);
    assert BitsUpTo(tmp[..], 32, w);
    var i := 0;
    while i < 32
      invariant 0 <= i <= 32 && src[..] == old(src[..])
      invariant BitsUpTo(tmp[..], 32 + i, w)
    {
      BitStep(tmp[..], 32 + i, w);
      assert w[32 + i] == Bit(BlockAt(src, 0), TpTable(i) - 1) by { assert src[0..8] == old(src[0..8]); }
      CopyBit(src, 0, TpTable(i) - 1, tmp, 32 + i);
      i := i + 1;
    }
    BitsDone(tmp[..], w);
    Store(src, 0, tmp);
  }

  method RoundFunction(buf: array<bv8>, at: nat)
    requires at + 8 <= buf.Length
    modifies buf
    ensures buf[..] == old(buf[..at]) + Round(old(BlockAt(buf, at))) + old(buf[at + 8..])
  {
    hide Expanded, Substituted, Pack, TpBits, Indices, Mixed;
    var tmp := new bv8[8](i requires 0 <= i < 8 && at + 8 <= buf.Length reads buf => buf[at + i]);
    ghost var b := BlockAt(buf, at);
    assert tmp[..] == b;
    ExpandedIsIndices(b);
    E(tmp);
    SBOX(tmp);
    TP(tmp);
    assert tmp[..] == Cipher(b);
    MixIn(buf, at, tmp);
  }

  method MixIn(buf: array<bv8>, at: nat, tmp: array<bv8>)
    requires at + 8 <= buf.Length && tmp.Length == 8 && tmp != buf
    modifies buf
    ensures buf[..] == old(buf[..at]) + Mixed(old(BlockAt(buf, at)), tmp[..]) + old(buf[at + 8..])
  {
    hide Xor;
    ghost var was := buf[..];
    ghost var m := Mixed(BlockAt(buf, at), tmp[..]);
    var i := 0;
    while i < 4
      invariant 0 <= i <= 4 && tmp[..] == old(tmp[..])
      invariant forall k | 0 <= k < i :: buf[at + k] == m[k]
      invariant forall k | 0 <= k < buf.Length && !(at <= k < at + i) :: buf[k] == was[k]
    {
      buf[at + i] := Xor(buf[at + i], tmp[4 + i]);
      i := i + 1;
    }
    assert buf[at..at + 8] == m;
    assert buf[..at] == was[..at] && buf[at + 8..] == was[at + 8..];
    assert buf[..] == buf[..at] + buf[at..at + 8] + buf[at + 8..];
  }

  method DesDecryptBlock(buf: array<bv8>, at: nat)
    requires at + 8 <= buf.Length
    modifies buf
    ensures buf[..] == old(buf[..at]) + Decrypted(old(BlockAt(buf, at))) + old(buf[at + 8..])
  {
    hide Pack, IpBits, FpBits, Round;
    ghost var b := BlockAt(buf, at);
    ghost var front, back := buf[..at], buf[at + 8..];
    IP(buf, at);
    Parts(buf, at, front, Pack(IpBits(b)), back);
    RoundFunction(buf, at);
    Parts(buf, at, front, Round(Pack(IpBits(b))), back);
    FP(buf, at);
  }

  lemma Parts(buf: array<bv8>, at: nat, front: seq<bv8>, b: Block, back: seq<bv8>)
    requires at + 8 <= buf.Length && |front| == at && buf[..] == front + b + back
    ensures buf[..at] == front && BlockAt(buf, at) == b && buf[at + 8..] == back
  {
    assert buf[..at] == buf[..][..at] && buf[at..at + 8] == buf[..][at..at + 8] && buf[at + 8..] == buf[..][at + 8..];
  }

  method Zero() returns (tmp: array<bv8>)
    ensures fresh(tmp) && tmp.Length == 8 && tmp[..] == [0, 0, 0, 0, 0, 0, 0, 0]
  {
    tmp := new bv8[8](_ => 0);
  }
}
