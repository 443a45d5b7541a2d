/** The obfuscation of entries in GRF archives (grfio.c): which blocks are enciphered, which are
    shuffled, and that the whole can be undone. */
module GrfCipher {
  import opened Des

  // size_t counts modulo this.
  const SIZE: nat := 0x1_0000_0000_0000_0000
  const ENCRYPTED_BLOCKS: nat := 20
  const SHUFFLE_CYCLE: nat := 7

  function Substitution(x: bv8): bv8
  {
    if x == 0x00 then 0x2B
    else if x == 0x2B then 0x00
    else if x == 0x6C then 0x80
    else if x == 0x01 then 0x68
    else if x == 0x68 then 0x01
    else if x == 0x48 then 0x77
    else if x == 0x60 then 0xFF
    else if x == 0x77 then 0x48
    else if x == 0xB9 then 0xC0
    else if x == 0xC0 then 0xB9
    else if x == 0xFE then 0xEB
    else if x == 0xEB then 0xFE
    else if x == 0x80 then 0x6C
    else if x == 0xFF then 0x60
    else x
  }

  lemma SubstitutionIsSymmetric(x: bv8)
    ensures Substitution(Substitution(x)) == x
  {
  }

  // What grf_shuffle_dec computes, and the disabled grf_shuffle_enc.
  function Unshuffled(b: Block): Block { [b[3], b[4], b[6], b[0], b[1], b[2], b[5], Substitution(b[7])] }

  function Shuffled(b: Block): Block { [b[3], b[4], b[5], b[0], b[1], b[6], b[2], Substitution(b[7])] }

  lemma ShufflesInverse(b: Block)
    ensures Shuffled(Unshuffled(b)) == b && Unshuffled(Shuffled(b)) == b
  {
    hide Substitution;
    SubstitutionIsSymmetric(b[7]);
  }

  // ---------- The schedule ----------

  // How an entry is stored: in the clear, with its header enciphered, or throughout.
  datatype Mode = Clear | Header | Full(cycle: nat)

  datatype Action = Decipher | Shuffle | Keep

  // How many of the blocks from the 20th up to i are not deciphered.
  function PlainsBefore(i: nat, cycle: nat): (n: nat)
    requires cycle > 0
    ensures n <= i
  {
    if i <= ENCRYPTED_BLOCKS then 0
    else PlainsBefore(i - 1, cycle) + if (i - 1) % cycle == 0 then 0 else 1
  }

  predicate Proper(m: Mode) { m.Full? ==> m.cycle > 0 }

  function ActionAt(m: Mode, i: nat): Action
    requires Proper(m)
  {
    if m == Clear then Keep
    else if i < ENCRYPTED_BLOCKS then Decipher
    else if m == Header then Keep
    else if i % m.cycle == 0 then Decipher
    else if PlainsBefore(i, m.cycle) % SHUFFLE_CYCLE == 0 && PlainsBefore(i, m.cycle) != 0 then Shuffle
    else Keep
  }

  function Undone(a: Action, b: Block): Block
  {
    match a
    case Decipher => Decrypted(b)
    case Shuffle => Unshuffled(b)
    case Keep => b
  }

  function Done(a: Action, b: Block): Block
  {
    match a
    case Decipher => Decrypted(b)
    case Shuffle => Shuffled(b)
    case Keep => b
  }

  lemma ActionsInverse(a: Action, b: Block)
    ensures Done(a, Undone(a, b)) == b && Undone(a, Done(a, b)) == b
  {
    hide Decrypted, Shuffled, Unshuffled;
    DecryptIsInvolution(b);
    ShufflesInverse(b);
  }

  // ---------- Whole buffers ----------

  function BlockOf(data: seq<bv8>, i: nat): Block
    requires 8 * i + 8 <= |data|
  {
    data[8 * i..8 * i + 8]
  }

  // data with its first n blocks decoded, and with them encoded.
  function Decoded(data: seq<bv8>, m: Mode, n: nat): (r: seq<bv8>)
    requires Proper(m) && 8 * n <= |data|
    ensures |r| == |data|
  {
    seq(|data|, p requires 0 <= p < |data| =>
      if p < 8 * n then Undone(ActionAt(m, p / 8), BlockOf(data, p / 8))[p % 8] else data[p])
  }

  function Encoded(data: seq<bv8>, m: Mode, n: nat): (r: seq<bv8>)
    requires Proper(m) && 8 * n <= |data|
    ensures |r| == |data|
  {
    seq(|data|, p requires 0 <= p < |data| =>
      if p < 8 * n then Done(ActionAt(m, p / 8), BlockOf(data, p / 8))[p % 8] else data[p])
  }

  lemma DecodedBlock(data: seq<bv8>, m: Mode, n: nat, i: nat)
    requires Proper(m) && 8 * n <= |data| && i < n
    ensures BlockOf(Decoded(data, m, n), i) == Undone(ActionAt(m, i), BlockOf(data, i))
  {
    hide Undone, ActionAt;
    var b := Undone(ActionAt(m, i), BlockOf(data, i));
    forall k | 0 <= k < 8 ensures Decoded(data, m, n)[8 * i + k] == b[k] {
      assert (8 * i + k) / 8 == i && (8 * i + k) % 8 == k;
    }
  }

  lemma EncodedBlock(data: seq<bv8>, m: Mode, n: nat, i: nat)
    requires Proper(m) && 8 * n <= |data| && i < n
    ensures BlockOf(Encoded(data, m, n), i) == Done(ActionAt(m, i), BlockOf(data, i))
  {
    hide Done, ActionAt;
    var b := Done(ActionAt(m, i), BlockOf(data, i));
    forall k | 0 <= k < 8 ensures Encoded(data, m, n)[8 * i + k] == b[k] {
      assert (8 * i + k) / 8 == i && (8 * i + k) % 8 == k;
    }
  }

  // Decoding is a bijection on buffers of every length, for every mode and every cycle; the
  // bytes after the last whole block are left alone.
  lemma DecodingIsBijective(data: seq<bv8>, m: Mode, n: nat)
    requires Proper(m) && 8 * n <= |data|
    ensures Encoded(Decoded(data, m, n), m, n) == data
    ensures Decoded(Encoded(data, m, n), m, n) == data
    ensures Decoded(data, m, n)[8 * n..] == data[8 * n..]
  {
    hide Undone, Done, ActionAt;
    forall p | 0 <= p < |data|
      ensures Encoded(Decoded(data, m, n), m, n)[p] == data[p]
      ensures Decoded(Encoded(data, m, n), m, n)[p] == data[p]
    {
      if p < 8 * n {
        DecodedBlock(data, m, n, p / 8);
        EncodedBlock(data, m, n, p / 8);
        ActionsInverse(ActionAt(m, p / 8), BlockOf(data, p / 8));
      }
    }
  }

  // Without shuffled blocks, decoding twice gives the data back.
  lemma HeaderUndoesItself(data: seq<bv8>, n: nat)
    requires 8 * n <= |data|
    ensures Decoded(Decoded(data, Header, n), Header, n) == data
  {
    DecodingIsBijective(data, Header, n);
    assert Encoded(Decoded(data, Header, n), Header, n) == Decoded(Decoded(data, Header, n), Header, n);
  }

  // One more block.
  lemma DecodedNext(data: seq<bv8>, m: Mode, n: nat)
    requires Proper(m) && 8 * n + 8 <= |data|
    ensures BlockOf(Decoded(data, m, n), n) == BlockOf(data, n)
    ensures var d := Decoded(data, m, n);
      Decoded(data, m, n + 1) == d[..8 * n] + Undone(ActionAt(m, n), BlockOf(data, n)) + d[8 * n + 8..]
  {
    hide Undone, ActionAt;
    var d := Decoded(data, m, n);
    var e := d[..8 * n] + Undone(ActionAt(m, n), BlockOf(data, n)) + d[8 * n + 8..];
    forall p | 0 <= p < |data| ensures Decoded(data, m, n + 1)[p] == e[p] {
      if 8 * n <= p < 8 * n + 8 { assert p / 8 == n && p % 8 == p - 8 * n; }
    }
  }

  lemma KeptBlock(d: seq<bv8>, n: nat)
    requires 8 * n + 8 <= |d|
    ensures d == d[..8 * n] + BlockOf(d, n) + d[8 * n + 8..]
  {
  }

  // ---------- The decoder ----------

  method GrfShuffleDec(buf: array<bv8>, at: nat)
    requires at + 8 <= buf.Length
    modifies buf
    ensures buf[..] == old(buf[..at]) + Unshuffled(old(BlockAt(buf, at))) + old(buf[at + 8..])
  {
    hide Substitution;
    ghost var b := BlockAt(buf, at);
    var out := new bv8[8];
    out[0] := buf[at + 3];
    out[1] := buf[at + 4];
    out[2] := buf[at + 6];
    out[3] := buf[at];
    out[4] := buf[at + 1];
    out[5] := buf[at + 2];
    out[6] := buf[at + 5];
    out[7] := Substitution(buf[at + 7]);
    assert out[..] == Unshuffled(b);
    Store(buf, at, out);
  }

  method GrfDecodeHeader(buf: array<bv8>, len: nat)
    requires len <= buf.Length
    modifies buf
    ensures buf[..] == Decoded(old(buf[..]), Header, len / 8)
  {
    hide Decrypted, Decoded;
    ghost var was := buf[..];
    DecodedNone(was, Header);
    var nblocks := len / 8;
    var i := 0;
    while i < 20 && i < nblocks
      invariant 0 <= i <= nblocks && i <= 20
      invariant buf[..] == Decoded(was, Header, i)
    {
      DecodedNext(was, Header, i);
      DesDecryptBlock(buf, 8 * i);
      i := i + 1;
    }
    RestKept(was, i, nblocks);
  }

  lemma DecodedNone(data: seq<bv8>, m: Mode)
    requires Proper(m)
    ensures Decoded(data, m, 0) == data
  {
  }

  lemma KeptNext(data: seq<bv8>, m: Mode, n: nat)
    requires Proper(m) && 8 * n + 8 <= |data| && ActionAt(m, n) == Keep
    ensures Decoded(data, m, n + 1) == Decoded(data, m, n)
  {
    DecodedNext(data, m, n);
    hide Decoded;
    KeptBlock(Decoded(data, m, n), n);
  }

  lemma {:induction false} RestKept(data: seq<bv8>, i: nat, n: nat)
    requires i <= n && 8 * n <= |data| && (i < n ==> i >= ENCRYPTED_BLOCKS)
    ensures Decoded(data, Header, n) == Decoded(data, Header, i)
    decreases n
  {
    if i < n {
      hide Decoded;
      RestKept(data, i, n - 1);
      KeptNext(data, Header, n - 1);
    }
  }

  // The counter of plain blocks: one less than zero at first, so that a step makes it zero.
  function Counter(i: nat, cycle: nat): nat
    requires cycle > 0
  {
    (PlainsBefore(i, cycle) + SIZE - 1) % SIZE
  }

  lemma CounterStep(i: nat, cycle: nat)
    requires cycle > 0 && i >= ENCRYPTED_BLOCKS && i < SIZE
    ensures i % cycle == 0 ==>
              Counter(i + 1, cycle) == Counter(i, cycle) && ActionAt(Full(cycle), i) == Decipher
    ensures i % cycle != 0 ==>
              var k := Counter(i + 1, cycle);
              k == (Counter(i, cycle) + 1) % SIZE
              && ActionAt(Full(cycle), i) == if k % SHUFFLE_CYCLE == 0 && k != 0 then Shuffle else Keep
  {
    CounterIs(i, cycle);
    CounterIs(i + 1, cycle);
  }

  lemma CounterIs(i: nat, cycle: nat)
    requires cycle > 0 && i <= SIZE
    ensures Counter(i, cycle) == if PlainsBefore(i, cycle) == 0 then SIZE - 1 else PlainsBefore(i, cycle) - 1
  {
    hide PlainsBefore;
  }

  // One block after the enciphered header.
  method DecodeMixedBlock(buf: array<bv8>, i: nat, cycle: nat, j: nat, ghost was: seq<bv8>) returns (k: nat)
    requires |was| == buf.Length < SIZE && 8 * i + 8 <= buf.Length && i >= ENCRYPTED_BLOCKS && cycle > 0
    requires buf[..] == Decoded(was, Full(cycle), i) && j == Counter(i, cycle)
    modifies buf
    ensures buf[..] == Decoded(was, Full(cycle), i + 1) && k == Counter(i + 1, cycle)
  {
    hide Decrypted, Unshuffled, Decoded, Counter, PlainsBefore, ActionAt;
    DecodedNext(was, Full(cycle), i);
    CounterStep(i, cycle);
    k := j;
    if i % cycle == 0 {
      DesDecryptBlock(buf, 8 * i);
    } else {
      k := (j + 1) % SIZE;
      if k % 7 == 0 && k != 0 {
        GrfShuffleDec(buf, 8 * i);
      } else {
        KeptBlock(buf[..], i);
      }
    }
  }

  method GrfDecodeFull(buf: array<bv8>, len: nat, cycle: nat)
    requires len <= buf.Length < SIZE && cycle > 0
    modifies buf
    ensures buf[..] == Decoded(old(buf[..]), Full(cycle), len / 8)
  {
    hide Decrypted, Decoded;
    ghost var was := buf[..];
    DecodedNone(was, Full(cycle));
    var nblocks := len / 8;
    var i := 0;
    while i < 20 && i < nblocks
      invariant 0 <= i <= nblocks && i <= 20
      invariant buf[..] == Decoded(was, Full(cycle), i)
    {
      DecodedNext(was, Full(cycle), i);
      DesDecryptBlock(buf, 8 * i);
      i := i + 1;
    }
    var j := SIZE - 1;
    i := 20;
    while i < nblocks
      invariant 20 <= i && (nblocks >= 20 ==> i <= nblocks) && (nblocks < 20 ==> i == 20)
      invariant buf[..] == Decoded(was, Full(cycle), if nblocks < 20 then nblocks else i)
      invariant j == Counter(i, cycle)
    {
      j := DecodeMixedBlock(buf, i, cycle, j, was);
      i := i + 1;
    }
  }

  // ---------- Choosing the mode ----------

  const TYPE_ENCRYPT_MIXED: bv8 := 0x02
  const TYPE_ENCRYPT_HEADER: bv8 := 0x04

  function DigitCount(n: int): nat { if n < 10 then 1 else 1 + DigitCount(n / 10) }

  function CycleOf(digits: nat): nat
  {
    if digits < 3 then 1
    else if digits < 5 then digits + 1
    else if digits < 7 then digits + 9
    else digits + 15
  }

  // The table given in the source's comment.
  lemma CycleTable(digits: nat)
    requires digits < 10
    ensures CycleOf(digits) == [1, 1, 1, 4, 5, 14, 15, 22, 23, 24][digits]
  {
  }

  function ModeOf(flags: bv8, entryLen: int): (m: Mode)
    ensures Proper(m)
  {
    if flags & TYPE_ENCRYPT_MIXED != 0 then Full(CycleOf(DigitCount(entryLen)))
    else if flags & TYPE_ENCRYPT_HEADER != 0 then Header
    else Clear
  }

  function Pow10(d: nat): (p: nat)
    ensures p > 0
  {
    if d == 0 then 1 else 10 * Pow10(d - 1)
  }

  lemma {:induction false} DigitsFromBounds(n: int, d: nat)
    requires d > 0 && n < Pow10(d) && (d == 1 || Pow10(d - 1) <= n)
    ensures DigitCount(n) == d
    decreases d
  {
    if d == 1 {
      assert Pow10(1) == 10 * Pow10(0);
    } else {
      assert Pow10(d) == 10 * Pow10(d - 1) && Pow10(d - 1) == 10 * Pow10(d - 2);
      DigitsFromBounds(n / 10, d - 1);
    }
  }

  // grf_decode. Longer entries would overflow the counter of its first loop.
  method GrfDecode(buf: array<bv8>, len: nat, flags: bv8, entryLen: int)
    requires len <= buf.Length < SIZE && entryLen < 1_000_000_000
    modifies buf
    ensures buf[..] == Decoded(old(buf[..]), ModeOf(flags, entryLen), len / 8)
  {
    if flags & TYPE_ENCRYPT_MIXED != 0 {
      var digits := 1;
      var i := 10;
      while i <= entryLen
        invariant digits > 0 && i == Pow10(digits) && (digits == 1 || Pow10(digits - 1) <= entryLen)
        decreases entryLen - i
      {
        i := i * 10;
        digits := digits + 1;
      }
      DigitsFromBounds(entryLen, digits);
      var cycle := if digits < 3 then 1
                   else if digits < 5 then digits + 1
                   else if digits < 7 then digits + 9
                   else digits + 15;
      GrfDecodeFull(buf, len, cycle);
    } else if flags & TYPE_ENCRYPT_HEADER != 0 {
      GrfDecodeHeader(buf, len);
    } else {
      ClearKept(buf[..], len / 8);
    }
  }

  lemma ClearKept(data: seq<bv8>, n: nat)
    requires 8 * n <= |data|
    ensures Decoded(data, Clear, n) == data
  {
    forall p | 0 <= p < 8 * n ensures Decoded(data, Clear, n)[p] == data[p] {
      assert BlockOf(data, p / 8)[p % 8] == data[p];
    }
  }
}
