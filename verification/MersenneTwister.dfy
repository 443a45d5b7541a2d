/** The random number generator MT19937 (mt19937ar.c): the array is overwritten in place, in
    three segments, and yet its outputs follow a simple infinite recurrence. */
module MersenneTwister {
  const N: nat := 624
  const M: nat := 397
  const MATRIX_A: bv32 := 0x9908_b0df
  const UPPER_MASK: bv32 := 0x8000_0000
  const LOWER_MASK: bv32 := 0x7fff_ffff
  const DEFAULT_SEED: bv32 := 5489

  // ---------- The recurrence ----------

  function Xor(x: bv32, y: bv32): bv32 { x ^ y }

  // The first N words of the sequence that starts from seed s.
  function Seeded(s: bv32, k: nat): bv32
    requires k < N
  {
    if k == 0 then s else Successor(Seeded(s, k - 1), k)
  }

  // Word k of the seeded array, from the word before it.
  function Successor(w: bv32, k: nat): bv32
    requires k < N
  {
    1812433253 * (w ^ (w >> 30)) + k as bv32
  }

  // The twist of a word with its successor.
  function Twist(w: bv32, next: bv32): bv32
  {
    var y := (w & UPPER_MASK) | (next & LOWER_MASK);
    (y >> 1) ^ (if y & 1 == 0 then 0 else MATRIX_A)
  }

  // x(k + N) = x(k + M) xor twist(x(k), x(k + 1)).
  function X(s: bv32, k: nat): bv32
  {
    if k < N then Seeded(s, k)
    else Xor(X(s, k - N + M), Twist(X(s, k - N), X(s, k - N + 1)))
  }

  lemma SeededStarts(s: bv32)
    ensures Seeded(s, 0) == s
  {
  }

  lemma SeededNext(s: bv32, k: nat)
    requires 0 < k < N
    ensures Seeded(s, k) == Successor(Seeded(s, k - 1), k)
  {
  }

  lemma SeededIs(s: bv32, k: nat)
    requires k < N
    ensures X(s, k) == Seeded(s, k)
  {
  }

  lemma Recurrence(s: bv32, k: nat)
    ensures X(s, k + N) == Xor(X(s, k + M), Twist(X(s, k), X(s, k + 1)))
  {
    hide Twist, Xor;
  }

  function Shr11(x: bv32): bv32 { x >> 11 }

  function Shr18(x: bv32): bv32 { x >> 18 }

  function Right11(x: bv32): bv32 { Xor(x, Shr11(x)) }

  function Left7(x: bv32): bv32 { x ^ ((x << 7) & 0x9d2c_5680) }

  function Left15(x: bv32): bv32 { x ^ ((x << 15) & 0xefc6_0000) }

  function Right18(x: bv32): bv32 { Xor(x, Shr18(x)) }

  function Temper(x: bv32): bv32 { Right18(Left15(Left7(Right11(x)))) }

  // The n-th number drawn from the generator seeded with s.
  function Output(s: bv32, n: nat): bv32 { Temper(X(s, n + N)) }

  // ---------- The generator ----------

  class Generator {
    const mt: array<bv32>
    var mti: nat
    ghost var seed: bv32
    // How many words of the sequence lie before the array.
    ghost var base: nat

    ghost predicate Valid()
      reads this, mt
    {
      && mt.Length == N && mti <= N + 1
      && (mti <= N ==> base + mti >= N && Holds())
    }

    // The array holds N consecutive words of the sequence.
    ghost predicate Holds()
      requires mt.Length == N
      reads this, mt
    {
      forall i | 0 <= i < N :: mt[i] == X(seed, base + i)
    }

    // Whether the generator has been seeded.
    ghost predicate Ready() reads this { mti <= N }

    // How many numbers have been drawn since the generator was seeded.
    ghost function Drawn(): nat
      requires Valid() && Ready()
      reads this, mt
    {
      base + mti - N
    }

    constructor ()
      ensures Valid() && !Ready() && fresh(mt)
    {
      mt := new bv32[N](_ => 0);
      mti := N + 1;
      seed, base := 0, 0;
    }

    // init_genrand.
    method Init(s: bv32)
      requires Valid()
      modifies this, mt
      ensures Valid() && mti == N && seed == s && Drawn() == 0
    {
      hide Successor, X, Seeded;
      SeededStarts(s);
      mt[0] := s;
      mti := 1;
      while mti < N
        invariant 1 <= mti <= N
        invariant forall i | 0 <= i < mti :: mt[i] == Seeded(s, i)
      {
        SeededNext(s, mti);
        mt[mti] := Successor(mt[mti - 1], mti);
        mti := mti + 1;
      }
      seed, base := s, 0;
      forall i | 0 <= i < N ensures mt[i] == X(s, i) { SeededIs(s, i); }
    }

    // One word of the batch: mt[k] is replaced, reading its successor and the word m.
    method Renew(k: nat, next: nat, m: nat)
      requires mt.Length == N && k < N && next < N && m < N
      modifies mt
      ensures mt[k] == Xor(old(mt[m]), Twist(old(mt[k]), old(mt[next])))
      ensures forall i | 0 <= i < N && i != k :: mt[i] == old(mt[i])
    {
      hide Xor, Twist;
      mt[k] := Xor(mt[m], Twist(mt[k], mt[next]));
    }

    // While the batch is made, the first kk words are new and the others old.
    ghost predicate Partly(kk: nat)
      requires mt.Length == N && kk <= N
      reads this, mt
    {
      && (forall i | 0 <= i < kk :: mt[i] == X(seed, base + N + i))
      && (forall i | kk <= i < N :: mt[i] == X(seed, base + i))
    }

    method RenewNext(kk: nat, next: nat, m: nat)
      requires mt.Length == N && kk < N && next < N && m < N && Partly(kk)
      requires next == (kk + 1) % N && m == (kk + M) % N
      modifies mt
      ensures Partly(kk + 1)
    {
      hide X, Twist, Xor;
      Recurrence(seed, base + kk);
      Renew(kk, next, m);
    }

    // The next N words are generated in place.
    method Batch()
      requires Valid() && Ready()
      modifies this, mt
      ensures Valid() && mti == 0 && seed == old(seed) && base == old(base) + N
    {
      hide X;
      var kk := 0;
      while kk < N - M
        invariant kk <= N - M && base == old(base) && seed == old(seed) && Partly(kk)
      {
        RenewNext(kk, kk + 1, kk + M);
        kk := kk + 1;
      }
      while kk < N - 1
        invariant N - M <= kk <= N - 1 && base == old(base) && seed == old(seed) && Partly(kk)
      {
        RenewNext(kk, kk + 1, kk + M - N);
        kk := kk + 1;
      }
      RenewNext(N - 1, 0, M - 1);
      mti := 0;
      base := base + N;
    }

    // genrand_int32.
    method Next() returns (y: bv32)
      requires Valid()
      modifies this, mt
      ensures Valid() && Ready()
      ensures seed == if old(Ready()) then old(seed) else DEFAULT_SEED
      ensures Drawn() == 1 + if old(Ready()) then old(Drawn()) else 0
      ensures y == Output(seed, Drawn() - 1)
    {
      hide X, Seeded, Xor, Right11, Left7, Left15, Right18;
      if mti >= N {
        if mti == N + 1 {
          Init(DEFAULT_SEED);
        }
        Batch();
      }
      y := mt[mti];
      mti := mti + 1;
      y := Right11(y);
      y := Left7(y);
      y := Left15(y);
      y := Right18(y);
    }

    // A run of draws yields the outputs of the sequence in order, across any number of batches.
    method Draw(count: nat) returns (ys: seq<bv32>)
      requires Valid() && Ready()
      modifies this, mt
      ensures Valid() && Ready() && seed == old(seed) && Drawn() == old(Drawn()) + count
      ensures |ys| == count && forall i | 0 <= i < count :: ys[i] == Output(seed, old(Drawn()) + i)
    {
      ys := [];
      ghost var d := Drawn();
      while |ys| < count
        invariant |ys| <= count && Valid() && Ready() && seed == old(seed) && Drawn() == d + |ys|
        invariant forall i | 0 <= i < |ys| :: ys[i] == Output(seed, d + i)
      {
        var y := Next();
        ys := ys + [y];
      }
    }
  }

  // ---------- Tempering is invertible ----------

  function Left7Undone(y: bv32): bv32
  {
    var a := y ^ ((y << 7) & 0x9d2c_5680);
    var b := y ^ ((a << 7) & 0x9d2c_5680);
    var c := y ^ ((b << 7) & 0x9d2c_5680);
    y ^ ((c << 7) & 0x9d2c_5680)
  }

  function Right11Undone(y: bv32): bv32
  {
    var d := Xor(y, Shr11(y));
    Xor(y, Shr11(d))
  }

  function Untemper(y: bv32): bv32 { Right11Undone(Left7Undone(Left15(Right18(y)))) }

  // The algebra of exclusive or and right shifts; the proofs below use nothing else of them.
  lemma XorLaws(a: bv32, b: bv32)
    ensures Xor(Xor(a, b), b) == a && Xor(a, 0) == a
  {
  }

  lemma Shr11Xor(a: bv32, b: bv32)
    ensures Shr11(Xor(a, b)) == Xor(Shr11(a), Shr11(b))
  {
  }

  lemma Shr18Xor(a: bv32, b: bv32)
    ensures Shr18(Xor(a, b)) == Xor(Shr18(a), Shr18(b))
  {
  }

  lemma ShiftedOut(a: bv32)
    ensures Shr11(Shr11(Shr11(a))) == 0 && Shr18(Shr18(a)) == 0
  {
  }

  lemma Right18Inverse(x: bv32)
    ensures Right18(Right18(x)) == x
  {
    hide Xor, Shr18, Shr11;
    Shr18Xor(x, Shr18(x));
    ShiftedOut(x);
    XorLaws(Shr18(x), 0);
    XorLaws(x, Shr18(x));
  }

  lemma Left15Inverse(x: bv32)
    ensures Left15(Left15(x)) == x
  {
  }

  lemma Left7Inverse(x: bv32)
    ensures Left7Undone(Left7(x)) == x && Left7(Left7Undone(x)) == x
  {
  }

  lemma Right11Inverse(x: bv32)
    ensures Right11Undone(Right11(x)) == x && Right11(Right11Undone(x)) == x
  {
    hide Xor, Shr11, Shr18;
    var s1, s2 := Shr11(x), Shr11(Shr11(x));
    ShiftedOut(x);
    XorLaws(s1, s2);
    XorLaws(s1, 0);
    XorLaws(s2, 0);
    XorLaws(x, s1);
    Shr11Xor(x, s1);
    Shr11Xor(s1, s2);
    var y := Right11(x);
    assert Shr11(y) == Xor(s1, s2) && Shr11(Shr11(y)) == s2;
    Shr11Xor(y, Shr11(y));
    XorLaws(x, Xor(s1, s2));
    var w := Right11Undone(x);
    assert w == Xor(x, Xor(s1, s2));
    Shr11Xor(x, Xor(s1, s2));
    assert Shr11(w) == Xor(s1, s2);
  }

  lemma TemperInvertible(x: bv32)
    ensures Untemper(Temper(x)) == x
    ensures Temper(Untemper(x)) == x
  {
    hide Right11, Right11Undone, Left7, Left7Undone, Left15, Right18;
    Right11Inverse(x);
    Left7Inverse(Right11(x));
    Left15Inverse(Left7(Right11(x)));
    Right18Inverse(Left15(Left7(Right11(x))));
    Right18Inverse(x);
    Left15Inverse(Right18(x));
    Left7Inverse(Left15(Right18(x)));
    Right11Inverse(Left7Undone(Left15(Right18(x))));
  }

  // The outputs follow a recurrence of their own, so N of them determine every later one.
  lemma OutputsRecur(s: bv32, n: nat)
    ensures Output(s, n + N)
         == Temper(Xor(Untemper(Output(s, n + M)), Twist(Untemper(Output(s, n)), Untemper(Output(s, n + 1)))))
  {
    TemperInvertible(X(s, n + N + M));
    TemperInvertible(X(s, n + N));
    TemperInvertible(X(s, n + N + 1));
    hide Temper, Untemper, Twist, X, Xor;
    Recurrence(s, n + N);
  }

  // Two generators that agree on N consecutive outputs agree for ever.
  ghost predicate AgreeAt(s: bv32, t: bv32, n: nat, m: nat, i: nat) { Output(s, n + i) == Output(t, m + i) }

  lemma {:induction false} SameWindowSameFuture(s: bv32, t: bv32, n: nat, m: nat, k: nat)
    requires forall i | 0 <= i < N :: AgreeAt(s, t, n, m, i)
    ensures AgreeAt(s, t, n, m, k)
    decreases k
  {
    hide Output, Xor, Twist, Temper, Untemper;
    if k >= N {
      SameWindowSameFuture(s, t, n, m, k - N);
      SameWindowSameFuture(s, t, n, m, k - N + 1);
      SameWindowSameFuture(s, t, n, m, k - N + M);
      OutputsRecur(s, n + (k - N));
      OutputsRecur(t, m + (k - N));
      assert n + (k - N) + M == n + (k - N + M) && m + (k - N) + M == m + (k - N + M);
    }
  }
}
