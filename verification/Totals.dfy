/** Sums over tables whose keys are handed out in increasing order. */
module Totals {
  // The sum of the weights of the entries with keys below n.
  function Total<T>(m: map<nat, T>, n: nat, w: T -> int): int
  {
    if n == 0 then 0 else Total(m, n - 1, w) + Entry(m, n - 1, w)
  }

  function Entry<T>(m: map<nat, T>, k: nat, w: T -> int): int { if k in m then w(m[k]) else 0 }

  lemma {:induction false} TotalPut<T>(m: map<nat, T>, n: nat, w: T -> int, k: nat, v: T)
    ensures Total(m[k := v], n, w) == Total(m, n, w) + if k < n then w(v) - Entry(m, k, w) else 0
    decreases n
  {
    if n > 0 { TotalPut(m, n - 1, w, k, v); }
  }

  lemma {:induction false} TotalDrop<T>(m: map<nat, T>, n: nat, w: T -> int, k: nat)
    ensures Total(m - {k}, n, w) == Total(m, n, w) - if k < n then Entry(m, k, w) else 0
    decreases n
  {
    if n > 0 { TotalDrop(m, n - 1, w, k); }
  }

  lemma TotalAppend<T>(m: map<nat, T>, n: nat, w: T -> int, v: T)
    requires n !in m
    ensures Total(m[n := v], n + 1, w) == Total(m, n, w) + w(v)
  {
    TotalPut(m, n, w, n, v);
  }

  // Entries of equal weight in the same places.
  lemma {:induction false} TotalSame<T>(a: map<nat, T>, b: map<nat, T>, n: nat, w: T -> int)
    requires forall k: nat | k < n :: Entry(a, k, w) == Entry(b, k, w)
    ensures Total(a, n, w) == Total(b, n, w)
    decreases n
  {
    if n > 0 { TotalSame(a, b, n - 1, w); }
  }
}
