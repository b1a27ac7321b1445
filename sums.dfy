/**
 * Finite sums and maxima over an index range, used to count matrix cells,
 * degrees and strengths and to aggregate hop distances, with the algebra
 * needed to rearrange them.
 */
module Sums {

  /** f(0) + f(1) + ... + f(n - 1). */
  function Sum(n: nat, f: nat -> int): int
  {
    if n == 0 then 0 else Sum(n - 1, f) + f(n - 1)
  }

  /** Sums of functions that agree on the range are equal. */
  lemma {:induction false} SumCongruent(n: nat, f: nat -> int, g: nat -> int)
    requires forall i :: 0 <= i < n ==> f(i) == g(i)
    ensures Sum(n, f) == Sum(n, g)
  {
    if n > 0 {
      SumCongruent(n - 1, f, g);
    }
  }

  /** A sum of pointwise sums is the sum of the two sums. */
  lemma {:induction false} SumAdd(n: nat, f: nat -> int, g: nat -> int, h: nat -> int)
    requires forall i :: 0 <= i < n ==> h(i) == f(i) + g(i)
    ensures Sum(n, h) == Sum(n, f) + Sum(n, g)
  {
    if n > 0 {
      SumAdd(n - 1, f, g, h);
    }
  }

  /** Scaling every term scales the sum. */
  lemma {:induction false} SumScale(n: nat, f: nat -> int, c: int, h: nat -> int)
    requires forall i :: 0 <= i < n ==> h(i) == c * f(i)
    ensures Sum(n, h) == c * Sum(n, f)
  {
    if n > 0 {
      SumScale(n - 1, f, c, h);
    }
  }

  /** A constant summed n times. */
  lemma {:induction false} SumConstant(n: nat, f: nat -> int, c: int)
    requires forall i :: 0 <= i < n ==> f(i) == c
    ensures Sum(n, f) == n * c
  {
    if n > 0 {
      SumConstant(n - 1, f, c);
    }
  }

  /** Summing an indicator of one index k < n gives the value at k. */
  lemma {:induction false} SumSinglePoint(n: nat, f: nat -> int, k: nat)
    requires k < n
    requires forall i :: 0 <= i < n && i != k ==> f(i) == 0
    ensures Sum(n, f) == f(k)
  {
    if n - 1 == k {
      SumConstant(n - 1, f, 0);
    } else {
      SumSinglePoint(n - 1, f, k);
    }
  }

  /** Terms that are all non-negative give a non-negative sum. */
  lemma {:induction false} SumNonNegative(n: nat, f: nat -> int)
    requires forall i :: 0 <= i < n ==> f(i) >= 0
    ensures Sum(n, f) >= 0
  {
    if n > 0 {
      SumNonNegative(n - 1, f);
    }
  }

  /** Termwise f <= g gives Sum f <= Sum g. */
  lemma {:induction false} SumMonotone(n: nat, f: nat -> int, g: nat -> int)
    requires forall i :: 0 <= i < n ==> f(i) <= g(i)
    ensures Sum(n, f) <= Sum(n, g)
  {
    if n > 0 {
      SumMonotone(n - 1, f, g);
    }
  }

  /** The double sum over a rectangle by rows equals the double sum by columns. */
  lemma {:induction false} SumSwap(a: nat, b: nat, f: (nat, nat) -> int)
    ensures Sum(a, (i: nat) => Sum(b, (j: nat) => f(i, j))) == Sum(b, (j: nat) => Sum(a, (i: nat) => f(i, j)))
  {
    var rows := (i: nat) => Sum(b, (j: nat) => f(i, j));
    var cols := (j: nat) => Sum(a, (i: nat) => f(i, j));
    if a == 0 {
      SumConstant(b, cols, 0);
    } else {
      var colsBefore := (j: nat) => Sum(a - 1, (i: nat) => f(i, j));
      var last := (j: nat) => f(a - 1, j);
      SumSwap(a - 1, b, f);
      assert Sum(a - 1, rows) == Sum(b, colsBefore);
      forall j | 0 <= j < b
        ensures cols(j) == colsBefore(j) + last(j)
      {
      }
      SumAdd(b, colsBefore, last, cols);
      assert Sum(a, rows) == Sum(a - 1, rows) + Sum(b, last);
    }
  }

  /** The largest of 0, f(0), ..., f(n - 1). */
  function MaxOf(n: nat, f: nat -> int): (m: int)
    ensures m >= 0
  {
    if n == 0 then 0
    else
      var before := MaxOf(n - 1, f);
      if f(n - 1) > before then f(n - 1) else before
  }

  /** One pass over the values of f on 0..n-1 gives their maximum (at
      least 0). */
  method Maximum(vals: seq<int>, ghost f: nat -> int) returns (m: int)
    requires forall t | 0 <= t < |vals| :: vals[t] == f(t)
    ensures m == MaxOf(|vals|, f)
  {
    m := 0;
    for t := 0 to |vals|
      invariant m == MaxOf(t, f)
    {
      if vals[t] > m {
        m := vals[t];
      }
    }
  }

  /** One pass over the values of f on 0..n-1 gives their total. */
  method Total(vals: seq<int>, ghost f: nat -> int) returns (total: int)
    requires forall t | 0 <= t < |vals| :: vals[t] == f(t)
    ensures total == Sum(|vals|, f)
  {
    total := 0;
    for t := 0 to |vals|
      invariant total == Sum(t, f)
    {
      total := total + vals[t];
    }
  }

  /** The maximum is at least every term. */
  lemma {:induction false} MaxOfAtLeast(n: nat, f: nat -> int, k: nat)
    requires k < n
    ensures f(k) <= MaxOf(n, f)
  {
    if k < n - 1 {
      MaxOfAtLeast(n - 1, f, k);
    }
  }

  /** The maximum of terms bounded by a non-negative b is bounded by b. */
  lemma {:induction false} MaxOfAtMost(n: nat, f: nat -> int, b: int)
    requires b >= 0
    requires forall i :: 0 <= i < n ==> f(i) <= b
    ensures MaxOf(n, f) <= b
  {
    if n > 0 {
      MaxOfAtMost(n - 1, f, b);
    }
  }
}
