/**
 * Monomials of a displacement vector and the dot product that evaluates a
 * truncated series.
 */
module Series {
  import opened MultiIndex

  /** `pow(b, e)` for a non-negative integer exponent. */
  function Pow(b: real, e: nat): real
  {
    if e == 0 then 1.0 else Pow(b, e - 1) * b
  }

  /** Product of `x[l]^m[l]` over the first `n` dimensions, in dimension order. */
  function MonoUpTo(x: seq<real>, m: MI, n: nat): real
    requires n <= |x| && n <= |m|
  {
    if n == 0 then 1.0 else MonoUpTo(x, m, n - 1) * Pow(x[n - 1], m[n - 1])
  }

  /** The monomial `x^m`. */
  function Mono(x: seq<real>, m: MI): real
    requires |m| == |x|
  {
    MonoUpTo(x, m, |x|)
  }

  /** The monomial of every multi-index in `ms`. */
  function Monomials(x: seq<real>, ms: seq<MI>): (r: seq<real>)
    requires forall n :: 0 <= n < |ms| ==> |ms[n]| == |x|
    ensures |r| == |ms|
  {
    seq(|ms|, n requires 0 <= n < |ms| => Mono(x, ms[n]))
  }

  /** Left-to-right dot product. */
  function Dot(a: seq<real>, b: seq<real>): real
    requires |a| == |b|
  {
    if |a| == 0 then 0.0 else Dot(a[..|a| - 1], b[..|b| - 1]) + a[|a| - 1] * b[|b| - 1]
  }

  function AddVec(a: seq<real>, b: seq<real>): (r: seq<real>)
    requires |a| == |b|
    ensures |r| == |a|
  {
    seq(|a|, i requires 0 <= i < |a| => a[i] + b[i])
  }

  lemma {:induction false} MonoUpToZero(x: seq<real>, n: nat)
    requires n <= |x|
    ensures MonoUpTo(x, Zero(|x|), n) == 1.0
  {
    if n > 0 {
      MonoUpToZero(x, n - 1);
    }
  }

  /** The zero multi-index gives the monomial 1. */
  lemma MonoOfZero(x: seq<real>)
    ensures Mono(x, Zero(|x|)) == 1.0
  {
    MonoUpToZero(x, |x|);
  }

  /** `MonoUpTo` peeled at its last dimension, in the terms its own body uses. */
  lemma MonoUpToUnfold(x: seq<real>, m: MI, n: nat)
    requires 0 < n <= |x| && n <= |m|
    ensures MonoUpTo(x, m, n) == MonoUpTo(x, m, n - 1) * Pow(x[n - 1], m[n - 1])
  {
  }

  lemma PowSucc(b: real, e: nat)
    ensures Pow(b, e + 1) == Pow(b, e) * b
  {
  }

  /** The regroupings the steps below need, over plain reals. */
  lemma Regroup(a: real, b: real, c: real, d: real, u: real, v: real)
    requires a == b * v && b == d * u && c == d * v
    ensures a == c * u
  {
  }

  lemma RegroupAt(a: real, b: real, c: real, d: real, u: real)
    requires a == b * (c * u) && d == b * c
    ensures a == d * u
  {
  }

  /** Dimensions below `i` do not see the increment. */
  lemma {:induction false} MonoUpToIncBelow(x: seq<real>, m: MI, i: nat, n: nat)
    requires |m| == |x| && i < |x| && n <= i
    ensures MonoUpTo(x, Inc(m, i), n) == MonoUpTo(x, m, n)
  {
    if n > 0 {
      MonoUpToIncBelow(x, m, i, n - 1);
      assert Inc(m, i)[n - 1] == m[n - 1];
    }
  }

  /** Dimension `i` itself contributes one more factor `x[i]`. */
  lemma MonoUpToIncAt(x: seq<real>, m: MI, i: nat, n: nat)
    requires |m| == |x| && i == n - 1 && n <= |x|
    ensures MonoUpTo(x, Inc(m, i), n) == MonoUpTo(x, m, n) * x[i]
  {
    MonoUpToIncBelow(x, m, i, n - 1);
    assert Inc(m, i)[n - 1] == m[n - 1] + 1;
    MonoUpToUnfold(x, Inc(m, i), n);
    MonoUpToUnfold(x, m, n);
    PowSucc(x[n - 1], m[n - 1]);
    RegroupAt(MonoUpTo(x, Inc(m, i), n), MonoUpTo(x, m, n - 1), Pow(x[n - 1], m[n - 1]), MonoUpTo(x, m, n), x[i]);
  }

  /** Past dimension `i` the extra factor is carried along unchanged. */
  lemma MonoUpToIncStep(x: seq<real>, m: MI, i: nat, n: nat)
    requires |m| == |x| && i < n - 1 && n <= |x|
    requires MonoUpTo(x, Inc(m, i), n - 1) == MonoUpTo(x, m, n - 1) * x[i]
    ensures MonoUpTo(x, Inc(m, i), n) == MonoUpTo(x, m, n) * x[i]
  {
    assert Inc(m, i)[n - 1] == m[n - 1];
    MonoUpToUnfold(x, Inc(m, i), n);
    MonoUpToUnfold(x, m, n);
    Regroup(MonoUpTo(x, Inc(m, i), n), MonoUpTo(x, Inc(m, i), n - 1), MonoUpTo(x, m, n), MonoUpTo(x, m, n - 1), x[i], Pow(x[n - 1], m[n - 1]));
  }

  lemma {:induction false} MonoUpToIncAbove(x: seq<real>, m: MI, i: nat, n: nat)
    requires |m| == |x| && i < n <= |x|
    ensures MonoUpTo(x, Inc(m, i), n) == MonoUpTo(x, m, n) * x[i]
  {
    if i == n - 1 {
      MonoUpToIncAt(x, m, i, n);
    } else {
      MonoUpToIncAbove(x, m, i, n - 1);
      MonoUpToIncStep(x, m, i, n);
    }
  }

  /** One more unit in dimension `i` multiplies the monomial by `x[i]`: the
      step of the evaluation recurrence. */
  lemma MonoInc(x: seq<real>, m: MI, i: nat)
    requires |m| == |x| && i < |x|
    ensures Mono(x, Inc(m, i)) == Mono(x, m) * x[i]
  {
    MonoUpToIncAbove(x, m, i, |x|);
  }

  /** The dot product is linear in its first argument. */
  lemma {:induction false} DotAdd(a: seq<real>, b: seq<real>, v: seq<real>)
    requires |a| == |b| == |v|
    ensures Dot(AddVec(a, b), v) == Dot(a, v) + Dot(b, v)
  {
    if |a| > 0 {
      var n := |a| - 1;
      DotAdd(a[..n], b[..n], v[..n]);
      assert AddVec(a, b)[..n] == AddVec(a[..n], b[..n]);
    }
  }

  lemma {:induction false} DotZeroLeft(a: seq<real>, v: seq<real>)
    requires |a| == |v|
    requires forall i :: 0 <= i < |a| ==> a[i] == 0.0
    ensures Dot(a, v) == 0.0
  {
    if |a| > 0 {
      DotZeroLeft(a[..|a| - 1], v[..|v| - 1]);
    }
  }

  /** Entries of `a` past `n` that are zero do not change the dot product. */
  lemma {:induction false} DotZeroTail(a: seq<real>, b: seq<real>, n: nat)
    requires |a| == |b| && n <= |a|
    requires forall i :: n <= i < |a| ==> a[i] == 0.0
    ensures Dot(a, b) == Dot(a[..n], b[..n])
  {
    if n < |a| {
      var m := |a| - 1;
      DotZeroTail(a[..m], b[..m], n);
      assert a[..m][..n] == a[..n] && b[..m][..n] == b[..n];
    } else {
      assert a[..n] == a && b[..n] == b;
    }
  }

  lemma DotStep(a: seq<real>, b: seq<real>, n: nat)
    requires |a| == |b| && n < |a|
    ensures Dot(a[..n + 1], b[..n + 1]) == Dot(a[..n], b[..n]) + a[n] * b[n]
  {
    assert a[..n + 1][..n] == a[..n];
    assert b[..n + 1][..n] == b[..n];
  }

  /** One step of the heads recurrence: the monomial written at the next
      free position of block i is the monomial at position `j` of the
      degree-(k-1) suffix from i times `x[i]`. */
  lemma RecurrenceStep(x: seq<real>, p: nat, k: nat, i: nat, head: nat, j: nat)
    requires 1 <= k <= p && i < |x| && |Table(|x|, k - 1)| <= |Table(|x|, p)|
    requires head <= j < |Table(|x|, k - 1)|
    requires Table(|x|, p)[head..|Table(|x|, k - 1)|] == Suffix(|x|, k - 1, i)
    ensures |Table(|x|, k - 1)| + |Blocks(|x|, k, 0, i)| + (j - head) < |Table(|x|, p)|
    ensures Mono(x, Table(|x|, p)[|Table(|x|, k - 1)| + |Blocks(|x|, k, 0, i)| + (j - head)])
         == Mono(x, Table(|x|, p)[j]) * x[i]
  {
    StepFrom(|x|, p, k, i, head, j);
    MonoInc(x, Table(|x|, p)[j], i);
  }
}
