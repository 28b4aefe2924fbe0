/**
 * Multi-indices (exponent tuples) and the canonical graded enumeration that
 * both the catalog and the evaluation recurrence use.
 *
 * The enumeration lists degree 0, then degree 1, then degree 2, and so on.
 * Within degree k (k >= 1) it lists one block per dimension i = 0 .. d-1;
 * block i holds the degree-k multi-indices whose first nonzero entry is at
 * position i, obtained by adding one to entry i of every degree-(k-1)
 * multi-index whose entries before i are zero ("the suffix from i").
 */
module MultiIndex {

  type MI = seq<nat>

  function Zero(d: nat): MI
  {
    seq(d, _ => 0)
  }

  /** The multi-index with one more unit in dimension `i`. */
  function Inc(m: MI, i: nat): MI
    requires i < |m|
  {
    m[i := m[i] + 1]
  }

  /** Component-wise sum of two multi-indices. */
  function Add(a: MI, b: MI): MI
    requires |a| == |b|
  {
    seq(|a|, l requires 0 <= l < |a| => a[l] + b[l])
  }

  /** `beta` dominates `alpha`: no component of `beta - alpha` is negative. */
  predicate Dominates(beta: MI, alpha: MI)
  {
    |beta| == |alpha| && forall l :: 0 <= l < |alpha| ==> alpha[l] <= beta[l]
  }

  function Diff(beta: MI, alpha: MI): MI
    requires Dominates(beta, alpha)
  {
    seq(|alpha|, l requires 0 <= l < |alpha| => beta[l] - alpha[l])
  }

  /** Total degree: the sum of the entries. */
  function Degree(m: MI): nat
  {
    if |m| == 0 then 0 else Degree(m[..|m| - 1]) + m[|m| - 1]
  }

  /** Entries before position `i` are zero. */
  predicate ZeroBelow(m: MI, i: nat)
  {
    forall l :: 0 <= l < i && l < |m| ==> m[l] == 0
  }

  /** The degree-k multi-indices over `d` dimensions whose entries before `i`
      are zero, in canonical order. */
  function Suffix(d: nat, k: nat, i: nat): (r: seq<MI>)
    requires i <= d
    ensures forall n :: 0 <= n < |r| ==> |r[n]| == d
    decreases k, 2
  {
    if k == 0 then [Zero(d)] else Blocks(d, k, i, d)
  }

  /** Blocks lo .. hi-1 of degree k, concatenated. */
  function Blocks(d: nat, k: nat, lo: nat, hi: nat): (r: seq<MI>)
    requires 1 <= k && lo <= hi <= d
    ensures forall n :: 0 <= n < |r| ==> |r[n]| == d
    decreases k, 1, hi
  {
    if lo == hi then [] else Blocks(d, k, lo, hi - 1) + Block(d, k, hi - 1)
  }

  /** Block i of degree k: one more unit in dimension i, applied to the
      degree-(k-1) suffix from i. */
  function Block(d: nat, k: nat, i: nat): (r: seq<MI>)
    requires 1 <= k && i < d
    ensures |r| == |Suffix(d, k - 1, i)|
    ensures forall n :: 0 <= n < |r| ==> |r[n]| == d
    decreases k, 0
  {
    var s := Suffix(d, k - 1, i);
    seq(|s|, n requires 0 <= n < |s| => Inc(s[n], i))
  }

  /** All multi-indices of degree at most `p`, in canonical order. */
  function Table(d: nat, p: nat): (r: seq<MI>)
    ensures forall n :: 0 <= n < |r| ==> |r[n]| == d
  {
    if p == 0 then Suffix(d, 0, 0) else Table(d, p - 1) + Suffix(d, p, 0)
  }

  lemma {:induction false} BlocksSplit(d: nat, k: nat, lo: nat, mid: nat, hi: nat)
    requires 1 <= k && lo <= mid <= hi <= d
    ensures Blocks(d, k, lo, hi) == Blocks(d, k, lo, mid) + Blocks(d, k, mid, hi)
    decreases hi
  {
    if hi == mid {
      assert Blocks(d, k, mid, hi) == [];
    } else {
      BlocksSplit(d, k, lo, mid, hi - 1);
      assert Blocks(d, k, lo, hi)
          == Blocks(d, k, lo, mid) + Blocks(d, k, mid, hi - 1) + Block(d, k, hi - 1);
    }
  }

  /** Ids for order p are a prefix of the ids for any higher order q. */
  lemma {:induction false} TablePrefix(d: nat, p: nat, q: nat)
    requires p <= q
    ensures |Table(d, p)| <= |Table(d, q)|
    ensures Table(d, q)[..|Table(d, p)|] == Table(d, p)
    decreases q
  {
    if p < q {
      TablePrefix(d, p, q - 1);
      assert Table(d, q)[..|Table(d, q - 1)|] == Table(d, q - 1);
    }
  }

  /** The slice of the order-p table that the suffix of degree k from `i`
      occupies: it starts after the lower degrees and after blocks 0 .. i-1. */
  lemma LevelSlice(d: nat, p: nat, k: nat, i: nat)
    requires 1 <= k <= p && i <= d
    ensures |Table(d, k - 1)| + |Blocks(d, k, 0, i)| <= |Table(d, k)| <= |Table(d, p)|
    ensures Table(d, p)[|Table(d, k - 1)| + |Blocks(d, k, 0, i)|..|Table(d, k)|] == Suffix(d, k, i)
  {
    TablePrefix(d, k, p);
    BlocksSplit(d, k, 0, i, d);
    assert Table(d, k) == Table(d, k - 1) + Blocks(d, k, 0, i) + Blocks(d, k, i, d);
  }

  /** The entry the recurrence writes at offset `q` of block `i` of degree `k`
      is entry `q` of the degree-(k-1) suffix from `i` with one more unit in
      dimension `i`. */
  lemma StepAt(d: nat, p: nat, k: nat, i: nat, q: nat)
    requires 1 <= k <= p && i < d && q < |Suffix(d, k - 1, i)|
    ensures |Table(d, k - 1)| + |Blocks(d, k, 0, i)| + q < |Table(d, p)|
    ensures Table(d, p)[|Table(d, k - 1)| + |Blocks(d, k, 0, i)| + q] == Inc(Suffix(d, k - 1, i)[q], i)
  {
    LevelSlice(d, p, k, i);
    BlocksSplit(d, k, i, i + 1, d);
    assert Blocks(d, k, i, i + 1) == Block(d, k, i);
    assert Suffix(d, k, i)[q] == Block(d, k, i)[q];
  }

  /** After degree k, head i sits where block i of degree k starts, so the
      entries from it to the end of degree k are the degree-k suffix from i. */
  lemma HeadsAfterDegree(d: nat, p: nat, k: nat, heads: seq<int>)
    requires 1 <= k <= p && |heads| > d
    requires forall i :: 0 <= i < d ==> heads[i] == |Table(d, k - 1)| + |Blocks(d, k, 0, i)|
    ensures |Table(d, k)| == |Table(d, k - 1)| + |Blocks(d, k, 0, d)| <= |Table(d, p)|
    ensures forall i :: 0 <= i < d ==>
              0 <= heads[i] <= |Table(d, k)| && Table(d, p)[heads[i]..|Table(d, k)|] == Suffix(d, k, i)
  {
    TablePrefix(d, k, p);
    forall i | 0 <= i < d
      ensures 0 <= heads[i] <= |Table(d, k)| && Table(d, p)[heads[i]..|Table(d, k)|] == Suffix(d, k, i)
    {
      LevelSlice(d, p, k, i);
    }
  }

  /** The step of the recurrence in table terms: when the entries from
      `head` to the end of degree k-1 are the degree-(k-1) suffix from i,
      entry `j` of them, with one more unit in dimension i, sits at offset
      `j - head` of block i of degree k. */
  lemma StepFrom(d: nat, p: nat, k: nat, i: nat, head: nat, j: nat)
    requires 1 <= k <= p && i < d && |Table(d, k - 1)| <= |Table(d, p)|
    requires head <= j < |Table(d, k - 1)|
    requires Table(d, p)[head..|Table(d, k - 1)|] == Suffix(d, k - 1, i)
    ensures |Table(d, k - 1)| + |Blocks(d, k, 0, i)| + (j - head) < |Table(d, p)|
    ensures Table(d, p)[|Table(d, k - 1)| + |Blocks(d, k, 0, i)| + (j - head)] == Inc(Table(d, p)[j], i)
  {
    StepAt(d, p, k, i, j - head);
    assert Table(d, p)[j] == Table(d, p)[head..|Table(d, k - 1)|][j - head];
  }

  /** Block i of degree k holds as many entries as the degree-(k-1) suffix
      from i, and blocks 0 .. i end within the order-p table. */
  lemma BlockExtent(d: nat, p: nat, k: nat, i: nat)
    requires 1 <= k <= p && i < d
    ensures |Blocks(d, k, 0, i + 1)| == |Blocks(d, k, 0, i)| + |Suffix(d, k - 1, i)|
    ensures |Table(d, k - 1)| + |Blocks(d, k, 0, i + 1)| <= |Table(d, p)|
  {
    BlocksSplit(d, k, 0, i, i + 1);
    assert Blocks(d, k, i, i + 1) == Block(d, k, i);
    LevelSlice(d, p, k, i + 1);
  }

  lemma {:induction false} DegreeInc(m: MI, i: nat)
    requires i < |m|
    ensures Degree(Inc(m, i)) == Degree(m) + 1
    decreases |m|
  {
    var last := |m| - 1;
    assert Inc(m, i)[..last] == if i < last then Inc(m[..last], i) else m[..last];
    if i < last {
      DegreeInc(m[..last], i);
    }
  }

  lemma {:induction false} DegreeZero(d: nat)
    ensures Degree(Zero(d)) == 0
  {
    if d > 0 {
      assert Zero(d)[..d - 1] == Zero(d - 1);
      DegreeZero(d - 1);
    }
  }

  /** Every entry of the suffix of degree k from i has degree k and zeros
      before i. */
  lemma {:induction false} SuffixSound(d: nat, k: nat, i: nat)
    requires i <= d
    ensures forall n :: 0 <= n < |Suffix(d, k, i)| ==>
              Degree(Suffix(d, k, i)[n]) == k && ZeroBelow(Suffix(d, k, i)[n], i)
    decreases k, 2
  {
    if k == 0 {
      DegreeZero(d);
    } else {
      BlocksSound(d, k, i, d);
    }
  }

  lemma {:induction false} BlocksSound(d: nat, k: nat, lo: nat, hi: nat)
    requires 1 <= k && lo <= hi <= d
    ensures forall n :: 0 <= n < |Blocks(d, k, lo, hi)| ==>
              Degree(Blocks(d, k, lo, hi)[n]) == k && ZeroBelow(Blocks(d, k, lo, hi)[n], lo)
    decreases k, 1, hi
  {
    if lo < hi {
      BlocksSound(d, k, lo, hi - 1);
      var s := Suffix(d, k - 1, hi - 1);
      SuffixSound(d, k - 1, hi - 1);
      forall n | 0 <= n < |s|
        ensures Degree(Inc(s[n], hi - 1)) == k && ZeroBelow(Inc(s[n], hi - 1), lo)
      {
        DegreeInc(s[n], hi - 1);
      }
    }
  }

  /** Every entry of the order-p table has `d` entries and degree at most p. */
  lemma {:induction false} TableSound(d: nat, p: nat)
    ensures forall n :: 0 <= n < |Table(d, p)| ==> |Table(d, p)[n]| == d && Degree(Table(d, p)[n]) <= p
  {
    SuffixSound(d, p, 0);
    if p > 0 {
      TableSound(d, p - 1);
    }
  }

  lemma {:induction false} DegreeZeroOnly(m: MI)
    requires Degree(m) == 0
    ensures m == Zero(|m|)
    decreases |m|
  {
    if |m| > 0 {
      var last := |m| - 1;
      DegreeZeroOnly(m[..last]);
      assert m == m[..last] + [m[last]];
    }
  }

  /** Every multi-index of degree k over d dimensions whose entries before i
      are zero appears in the degree-k suffix from i. */
  lemma {:induction false} SuffixComplete(d: nat, k: nat, i: nat, m: MI)
    requires i <= d && |m| == d && Degree(m) == k && ZeroBelow(m, i)
    ensures m in Suffix(d, k, i)
    decreases k, d - i
  {
    if k == 0 {
      DegreeZeroOnly(m);
    } else if i == d {
      assert m == Zero(d);
      DegreeZero(d);
    } else {
      BlocksSplit(d, k, i, i + 1, d);
      assert Blocks(d, k, i, i + 1) == Block(d, k, i);
      if m[i] == 0 {
        SuffixComplete(d, k, i + 1, m);
      } else {
        var prev := m[i := m[i] - 1];
        assert Inc(prev, i) == m;
        DegreeInc(prev, i);
        SuffixComplete(d, k - 1, i, prev);
        var n :| 0 <= n < |Suffix(d, k - 1, i)| && Suffix(d, k - 1, i)[n] == prev;
        assert Block(d, k, i)[n] == m;
      }
    }
  }

  /** The order-p table lists every multi-index over d dimensions of degree
      at most p: with TableSound, exactly those. */
  lemma {:induction false} TableComplete(d: nat, p: nat, m: MI)
    requires |m| == d && Degree(m) <= p
    ensures m in Table(d, p)
  {
    if Degree(m) == p {
      SuffixComplete(d, p, 0, m);
    } else {
      TableComplete(d, p - 1, m);
    }
  }

  /** No multi-index occurs twice. */
  predicate Distinct(s: seq<MI>)
  {
    forall a, b :: 0 <= a < b < |s| ==> s[a] != s[b]
  }

  lemma DistinctAppend(x: seq<MI>, y: seq<MI>)
    requires Distinct(x) && Distinct(y)
    requires forall a, b :: 0 <= a < |x| && 0 <= b < |y| ==> x[a] != y[b]
    ensures Distinct(x + y)
  {
    forall a, b | 0 <= a < b < |x + y|
      ensures (x + y)[a] != (x + y)[b]
    {
      if b < |x| {
        assert (x + y)[a] == x[a] && (x + y)[b] == x[b];
      } else if a < |x| {
        assert (x + y)[a] == x[a] && (x + y)[b] == y[b - |x|];
      } else {
        assert (x + y)[a] == y[a - |x|] && (x + y)[b] == y[b - |x|];
      }
    }
  }

  lemma IncInjective(m1: MI, m2: MI, i: nat)
    requires |m1| == |m2| && i < |m1|
    ensures Inc(m1, i) == Inc(m2, i) ==> m1 == m2
  {
    if Inc(m1, i) == Inc(m2, i) {
      forall l | 0 <= l < |m1|
        ensures m1[l] == m2[l]
      {
        assert Inc(m1, i)[l] == Inc(m2, i)[l];
      }
    }
  }

  /** Every entry of blocks lo .. hi-1 has a nonzero entry before `hi`. */
  lemma {:induction false} BlocksNonzero(d: nat, k: nat, lo: nat, hi: nat)
    requires 1 <= k && lo <= hi <= d
    ensures forall n :: 0 <= n < |Blocks(d, k, lo, hi)| ==> !ZeroBelow(Blocks(d, k, lo, hi)[n], hi)
    decreases hi
  {
    if lo < hi {
      BlocksNonzero(d, k, lo, hi - 1);
      var x := Blocks(d, k, lo, hi - 1);
      var y := Block(d, k, hi - 1);
      forall n | 0 <= n < |x + y|
        ensures !ZeroBelow((x + y)[n], hi)
      {
        if n < |x| {
          assert (x + y)[n] == x[n];
          assert !ZeroBelow(x[n], hi - 1);
        } else {
          assert (x + y)[n] == y[n - |x|];
          assert y[n - |x|][hi - 1] > 0;
        }
      }
    }
  }

  /** The degree-k suffix from i lists each of its multi-indices once. */
  lemma {:induction false} SuffixDistinct(d: nat, k: nat, i: nat)
    requires i <= d
    ensures Distinct(Suffix(d, k, i))
    decreases k, 2
  {
    if k > 0 {
      BlocksDistinct(d, k, i, d);
    }
  }

  lemma {:induction false} BlockDistinct(d: nat, k: nat, i: nat)
    requires 1 <= k && i < d
    ensures Distinct(Block(d, k, i))
    decreases k, 0
  {
    var s := Suffix(d, k - 1, i);
    SuffixDistinct(d, k - 1, i);
    forall a, b | 0 <= a < b < |s|
      ensures Block(d, k, i)[a] != Block(d, k, i)[b]
    {
      assert s[a] != s[b];
      assert Block(d, k, i)[a] == Inc(s[a], i) && Block(d, k, i)[b] == Inc(s[b], i);
      IncInjective(s[a], s[b], i);
    }
  }

  lemma {:induction false} BlocksDistinct(d: nat, k: nat, lo: nat, hi: nat)
    requires 1 <= k && lo <= hi <= d
    ensures Distinct(Blocks(d, k, lo, hi))
    decreases k, 1, hi
  {
    if lo < hi {
      var x := Blocks(d, k, lo, hi - 1);
      var y := Block(d, k, hi - 1);
      BlocksDistinct(d, k, lo, hi - 1);
      BlockDistinct(d, k, hi - 1);
      BlocksNonzero(d, k, lo, hi - 1);
      SuffixSound(d, k - 1, hi - 1);
      forall a, b | 0 <= a < |x| && 0 <= b < |y|
        ensures x[a] != y[b]
      {
        assert !ZeroBelow(x[a], hi - 1);
        assert ZeroBelow(y[b], hi - 1);
      }
      DistinctAppend(x, y);
    }
  }

  /** The order-p table gives each multi-index one id: with TableSound and
      TableComplete, it enumerates the multi-indices of degree at most p
      exactly once each. */
  lemma {:induction false} TableDistinct(d: nat, p: nat)
    ensures Distinct(Table(d, p))
  {
    SuffixDistinct(d, p, 0);
    if p > 0 {
      TableDistinct(d, p - 1);
      TableSound(d, p - 1);
      SuffixSound(d, p, 0);
      DistinctAppend(Table(d, p - 1), Suffix(d, p, 0));
    }
  }
}
