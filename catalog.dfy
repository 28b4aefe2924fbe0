/**
 * The shared, read-only collaborators of a local expansion: the multi-index
 * catalog (the series-expansion auxiliary object) and the kernel auxiliary
 * object (bandwidth factor and partial derivatives of the kernel).
 */
module Catalogs {
  import opened MultiIndex

  /**
   * Multi-index catalog, fixed once built and shared by every expansion.
   *  - counts[p]: total number of coefficients for truncation order p;
   *  - multiIndex[j]: the multi-index with id j;
   *  - negInvFact[j]: the precomputed negated inverse factorial of id j;
   *  - upper[j]: ids of candidate dominating multi-indices of id j, scanned
   *    in list order by re-centering;
   *  - choose(u, j): the multi-index binomial "u choose j" by position.
   */
  datatype Catalog = Catalog(
    dim: nat,
    maxOrder: nat,
    counts: seq<nat>,
    multiIndex: seq<MI>,
    negInvFact: seq<real>,
    upper: seq<seq<nat>>,
    choose: (nat, nat) -> real)
  {
    /** The catalog enumerates multi-indices in canonical graded order, and
        counts[p] is the number of ids of degree at most p. */
    ghost predicate Valid()
    {
      && |counts| == maxOrder + 1
      && multiIndex == Table(dim, maxOrder)
      && (forall p :: 0 <= p <= maxOrder ==> counts[p] == |Table(dim, p)|)
      && |negInvFact| == |multiIndex|
      && |upper| == |multiIndex|
    }

    /** Each dominance list is in ascending id order. */
    ghost predicate UpperSorted()
    {
      forall j :: 0 <= j < |upper| ==> Sorted(upper[j])
    }

    /** The coefficient count for the catalog's maximum order. */
    function MaxTotalNumCoeffs(): (n: nat)
      requires Valid()
      ensures n == |multiIndex|
      ensures forall p :: 0 <= p <= maxOrder ==> counts[p] <= n
    {
      forall p | 0 <= p <= maxOrder
        ensures counts[p] <= |multiIndex|
      {
        TablePrefix(dim, p, maxOrder);
      }
      counts[maxOrder]
    }

    /** The coefficient count for order p: the first n ids are exactly the
        multi-indices of degree at most p. */
    function TotalNumCoeffs(p: nat): (n: nat)
      requires Valid() && p <= maxOrder
      ensures 1 <= n <= |multiIndex|
      ensures multiIndex[..n] == Table(dim, p)
    {
      TablePrefix(dim, p, maxOrder);
      TablePrefix(dim, 0, p);
      counts[p]
    }

    /** Every id names a different multi-index. */
    lemma IdsDistinct()
      requires Valid()
      ensures Distinct(multiIndex)
    {
      TableDistinct(dim, maxOrder);
    }

    /** Raising the order never shrinks the coefficient range. */
    lemma TotalNumCoeffsMonotone(p: nat, q: nat)
      requires Valid() && p <= q <= maxOrder
      ensures TotalNumCoeffs(p) <= TotalNumCoeffs(q)
    {
      TablePrefix(dim, p, q);
    }
  }

  predicate Sorted(s: seq<nat>)
  {
    forall a, b :: 0 <= a < b < |s| ==> s[a] <= s[b]
  }

  /** Where re-centering's scan of `list` stops: the position of the first
      id at or above `bound`, or the end of the list. */
  function ScanCut(list: seq<nat>, bound: nat): (n: nat)
    ensures n <= |list|
    ensures forall k :: 0 <= k < n ==> list[k] < bound
    ensures n < |list| ==> bound <= list[n]
  {
    if |list| == 0 || bound <= list[0] then 0 else 1 + ScanCut(list[1..], bound)
  }

  /** On a sorted list the early exit drops no id below the bound, and keeps
      none at or above it. */
  lemma SortedScanCut(list: seq<nat>, bound: nat)
    requires Sorted(list)
    ensures forall k :: 0 <= k < |list| ==> (list[k] < bound <==> k < ScanCut(list, bound))
  {
    var n := ScanCut(list, bound);
    forall k | n <= k < |list|
      ensures bound <= list[k]
    {
      assert list[n] <= list[k];
    }
  }

  /** Without the ordering the early exit can drop an id below the bound. */
  lemma UnsortedScanDropsId()
    ensures ScanCut([5, 1], 3) == 0
  {
  }

  /**
   * Kernel auxiliary object: the catalog, the kernel's squared bandwidth, the
   * bandwidth factor that divides displacements, and the partial derivative
   * of the kernel at a (scaled) displacement for a given multi-index. The last
   * two are foreign computations and stay uninterpreted.
   */
  datatype KernelAux = KernelAux(
    cat: Catalog,
    bandwidthSq: real,
    bandwidthFactor: real -> real,
    derivative: (seq<real>, MI) -> real)
  {
    ghost predicate Valid()
    {
      cat.Valid() && forall s :: bandwidthFactor(s) > 0.0
    }
  }
}
