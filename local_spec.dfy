/**
 * What each operation of a local expansion computes, as functions of the
 * expansion's state and its inputs, with their properties: additivity of
 * accumulation over point ranges, linearity of evaluation, additivity of
 * both translations, zero coefficients beyond the order in use, and the
 * soundness of the early exit in re-centering.
 */
module LocalSpec {
  import opened MultiIndex
  import opened Series
  import opened SignSplit
  import opened Catalogs

  /** The parts of a far-field expansion that translation consumes. */
  datatype FarFieldExpansion = FarFieldExpansion(
    center: seq<real>,
    order: int,
    coeffs: seq<real>,
    bandwidthSq: real)

  function Max(a: int, b: int): int
  {
    if a < b then b else a
  }

  function Zeros(n: nat): seq<real>
  {
    seq(n, _ => 0.0)
  }

  /** `(a - b) / h`, dimension by dimension. */
  function Scaled(a: seq<real>, b: seq<real>, h: real): (r: seq<real>)
    requires |a| == |b| && h != 0.0
    ensures |r| == |a|
  {
    seq(|a|, i requires 0 <= i < |a| => (a[i] - b[i]) / h)
  }

  /** The ids an expansion of order `order` does not use hold zero: all of
      them while the expansion is empty. */
  ghost predicate ZeroBeyond(ka: KernelAux, c: seq<real>, order: int)
    requires ka.Valid() && order <= ka.cat.maxOrder
  {
    forall j :: 0 <= j < |c| && (order < 0 || ka.cat.TotalNumCoeffs(order) <= j) ==> c[j] == 0.0
  }

  /** An update that only touches ids below the count for `order` keeps the
      unused ids zero once the order is raised to at least `order`. */
  lemma ZeroBeyondRaised(ka: KernelAux, c: seq<real>, r: seq<real>, prev: int, order: nat)
    requires ka.Valid() && -1 <= prev <= ka.cat.maxOrder && order <= ka.cat.maxOrder
    requires |r| == |c| && ZeroBeyond(ka, c, prev)
    requires forall j :: 0 <= j < |c| && ka.cat.TotalNumCoeffs(order) <= j ==> r[j] == c[j]
    ensures ZeroBeyond(ka, r, Max(prev, order))
  {
    if prev >= 0 {
      ka.cat.TotalNumCoeffsMonotone(prev, Max(prev, order));
    }
    ka.cat.TotalNumCoeffsMonotone(order, Max(prev, order));
  }

  // ---------------------------------------------------------------------
  // Evaluation

  /** The truncated series at query `xq`: zero for an empty expansion,
      otherwise the sum over ids of degree at most `order` of the
      coefficient times the monomial of the scaled displacement
      `(xq - center) / bandwidthFactor`. */
  function SeriesAt(ka: KernelAux, center: seq<real>, c: seq<real>, order: int, xq: seq<real>): real
    requires ka.Valid() && |center| == ka.cat.dim && |xq| == ka.cat.dim
    requires order <= ka.cat.maxOrder && |c| == |ka.cat.multiIndex|
  {
    if order < 0 then 0.0
    else
      var n := ka.cat.TotalNumCoeffs(order);
      var x := Scaled(xq, center, ka.bandwidthFactor(ka.bandwidthSq));
      Dot(c[..n], Monomials(x, ka.cat.multiIndex[..n]))
  }

  /** All-zero coefficients evaluate to zero at every order and query. */
  lemma SeriesOfZeroCoeffs(ka: KernelAux, center: seq<real>, c: seq<real>, order: int, xq: seq<real>)
    requires ka.Valid() && |center| == ka.cat.dim && |xq| == ka.cat.dim
    requires order <= ka.cat.maxOrder && |c| == |ka.cat.multiIndex|
    requires forall j :: 0 <= j < |c| ==> c[j] == 0.0
    ensures SeriesAt(ka, center, c, order, xq) == 0.0
  {
    if order >= 0 {
      var n := ka.cat.TotalNumCoeffs(order);
      var x := Scaled(xq, center, ka.bandwidthFactor(ka.bandwidthSq));
      DotZeroLeft(c[..n], Monomials(x, ka.cat.multiIndex[..n]));
    }
  }

  /** Evaluation is linear in the coefficients (superposition). */
  lemma SeriesAdditive(ka: KernelAux, center: seq<real>, c1: seq<real>, c2: seq<real>, order: int, xq: seq<real>)
    requires ka.Valid() && |center| == ka.cat.dim && |xq| == ka.cat.dim
    requires order <= ka.cat.maxOrder && |c1| == |c2| == |ka.cat.multiIndex|
    ensures SeriesAt(ka, center, AddVec(c1, c2), order, xq)
         == SeriesAt(ka, center, c1, order, xq) + SeriesAt(ka, center, c2, order, xq)
  {
    if order >= 0 {
      var n := ka.cat.TotalNumCoeffs(order);
      var x := Scaled(xq, center, ka.bandwidthFactor(ka.bandwidthSq));
      assert AddVec(c1, c2)[..n] == AddVec(c1[..n], c2[..n]);
      DotAdd(c1[..n], c2[..n], Monomials(x, ka.cat.multiIndex[..n]));
    }
  }

  /** Evaluating at a higher order than the expansion uses gives the same
      value: the extra ids hold zero. */
  lemma SeriesAtHigherOrder(ka: KernelAux, center: seq<real>, c: seq<real>, order: int, q: int, xq: seq<real>)
    requires ka.Valid() && |center| == ka.cat.dim && |xq| == ka.cat.dim
    requires -1 <= order <= q <= ka.cat.maxOrder && |c| == |ka.cat.multiIndex|
    requires ZeroBeyond(ka, c, order)
    ensures SeriesAt(ka, center, c, q, xq) == SeriesAt(ka, center, c, order, xq)
  {
    if q >= 0 {
      var nq := ka.cat.TotalNumCoeffs(q);
      var no := if order < 0 then 0 else ka.cat.TotalNumCoeffs(order);
      if order >= 0 {
        ka.cat.TotalNumCoeffsMonotone(order, q);
      }
      var x := Scaled(xq, center, ka.bandwidthFactor(ka.bandwidthSq));
      var v := Monomials(x, ka.cat.multiIndex[..nq]);
      DotZeroTail(c[..nq], v, no);
      assert c[..nq][..no] == c[..no];
      if order >= 0 {
        assert v[..no] == Monomials(x, ka.cat.multiIndex[..no]);
      }
    }
  }

  // ---------------------------------------------------------------------
  // Accumulation of weighted points

  /** Points `begin .. end-1` exist, carry a weight and live in the
      catalog's dimension. */
  ghost predicate PointsFit(ka: KernelAux, data: seq<seq<real>>, weights: seq<real>, begin: nat, end: nat)
  {
    begin < end ==>
      && end <= |data|
      && end <= |weights|
      && forall r :: begin <= r < end ==> |data[r]| == ka.cat.dim
  }

  /** What point `r` adds to coefficient `j`: the negated inverse factorial
      of `j`, times the weight, times the partial derivative for multi-index
      `j` at `(center - point) / bandwidthFactor`. */
  function PointTerm(ka: KernelAux, center: seq<real>, data: seq<seq<real>>, weights: seq<real>, j: nat, r: nat): real
    requires ka.Valid() && |center| == ka.cat.dim && j < |ka.cat.multiIndex|
    requires r < |data| && r < |weights| && |data[r]| == ka.cat.dim
  {
    var x := Scaled(center, data[r], ka.bandwidthFactor(ka.bandwidthSq));
    ka.cat.negInvFact[j] * weights[r] * ka.derivative(x, ka.cat.multiIndex[j])
  }

  /** The terms of points `begin .. end-1` for coefficient `j`, added in
      point order. */
  function Contribution(ka: KernelAux, center: seq<real>, data: seq<seq<real>>, weights: seq<real>,
                        j: nat, begin: nat, end: nat): real
    requires ka.Valid() && |center| == ka.cat.dim && j < |ka.cat.multiIndex|
    requires PointsFit(ka, data, weights, begin, end)
    decreases end
  {
    if end <= begin then 0.0
    else Contribution(ka, center, data, weights, j, begin, end - 1) + PointTerm(ka, center, data, weights, j, end - 1)
  }

  /** The coefficients after accumulating points `begin .. end-1` at the
      requested `order`: ids below the count for `order` gain their
      contribution, all others keep their value. */
  function Accumulated(ka: KernelAux, center: seq<real>, c: seq<real>, data: seq<seq<real>>, weights: seq<real>,
                       begin: nat, end: nat, order: nat): (r: seq<real>)
    requires ka.Valid() && |center| == ka.cat.dim && |c| == |ka.cat.multiIndex| && order <= ka.cat.maxOrder
    requires PointsFit(ka, data, weights, begin, end)
    ensures |r| == |c|
  {
    var n := ka.cat.TotalNumCoeffs(order);
    seq(|c|, j requires 0 <= j < |c| =>
      if j < n then c[j] + Contribution(ka, center, data, weights, j, begin, end) else c[j])
  }

  /** The coefficients `c` with point `r`'s term added to every id below the
      count for `order`. */
  function WithPoint(ka: KernelAux, center: seq<real>, c: seq<real>, data: seq<seq<real>>, weights: seq<real>,
                     r: nat, order: nat): (res: seq<real>)
    requires ka.Valid() && |center| == ka.cat.dim && |c| == |ka.cat.multiIndex| && order <= ka.cat.maxOrder
    requires r < |data| && r < |weights| && |data[r]| == ka.cat.dim
    ensures |res| == |c|
  {
    var n := ka.cat.TotalNumCoeffs(order);
    seq(|c|, j requires 0 <= j < |c| => if j < n then c[j] + PointTerm(ka, center, data, weights, j, r) else c[j])
  }

  /** Accumulating one more point is adding its term. */
  lemma AccumulatedStep(ka: KernelAux, center: seq<real>, c: seq<real>, data: seq<seq<real>>, weights: seq<real>,
                        begin: nat, r: nat, order: nat)
    requires ka.Valid() && |center| == ka.cat.dim && |c| == |ka.cat.multiIndex| && order <= ka.cat.maxOrder
    requires begin <= r && PointsFit(ka, data, weights, begin, r + 1)
    ensures PointsFit(ka, data, weights, begin, r)
    ensures Accumulated(ka, center, c, data, weights, begin, r + 1, order)
         == WithPoint(ka, center, Accumulated(ka, center, c, data, weights, begin, r, order), data, weights, r, order)
  {
  }

  /** Splitting a point range splits its contribution. */
  lemma {:induction false} ContributionSplit(ka: KernelAux, center: seq<real>, data: seq<seq<real>>, weights: seq<real>,
                                             j: nat, begin: nat, mid: nat, end: nat)
    requires ka.Valid() && |center| == ka.cat.dim && j < |ka.cat.multiIndex|
    requires begin <= mid <= end && PointsFit(ka, data, weights, begin, end)
    ensures PointsFit(ka, data, weights, begin, mid) && PointsFit(ka, data, weights, mid, end)
    ensures Contribution(ka, center, data, weights, j, begin, end)
         == Contribution(ka, center, data, weights, j, begin, mid) + Contribution(ka, center, data, weights, j, mid, end)
    decreases end
  {
    if mid < end {
      ContributionSplit(ka, center, data, weights, j, begin, mid, end - 1);
    }
  }

  /** Accumulating `[begin, mid)` and then `[mid, end)` gives the same
      coefficients as accumulating `[begin, end)` once. */
  lemma AccumulateInTwoSteps(ka: KernelAux, center: seq<real>, c: seq<real>, data: seq<seq<real>>, weights: seq<real>,
                             begin: nat, mid: nat, end: nat, order: nat)
    requires ka.Valid() && |center| == ka.cat.dim && |c| == |ka.cat.multiIndex| && order <= ka.cat.maxOrder
    requires begin <= mid <= end && PointsFit(ka, data, weights, begin, end)
    ensures PointsFit(ka, data, weights, begin, mid) && PointsFit(ka, data, weights, mid, end)
    ensures Accumulated(ka, center, Accumulated(ka, center, c, data, weights, begin, mid, order), data, weights, mid, end, order)
         == Accumulated(ka, center, c, data, weights, begin, end, order)
  {
    var n := ka.cat.TotalNumCoeffs(order);
    forall j | 0 <= j < n
      ensures Contribution(ka, center, data, weights, j, begin, end)
           == Contribution(ka, center, data, weights, j, begin, mid) + Contribution(ka, center, data, weights, j, mid, end)
    {
      ContributionSplit(ka, center, data, weights, j, begin, mid, end);
    }
    ContributionSplit(ka, center, data, weights, 0, begin, mid, end);
  }

  /** Accumulation adds to the coefficients it finds: it equals the old
      coefficients plus what the same points give a zeroed expansion. */
  lemma AccumulatedIsIncrement(ka: KernelAux, center: seq<real>, c: seq<real>, data: seq<seq<real>>, weights: seq<real>,
                               begin: nat, end: nat, order: nat)
    requires ka.Valid() && |center| == ka.cat.dim && |c| == |ka.cat.multiIndex| && order <= ka.cat.maxOrder
    requires PointsFit(ka, data, weights, begin, end)
    ensures Accumulated(ka, center, c, data, weights, begin, end, order)
         == AddVec(c, Accumulated(ka, center, Zeros(|c|), data, weights, begin, end, order))
  {
  }

  /** Superposition: the accumulated expansion evaluates to the old value
      plus the value of the accumulated points alone. */
  lemma AccumulateThenEvaluate(ka: KernelAux, center: seq<real>, c: seq<real>, data: seq<seq<real>>, weights: seq<real>,
                               begin: nat, end: nat, order: nat, evalOrder: int, xq: seq<real>)
    requires ka.Valid() && |center| == ka.cat.dim && |c| == |ka.cat.multiIndex| && order <= ka.cat.maxOrder
    requires PointsFit(ka, data, weights, begin, end)
    requires evalOrder <= ka.cat.maxOrder && |xq| == ka.cat.dim
    ensures SeriesAt(ka, center, Accumulated(ka, center, c, data, weights, begin, end, order), evalOrder, xq)
         == SeriesAt(ka, center, c, evalOrder, xq)
          + SeriesAt(ka, center, Accumulated(ka, center, Zeros(|c|), data, weights, begin, end, order), evalOrder, xq)
  {
    AccumulatedIsIncrement(ka, center, c, data, weights, begin, end, order);
    SeriesAdditive(ka, center, c, Accumulated(ka, center, Zeros(|c|), data, weights, begin, end, order), evalOrder, xq);
  }

  /** Accumulation at order `order` keeps the unused ids zero for the raised
      order. */
  lemma AccumulatedZeroBeyond(ka: KernelAux, center: seq<real>, c: seq<real>, data: seq<seq<real>>, weights: seq<real>,
                              begin: nat, end: nat, prev: int, order: nat)
    requires ka.Valid() && |center| == ka.cat.dim && |c| == |ka.cat.multiIndex| && order <= ka.cat.maxOrder
    requires PointsFit(ka, data, weights, begin, end)
    requires -1 <= prev <= ka.cat.maxOrder && ZeroBeyond(ka, c, prev)
    ensures ZeroBeyond(ka, Accumulated(ka, center, c, data, weights, begin, end, order), Max(prev, order))
  {
    ZeroBeyondRaised(ka, c, Accumulated(ka, center, c, data, weights, begin, end, order), prev, order);
  }

  // ---------------------------------------------------------------------
  // Translation from a far-field expansion

  ghost predicate FarFits(ka: KernelAux, far: FarFieldExpansion)
    requires ka.Valid()
  {
    && |far.center| == ka.cat.dim
    && 0 <= far.order <= ka.cat.maxOrder
    && ka.cat.TotalNumCoeffs(far.order) <= |far.coeffs|
  }

  /** For target id `j`, the products of every far-field coefficient `k`
      with the derivative for multi-index `beta_j + alpha_k` at the scaled
      center difference `cd`, in `k` order. */
  function FarTerms(ka: KernelAux, cd: seq<real>, far: FarFieldExpansion, j: nat): (r: seq<real>)
    requires ka.Valid() && FarFits(ka, far) && j < |ka.cat.multiIndex|
    ensures |r| == ka.cat.TotalNumCoeffs(far.order)
  {
    var mi := ka.cat.multiIndex;
    var n := ka.cat.TotalNumCoeffs(far.order);
    seq(n, k requires 0 <= k < n => far.coeffs[k] * ka.derivative(cd, Add(mi[j], mi[k])))
  }

  /** The scaled center difference `(center - farCenter) / factor`, with the
      bandwidth factor of the far-field expansion's bandwidth. */
  function FarDisplacement(ka: KernelAux, center: seq<real>, far: FarFieldExpansion): (r: seq<real>)
    requires ka.Valid() && |center| == ka.cat.dim && FarFits(ka, far)
    ensures |r| == ka.cat.dim
  {
    Scaled(center, far.center, ka.bandwidthFactor(far.bandwidthSq))
  }

  /** The coefficients after translating `far` in: ids below the far
      order's count gain the sum of their products times their negated
      inverse factorial; all others keep their value. */
  function FromFarField(ka: KernelAux, center: seq<real>, c: seq<real>, far: FarFieldExpansion): (r: seq<real>)
    requires ka.Valid() && |center| == ka.cat.dim && |c| == |ka.cat.multiIndex| && FarFits(ka, far)
    ensures |r| == |c|
  {
    var n := ka.cat.TotalNumCoeffs(far.order);
    var cd := FarDisplacement(ka, center, far);
    seq(|c|, j requires 0 <= j < |c| =>
      if j < n then c[j] + Sum(FarTerms(ka, cd, far, j)) * ka.cat.negInvFact[j] else c[j])
  }

  /** Two far-field sources can be translated in either order. */
  lemma FromFarFieldCommutes(ka: KernelAux, center: seq<real>, c: seq<real>, f1: FarFieldExpansion, f2: FarFieldExpansion)
    requires ka.Valid() && |center| == ka.cat.dim && |c| == |ka.cat.multiIndex|
    requires FarFits(ka, f1) && FarFits(ka, f2)
    ensures FromFarField(ka, center, FromFarField(ka, center, c, f1), f2)
         == FromFarField(ka, center, FromFarField(ka, center, c, f2), f1)
  {
  }

  /** Translation adds to the coefficients it finds. */
  lemma FromFarFieldIsIncrement(ka: KernelAux, center: seq<real>, c: seq<real>, far: FarFieldExpansion)
    requires ka.Valid() && |center| == ka.cat.dim && |c| == |ka.cat.multiIndex| && FarFits(ka, far)
    ensures FromFarField(ka, center, c, far) == AddVec(c, FromFarField(ka, center, Zeros(|c|), far))
  {
  }

  /** Far-field translation keeps the unused ids zero for the raised order. */
  lemma FromFarFieldZeroBeyond(ka: KernelAux, center: seq<real>, c: seq<real>, far: FarFieldExpansion, prev: int)
    requires ka.Valid() && |center| == ka.cat.dim && |c| == |ka.cat.multiIndex| && FarFits(ka, far)
    requires -1 <= prev <= ka.cat.maxOrder && ZeroBeyond(ka, c, prev)
    ensures ZeroBeyond(ka, FromFarField(ka, center, c, far), Max(prev, far.order))
  {
    ZeroBeyondRaised(ka, c, FromFarField(ka, center, c, far), prev, far.order);
  }

  // ---------------------------------------------------------------------
  // Re-centering into another local expansion

  /** The term source id `u` gives target id `j`: when `beta_u` dominates
      `alpha_j`, the source coefficient times `cd^(beta - alpha)` times the
      choose coefficient; otherwise nothing. */
  function RecenterTerm(cat: Catalog, c: seq<real>, cd: seq<real>, u: nat, j: nat): real
    requires cat.Valid() && u < |c| && u < |cat.multiIndex| && j < |cat.multiIndex| && |cd| == cat.dim
  {
    var beta := cat.multiIndex[u];
    var alpha := cat.multiIndex[j];
    if Dominates(beta, alpha) then c[u] * Mono(cd, Diff(beta, alpha)) * cat.choose(u, j) else 0.0
  }

  /** The terms of the dominance list of `j` up to the first id at or above
      `total`, in list order. */
  function ScanTerms(cat: Catalog, c: seq<real>, cd: seq<real>, total: nat, j: nat): (r: seq<real>)
    requires cat.Valid() && j < |cat.multiIndex| && total <= |c| && total <= |cat.multiIndex| && |cd| == cat.dim
    ensures |r| == ScanCut(cat.upper[j], total)
  {
    var list := cat.upper[j];
    var cut := ScanCut(list, total);
    seq(cut, k requires 0 <= k < cut => RecenterTerm(cat, c, cd, list[k], j))
  }

  /** The terms of every id below `total` anywhere in the dominance list of
      `j`: what the scan would collect without an early exit. */
  function FilterTerms(cat: Catalog, c: seq<real>, cd: seq<real>, total: nat, j: nat): (r: seq<real>)
    requires cat.Valid() && j < |cat.multiIndex| && total <= |c| && total <= |cat.multiIndex| && |cd| == cat.dim
    ensures |r| == |cat.upper[j]|
  {
    var list := cat.upper[j];
    seq(|list|, k requires 0 <= k < |list| => if list[k] < total then RecenterTerm(cat, c, cd, list[k], j) else 0.0)
  }

  /** With an ascending dominance list, stopping at the first id at or above
      `total` loses no term: the early exit is exact. */
  lemma EarlyExitIsExact(cat: Catalog, c: seq<real>, cd: seq<real>, total: nat, j: nat)
    requires cat.Valid() && j < |cat.multiIndex| && total <= |c| && total <= |cat.multiIndex| && |cd| == cat.dim
    requires Sorted(cat.upper[j])
    ensures Sum(ScanTerms(cat, c, cd, total, j)) == Sum(FilterTerms(cat, c, cd, total, j))
  {
    var list := cat.upper[j];
    var cut := ScanCut(list, total);
    SortedScanCut(list, total);
    var scan := ScanTerms(cat, c, cd, total, j);
    var filter := FilterTerms(cat, c, cd, total, j);
    var rest := filter[cut..];
    assert filter == scan + rest;
    SumOfZeros(rest);
    SumAppend(scan, rest);
  }

  /** The scaled center difference `(dstCenter - center) / factor`. */
  function RecenterDisplacement(ka: KernelAux, center: seq<real>, dstCenter: seq<real>): (r: seq<real>)
    requires ka.Valid() && |center| == ka.cat.dim && |dstCenter| == ka.cat.dim
    ensures |r| == ka.cat.dim
  {
    Scaled(dstCenter, center, ka.bandwidthFactor(ka.bandwidthSq))
  }

  /** The target's coefficients after re-centering a source of order `order`
      into it: ids below the source order's count gain the sum of their scan
      terms; all others keep their value. */
  function Translated(ka: KernelAux, center: seq<real>, c: seq<real>, order: nat, dstCenter: seq<real>, dc: seq<real>): (r: seq<real>)
    requires ka.Valid() && |center| == ka.cat.dim && |dstCenter| == ka.cat.dim
    requires |c| == |ka.cat.multiIndex| && |dc| == |ka.cat.multiIndex| && order <= ka.cat.maxOrder
    ensures |r| == |dc|
  {
    var n := ka.cat.TotalNumCoeffs(order);
    var cd := RecenterDisplacement(ka, center, dstCenter);
    seq(|dc|, j requires 0 <= j < |dc| => if j < n then dc[j] + Sum(ScanTerms(ka.cat, c, cd, n, j)) else dc[j])
  }

  /** With every dominance list in ascending order, re-centering adds to each
      target id below the count the full sum of its terms over every listed
      id below the count, wherever it stands in the list. */
  lemma TranslatedIsFullSum(ka: KernelAux, center: seq<real>, c: seq<real>, order: nat, dstCenter: seq<real>, dc: seq<real>)
    requires ka.Valid() && |center| == ka.cat.dim && |dstCenter| == ka.cat.dim
    requires |c| == |ka.cat.multiIndex| && |dc| == |ka.cat.multiIndex| && order <= ka.cat.maxOrder
    requires ka.cat.UpperSorted()
    ensures forall j :: 0 <= j < ka.cat.TotalNumCoeffs(order) ==>
              Translated(ka, center, c, order, dstCenter, dc)[j]
              == dc[j] + Sum(FilterTerms(ka.cat, c, RecenterDisplacement(ka, center, dstCenter), ka.cat.TotalNumCoeffs(order), j))
  {
    var n := ka.cat.TotalNumCoeffs(order);
    var cd := RecenterDisplacement(ka, center, dstCenter);
    forall j | 0 <= j < n
      ensures Sum(ScanTerms(ka.cat, c, cd, n, j)) == Sum(FilterTerms(ka.cat, c, cd, n, j))
    {
      EarlyExitIsExact(ka.cat, c, cd, n, j);
    }
  }

  /** Re-centering adds to the target's coefficients; it overwrites none. */
  lemma TranslatedIsIncrement(ka: KernelAux, center: seq<real>, c: seq<real>, order: nat, dstCenter: seq<real>, dc: seq<real>)
    requires ka.Valid() && |center| == ka.cat.dim && |dstCenter| == ka.cat.dim
    requires |c| == |ka.cat.multiIndex| && |dc| == |ka.cat.multiIndex| && order <= ka.cat.maxOrder
    ensures Translated(ka, center, c, order, dstCenter, dc)
         == AddVec(dc, Translated(ka, center, c, order, dstCenter, Zeros(|dc|)))
  {
  }

  /** Re-centering a source of order `order` keeps the target's unused ids
      zero for the target's raised order. */
  lemma TranslatedZeroBeyond(ka: KernelAux, center: seq<real>, c: seq<real>, order: nat, dstCenter: seq<real>,
                             dc: seq<real>, prev: int)
    requires ka.Valid() && |center| == ka.cat.dim && |dstCenter| == ka.cat.dim
    requires |c| == |ka.cat.multiIndex| && |dc| == |ka.cat.multiIndex| && order <= ka.cat.maxOrder
    requires -1 <= prev <= ka.cat.maxOrder && ZeroBeyond(ka, dc, prev)
    ensures ZeroBeyond(ka, Translated(ka, center, c, order, dstCenter, dc), Max(prev, order))
  {
    ZeroBeyondRaised(ka, dc, Translated(ka, center, c, order, dstCenter, dc), prev, order);
  }
}
