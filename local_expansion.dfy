/**
 * The local (Taylor) expansion: a center, a truncation order (-1 for an
 * empty expansion) and a coefficient buffer sized for the catalog's maximum
 * order, updated in place by accumulation and translation.
 */
module LocalExpansions {
  import opened MultiIndex
  import opened Series
  import opened SignSplit
  import opened Catalogs
  import opened LocalSpec

  /** Sentinel stored after the last per-dimension head cursor. */
  const UINT_MAX: int := 4294967295

  /** Writes the scaled displacement `(a - b) / h` into `x`. */
  method ScaledInto(x: array<real>, a: seq<real>, b: seq<real>, h: real)
    requires x.Length == |a| == |b| && h > 0.0
    modifies x
    ensures x[..] == Scaled(a, b, h)
  {
    for d := 0 to x.Length
      invariant forall e :: 0 <= e < d ==> x[e] == (a[e] - b[e]) / h
    {
      x[d] := (a[d] - b[d]) / h;
    }
  }

  /** Block `i` of degree `k`: appends at `t` the entries `head .. tail-1`
      (the degree-(k-1) suffix from i) multiplied by `x[i]`. */
  method ExtendBlock(x: array<real>, order: nat, k: nat, i: nat, head: int, tail: nat, t0: nat, tmp: array<real>)
      returns (t: nat)
    requires 1 <= k <= order && i < x.Length && x != tmp
    requires tmp.Length == |Table(x.Length, order)|
    requires tail == |Table(x.Length, k - 1)| <= |Table(x.Length, order)| && 0 <= head <= tail
    requires Table(x.Length, order)[head..tail] == Suffix(x.Length, k - 1, i)
    requires t0 == tail + |Blocks(x.Length, k, 0, i)|
    requires forall n :: 0 <= n < t0 && n < tmp.Length ==> tmp[n] == Mono(x[..], Table(x.Length, order)[n])
    modifies tmp
    ensures t == tail + |Blocks(x.Length, k, 0, i + 1)| <= tmp.Length
    ensures forall n :: 0 <= n < t ==> tmp[n] == Mono(x[..], Table(x.Length, order)[n])
  {
    ghost var xs := x[..];
    ghost var E := Table(x.Length, order);
    BlockExtent(x.Length, order, k, i);
    t := t0;
    var j := head;
    while j < tail
      invariant head <= j <= tail
      invariant t == t0 + (j - head)
      invariant forall n :: 0 <= n < t ==> tmp[n] == Mono(xs, E[n])
    {
      RecurrenceStep(xs, order, k, i, head, j);
      tmp[t] := tmp[j] * x[i];
      j, t := j + 1, t + 1;
    }
  }

  /** Degree `k` of the recurrence: the blocks for dimensions 0 .. d-1 in
      turn, each head moved to where its block starts. */
  method ExtendDegree(x: array<real>, order: nat, k: nat, tail: nat, heads: array<int>, tmp: array<real>)
      returns (t: nat)
    requires 1 <= k <= order && heads.Length == x.Length + 1 && x != tmp
    requires tmp.Length == |Table(x.Length, order)|
    requires tail == |Table(x.Length, k - 1)| <= tmp.Length
    requires forall n :: 0 <= n < tail ==> tmp[n] == Mono(x[..], Table(x.Length, order)[n])
    requires forall i :: 0 <= i < x.Length ==>
               0 <= heads[i] <= tail && Table(x.Length, order)[heads[i]..tail] == Suffix(x.Length, k - 1, i)
    modifies heads, tmp
    ensures t == |Table(x.Length, k)| <= tmp.Length
    ensures forall n :: 0 <= n < t ==> tmp[n] == Mono(x[..], Table(x.Length, order)[n])
    ensures forall i :: 0 <= i < x.Length ==>
              0 <= heads[i] <= t && Table(x.Length, order)[heads[i]..t] == Suffix(x.Length, k, i)
    ensures heads[x.Length] == old(heads[x.Length])
  {
    var dim := x.Length;
    ghost var xs := x[..];
    ghost var E := Table(dim, order);
    ghost var hs := heads[..];
    LevelSlice(dim, order, k, 0);
    t := tail;
    for i := 0 to dim
      invariant x[..] == xs
      invariant t == tail + |Blocks(dim, k, 0, i)| <= |E|
      invariant forall n :: 0 <= n < t ==> tmp[n] == Mono(xs, E[n])
      invariant forall i' :: 0 <= i' < i ==> heads[i'] == tail + |Blocks(dim, k, 0, i')|
      invariant forall i' :: i <= i' <= dim ==> heads[i'] == hs[i']
    {
      var head := heads[i];
      heads[i] := t;
      t := ExtendBlock(x, order, k, i, head, tail, t, tmp);
    }
    HeadsAfterDegree(dim, order, k, heads[..]);
  }

  /**
   * Fills `tmp` with the monomials of `x` for every multi-index of degree at
   * most `order`, in catalog order, by the heads recurrence: for each degree
   * k and dimension i, the entries from `heads[i]` up to the end of degree
   * k-1 (the degree-(k-1) suffix from i) are multiplied by `x[i]` and
   * appended, and `heads[i]` moves to where they start.
   */
  method MonomialsInto(x: array<real>, order: nat, tmp: array<real>)
    requires tmp.Length == |Table(x.Length, order)| && x != tmp
    modifies tmp
    ensures forall n :: 0 <= n < tmp.Length ==> tmp[n] == Mono(x[..], Table(x.Length, order)[n])
  {
    var dim := x.Length;
    ghost var xs := x[..];
    ghost var E := Table(dim, order);
    var heads := new int[dim + 1];
    for i := 0 to dim
      invariant forall i' :: 0 <= i' < i ==> heads[i'] == 0
    {
      heads[i] := 0;
    }
    heads[dim] := UINT_MAX;

    TablePrefix(dim, 0, order);
    MonoOfZero(xs);
    tmp[0] := 1.0;

    var k, t, tail := 1, 1, 1;
    while k <= order
      invariant 1 <= k <= order + 1
      invariant x[..] == xs
      invariant tail == t == |Table(dim, k - 1)| <= |E|
      invariant forall n :: 0 <= n < t ==> tmp[n] == Mono(xs, E[n])
      invariant forall i :: 0 <= i < dim ==> 0 <= heads[i] <= tail && E[heads[i]..tail] == Suffix(dim, k - 1, i)
      invariant heads[dim] == UINT_MAX
    {
      t := ExtendDegree(x, order, k, tail, heads, tmp);
      TablePrefix(dim, k, order);
      k, tail := k + 1, t;
    }
  }

  /** The dot product of the first `v.Length` entries of `c` with `v`,
      added left to right. */
  method DotPrefix(c: array<real>, v: array<real>) returns (sum: real)
    requires v.Length <= c.Length
    ensures sum == Dot(c[..v.Length], v[..])
  {
    sum := 0.0;
    for i := 0 to v.Length
      invariant sum == Dot(c[..i], v[..i])
    {
      DotStep(c[..v.Length], v[..], i);
      assert c[..v.Length][..i + 1] == c[..i + 1] && c[..v.Length][..i] == c[..i];
      sum := sum + c[i] * v[i];
    }
    assert v[..v.Length] == v[..];
  }

  /** Writes the multi-index sum `beta + alpha` into `bpa`. */
  method AddInto(bpa: array<nat>, beta: MI, alpha: MI)
    requires bpa.Length == |beta| == |alpha|
    modifies bpa
    ensures bpa[..] == Add(beta, alpha)
  {
    for d := 0 to bpa.Length
      invariant forall e :: 0 <= e < d ==> bpa[e] == beta[e] + alpha[e]
    {
      bpa[d] := beta[d] + alpha[d];
    }
  }

  /** Writes `beta - alpha` into `tmp` dimension by dimension and stops at
      the first negative entry: the result says whether one was found. */
  method DiffInto(tmp: array<int>, beta: MI, alpha: MI) returns (negative: bool)
    requires tmp.Length == |beta| == |alpha|
    modifies tmp
    ensures negative <==> !Dominates(beta, alpha)
    ensures !negative ==> forall l :: 0 <= l < tmp.Length ==> tmp[l] == beta[l] as int - alpha[l] as int
  {
    negative := false;
    var l := 0;
    while l < tmp.Length
      invariant 0 <= l <= tmp.Length
      invariant forall e :: 0 <= e < l ==> tmp[e] == beta[e] as int - alpha[e] as int && alpha[e] <= beta[e]
    {
      tmp[l] := beta[l] as int - alpha[l] as int;
      if tmp[l] < 0 {
        negative := true;
        break;
      }
      l := l + 1;
    }
  }

  /** The product of `pow(cd[l], tmp[l])` over the dimensions, in order: the
      monomial of `cd` for the difference `beta - alpha` held in `tmp`. */
  method PowProduct(cd: array<real>, tmp: array<int>, ghost beta: MI, ghost alpha: MI) returns (diff1: real)
    requires cd.Length == tmp.Length == |alpha| && Dominates(beta, alpha)
    requires forall l :: 0 <= l < tmp.Length ==> tmp[l] == beta[l] as int - alpha[l] as int
    ensures diff1 == Mono(cd[..], Diff(beta, alpha))
  {
    ghost var m := Diff(beta, alpha);
    diff1 := 1.0;
    for l := 0 to cd.Length
      invariant diff1 == MonoUpTo(cd[..], m, l)
    {
      diff1 := diff1 * Pow(cd[l], tmp[l]);
    }
  }

  class LocalExpansion {
    const ka: KernelAux
    const center: seq<real>
    var order: int
    const coeffs: array<real>

    /** The invariant of every expansion: sized for its catalog, and zero at
        every id its order does not use. */
    ghost predicate Valid()
      reads this, coeffs
    {
      Sized() && ZeroBeyond(ka, coeffs[..], order)
    }

    ghost predicate Sized()
      reads this
    {
      && ka.Valid()
      && |center| == ka.cat.dim
      && -1 <= order <= ka.cat.maxOrder
      && coeffs.Length == ka.cat.MaxTotalNumCoeffs()
    }

    /** Init with an explicit center: empty, all coefficients zero. */
    constructor InitWithCenter(center: seq<real>, ka: KernelAux)
      requires ka.Valid() && |center| == ka.cat.dim
      ensures Valid() && fresh(coeffs)
      ensures this.ka == ka && this.center == center && order == -1
      ensures forall j :: 0 <= j < coeffs.Length ==> coeffs[j] == 0.0
    {
      this.ka := ka;
      this.center := center;
      order := -1;
      coeffs := new real[ka.cat.MaxTotalNumCoeffs()](_ => 0.0);
    }

    /** Init from the kernel auxiliary object alone: the center gets the
        catalog's dimension but its entries are not specified. */
    constructor Init(ka: KernelAux)
      requires ka.Valid()
      ensures Valid() && fresh(coeffs)
      ensures this.ka == ka && |center| == ka.cat.dim && order == -1
      ensures forall j :: 0 <= j < coeffs.Length ==> coeffs[j] == 0.0
    {
      this.ka := ka;
      order := -1;
      center := Zeros(ka.cat.dim);
      coeffs := new real[ka.cat.MaxTotalNumCoeffs()](_ => 0.0);
    }

    /** The kernel derivatives at the displacement in `x`, one per id below
        `arrtmp.Length`. */
    method DerivativesInto(x: array<real>, arrtmp: array<real>)
      requires Sized() && arrtmp.Length <= coeffs.Length && x != arrtmp
      modifies arrtmp
      ensures forall i :: 0 <= i < arrtmp.Length ==> arrtmp[i] == ka.derivative(x[..], ka.cat.multiIndex[i])
    {
      for j := 0 to arrtmp.Length
        invariant forall i :: 0 <= i < j ==> arrtmp[i] == ka.derivative(x[..], ka.cat.multiIndex[i])
      {
        arrtmp[j] := ka.derivative(x[..], ka.cat.multiIndex[j]);
      }
    }

    /** One pass of the accumulation loop: the scaled displacement of point
        `r` goes into `x`, the kernel derivatives at it into `arrtmp`, and
        point `r`'s term is added to each of the first `total` coefficients. */
    method AddPointTerms(data: seq<seq<real>>, weights: seq<real>, r: nat, reqOrder: nat, total: nat,
                         x: array<real>, arrtmp: array<real>)
      requires Sized() && reqOrder <= ka.cat.maxOrder && total == ka.cat.TotalNumCoeffs(reqOrder)
      requires r < |data| && r < |weights| && |data[r]| == ka.cat.dim
      requires x.Length == ka.cat.dim && arrtmp.Length == total
      requires x != arrtmp && x != coeffs && arrtmp != coeffs
      modifies x, arrtmp, coeffs
      ensures coeffs[..] == WithPoint(ka, center, old(coeffs[..]), data, weights, r, reqOrder)
    {
      var h := ka.bandwidthFactor(ka.bandwidthSq);
      ghost var xs := Scaled(center, data[r], h);
      ScaledInto(x, center, data[r], h);

      DerivativesInto(x, arrtmp);

      for j := 0 to total
        modifies coeffs
        invariant forall i :: 0 <= i < j ==> coeffs[i] == old(coeffs[i]) + PointTerm(ka, center, data, weights, i, r)
        invariant forall i :: j <= i < coeffs.Length ==> coeffs[i] == old(coeffs[i])
      {
        coeffs[j] := coeffs[j] + ka.cat.negInvFact[j] * weights[r] * arrtmp[j];
      }
    }

    /** Folds points `begin .. end-1` into the coefficients for `reqOrder`. */
    method AccumulateCoeffs(data: seq<seq<real>>, weights: seq<real>, begin: nat, end: nat, reqOrder: nat)
      requires Valid()
      requires reqOrder <= ka.cat.maxOrder
      requires PointsFit(ka, data, weights, begin, end)
      modifies this`order, coeffs
      ensures Valid()
      ensures order == Max(old(order), reqOrder)
      ensures coeffs[..] == Accumulated(ka, center, old(coeffs[..]), data, weights, begin, end, reqOrder)
    {
      if reqOrder > order {
        order := reqOrder;
      }
      AccumulatePoints(data, weights, begin, end, reqOrder);
      AccumulatedZeroBeyond(ka, center, old(coeffs[..]), data, weights, begin, end, old(order), reqOrder);
    }

    /** The point loop of the accumulation: points `begin .. end-1` in turn. */
    method AccumulatePoints(data: seq<seq<real>>, weights: seq<real>, begin: nat, end: nat, reqOrder: nat)
      requires Sized() && reqOrder <= ka.cat.maxOrder
      requires PointsFit(ka, data, weights, begin, end)
      modifies coeffs
      ensures coeffs[..] == Accumulated(ka, center, old(coeffs[..]), data, weights, begin, end, reqOrder)
    {
      var total := ka.cat.TotalNumCoeffs(reqOrder);
      var arrtmp := new real[total];
      var x := new real[ka.cat.dim];
      ghost var c0 := coeffs[..];

      var r := begin;
      while r < end
        invariant begin <= r && (r <= end || r == begin)
        invariant PointsFit(ka, data, weights, begin, r)
        invariant coeffs[..] == Accumulated(ka, center, c0, data, weights, begin, r, reqOrder)
      {
        AccumulatedStep(ka, center, c0, data, weights, begin, r, reqOrder);
        ghost var before := coeffs[..];
        AddPointTerms(data, weights, r, reqOrder, total, x, arrtmp);
        assert coeffs[..] == WithPoint(ka, center, before, data, weights, r, reqOrder);
        assert coeffs[..] == Accumulated(ka, center, c0, data, weights, begin, r + 1, reqOrder);
        r := r + 1;
      }
    }

    /** The value of the truncated series at query `xq`. */
    method EvaluateField(xq: seq<real>) returns (sum: real)
      requires Valid() && |xq| == ka.cat.dim
      ensures sum == SeriesAt(ka, center, coeffs[..], order, xq)
    {
      if order < 0 {
        return 0.0;
      }
      var total := ka.cat.TotalNumCoeffs(order);
      var h := ka.bandwidthFactor(ka.bandwidthSq);
      var x := new real[ka.cat.dim];
      ScaledInto(x, xq, center, h);
      var tmp := new real[total];
      MonomialsInto(x, order, tmp);
      assert tmp[..] == Monomials(x[..], ka.cat.multiIndex[..total]);

      sum := DotPrefix(coeffs, tmp);
    }

    /** The positive and the non-positive products of target id `j` with
        every far-field coefficient, summed separately in `k` order. */
    method FarTermSums(far: FarFieldExpansion, cd: array<real>, bpa: array<nat>, j: nat, total: nat)
        returns (pos: real, neg: real)
      requires Sized() && FarFits(ka, far) && total == ka.cat.TotalNumCoeffs(far.order) && j < total
      requires cd.Length == ka.cat.dim && bpa.Length == ka.cat.dim
      modifies bpa
      ensures pos == PosPart(FarTerms(ka, cd[..], far, j))
      ensures neg == NegPart(FarTerms(ka, cd[..], far, j))
    {
      var mi := ka.cat.multiIndex;
      ghost var terms := FarTerms(ka, cd[..], far, j);
      pos, neg := 0.0, 0.0;
      for k := 0 to total
        invariant pos == PosPart(terms[..k]) && neg == NegPart(terms[..k])
      {
        AddInto(bpa, mi[j], mi[k]);
        var derivativeFactor := ka.derivative(cd[..], bpa[..]);
        var prod := far.coeffs[k] * derivativeFactor;
        ScanStep(terms, k);
        if prod > 0.0 {
          pos := pos + prod;
        } else {
          neg := neg + prod;
        }
      }
      assert terms[..total] == terms;
    }

    /** For every target id below `total`, the positive and the
        non-positive products with the far-field coefficients. */
    method FarSums(far: FarFieldExpansion, cd: array<real>, bpa: array<nat>, total: nat,
                   pos: array<real>, neg: array<real>)
      requires Sized() && FarFits(ka, far) && total == ka.cat.TotalNumCoeffs(far.order)
      requires cd.Length == ka.cat.dim && bpa.Length == ka.cat.dim
      requires pos.Length == total && neg.Length == total && pos != neg && cd != pos && cd != neg
      modifies bpa, pos, neg
      ensures forall i :: 0 <= i < total ==>
                pos[i] == PosPart(FarTerms(ka, cd[..], far, i)) && neg[i] == NegPart(FarTerms(ka, cd[..], far, i))
    {
      for j := 0 to total
        invariant forall i :: 0 <= i < j ==>
                    pos[i] == PosPart(FarTerms(ka, cd[..], far, i)) && neg[i] == NegPart(FarTerms(ka, cd[..], far, i))
      {
        var p, n := FarTermSums(far, cd, bpa, j, total);
        pos[j], neg[j] := p, n;
      }
    }

    /** The last loop of the far-field translation: each coefficient below
        `total` gains its positive plus its non-positive sum, times its
        negated inverse factorial. */
    method AddFarSums(far: FarFieldExpansion, total: nat, pos: array<real>, neg: array<real>)
      requires Sized() && FarFits(ka, far) && total == ka.cat.TotalNumCoeffs(far.order)
      requires pos.Length == total && neg.Length == total && pos != coeffs && neg != coeffs
      requires forall i :: 0 <= i < total ==>
                 pos[i] == PosPart(FarTerms(ka, FarDisplacement(ka, center, far), far, i))
                 && neg[i] == NegPart(FarTerms(ka, FarDisplacement(ka, center, far), far, i))
      modifies coeffs
      ensures coeffs[..] == FromFarField(ka, center, old(coeffs[..]), far)
    {
      ghost var cd := FarDisplacement(ka, center, far);
      ghost var target := FromFarField(ka, center, coeffs[..], far);
      var negInvFact := ka.cat.negInvFact;
      for j := 0 to total
        invariant forall i :: 0 <= i < j ==> coeffs[i] == target[i]
        invariant forall i :: j <= i < coeffs.Length ==> coeffs[i] == old(coeffs[i])
      {
        SplitIsSum(FarTerms(ka, cd, far, j));
        assert target[j] == old(coeffs[j]) + Sum(FarTerms(ka, cd, far, j)) * ka.cat.negInvFact[j];
        coeffs[j] := coeffs[j] + (pos[j] + neg[j]) * negInvFact[j];
      }
    }

    /** Adds the far-field expansion `far`, converted to a local expansion
        about this center, to the coefficients. */
    method TranslateFromFarField(far: FarFieldExpansion)
      requires Valid() && FarFits(ka, far)
      modifies this`order, coeffs
      ensures Valid()
      ensures order == Max(old(order), far.order)
      ensures coeffs[..] == FromFarField(ka, center, old(coeffs[..]), far)
    {
      var dim := ka.cat.dim;
      var total := ka.cat.TotalNumCoeffs(far.order);
      var hf := ka.bandwidthFactor(far.bandwidthSq);
      var centDiff := new real[dim];
      var bpa := new nat[dim];
      if far.order > order {
        order := far.order;
      }
      var pos := new real[total];
      var neg := new real[total];
      ScaledInto(centDiff, center, far.center, hf);
      ghost var cd := centDiff[..];

      FarSums(far, centDiff, bpa, total, pos, neg);
      assert cd == FarDisplacement(ka, center, far);
      AddFarSums(far, total, pos, neg);
      FromFarFieldZeroBeyond(ka, center, old(coeffs[..]), far, old(order));
    }

    /** The re-centering term source id `u` gives target id `j`, when the
        multi-index of `u` dominates that of `j`. */
    method RecenterTermAt(u: nat, j: nat, cd: array<real>, tmp: array<int>) returns (dominates: bool, prod: real)
      requires Sized() && u < coeffs.Length && j < coeffs.Length
      requires cd.Length == ka.cat.dim && tmp.Length == ka.cat.dim
      modifies tmp
      ensures dominates <==> Dominates(ka.cat.multiIndex[u], ka.cat.multiIndex[j])
      ensures dominates ==> prod == RecenterTerm(ka.cat, coeffs[..], cd[..], u, j)
      ensures !dominates ==> RecenterTerm(ka.cat, coeffs[..], cd[..], u, j) == 0.0
    {
      var beta := ka.cat.multiIndex[u];
      var alpha := ka.cat.multiIndex[j];
      var negative := DiffInto(tmp, beta, alpha);
      dominates := !negative;
      prod := 0.0;
      if dominates {
        var diff1 := PowProduct(cd, tmp, beta, alpha);
        prod := coeffs[u] * diff1 * ka.cat.choose(u, j);
      }
    }

    /** For target id `j`, the positive and the non-positive re-centering
        terms of the ids on its dominance list, scanned in list order up to
        the first id at or above `total`. */
    method ScanSums(j: nat, total: nat, cd: array<real>, tmp: array<int>) returns (pos: real, neg: real)
      requires Sized() && 0 <= order && total == ka.cat.TotalNumCoeffs(order) && j < total
      requires cd.Length == ka.cat.dim && tmp.Length == ka.cat.dim
      modifies tmp
      ensures pos == PosPart(ScanTerms(ka.cat, coeffs[..], cd[..], total, j))
      ensures neg == NegPart(ScanTerms(ka.cat, coeffs[..], cd[..], total, j))
    {
      var cat := ka.cat;
      var list := cat.upper[j];
      ghost var terms := ScanTerms(cat, coeffs[..], cd[..], total, j);
      ghost var cut := ScanCut(list, total);
      pos, neg := 0.0, 0.0;
      var k := 0;
      while k < |list|
        invariant k <= cut
        invariant pos == PosPart(terms[..k]) && neg == NegPart(terms[..k])
      {
        if list[k] >= total {
          break;
        }
        var u := list[k];
        ScanStep(terms, k);
        var dominates, prod := RecenterTermAt(u, j, cd, tmp);
        if !dominates {
          k := k + 1;
          continue;
        }
        if prod > 0.0 {
          pos := pos + prod;
        } else {
          neg := neg + prod;
        }
        k := k + 1;
      }
      assert terms[..k] == terms;
    }

    /** Re-centers this expansion into `target`, whose coefficients gain the
        translated terms; the target's order rises to this order. Nothing
        happens when this expansion is empty. */
    method TranslateToLocal(target: LocalExpansion)
      requires Valid() && target.Valid() && target != this && target.coeffs != coeffs
      requires target.ka.cat == ka.cat
      modifies target`order, target.coeffs
      ensures target.Valid()
      ensures order == old(order) && coeffs[..] == old(coeffs[..])
      ensures order < 0 ==> target.order == old(target.order) && target.coeffs[..] == old(target.coeffs[..])
      ensures 0 <= order ==> target.order == Max(old(target.order), order)
      ensures 0 <= order ==>
                target.coeffs[..] == Translated(ka, center, coeffs[..], order, target.center, old(target.coeffs[..]))
    {
      if order < 0 {
        return;
      }
      var total := ka.cat.TotalNumCoeffs(order);
      var dim := ka.cat.dim;
      var tmp := new int[dim];
      var h := ka.bandwidthFactor(ka.bandwidthSq);
      var centerDiff := new real[dim];
      ScaledInto(centerDiff, target.center, center, h);
      assert centerDiff[..] == RecenterDisplacement(ka, center, target.center);
      if target.order < order {
        target.order := order;
      }
      AddScanSums(target, total, centerDiff, tmp);
      TranslatedZeroBeyond(ka, center, coeffs[..], order, target.center, old(target.coeffs[..]), old(target.order));
    }

    /** The translation loop: each target coefficient below `total` gains
        its positive plus its non-positive scan sum. */
    method AddScanSums(target: LocalExpansion, total: nat, cd: array<real>, tmp: array<int>)
      requires Sized() && target.Sized() && target != this && target.coeffs != coeffs
      requires target.ka.cat == ka.cat && 0 <= order && total == ka.cat.TotalNumCoeffs(order)
      requires cd.Length == ka.cat.dim && tmp.Length == ka.cat.dim && cd != target.coeffs
      requires cd[..] == RecenterDisplacement(ka, center, target.center)
      modifies target.coeffs, tmp
      ensures target.coeffs[..] == Translated(ka, center, coeffs[..], order, target.center, old(target.coeffs[..]))
    {
      ghost var goal := Translated(ka, center, coeffs[..], order, target.center, target.coeffs[..]);
      for j := 0 to total
        invariant cd[..] == RecenterDisplacement(ka, center, target.center)
        invariant forall i :: 0 <= i < j ==> target.coeffs[i] == goal[i]
        invariant forall i :: j <= i < target.coeffs.Length ==> target.coeffs[i] == old(target.coeffs[i])
      {
        var p, n := ScanSums(j, total, cd, tmp);
        SplitIsSum(ScanTerms(ka.cat, coeffs[..], cd[..], total, j));
        target.coeffs[j] := target.coeffs[j] + (p + n);
      }
    }
  }
}
