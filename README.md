# Local (Taylor) series expansion

A Dafny model of the local expansion of mlpack's series-expansion library,
`LocalExpansion<TKernelAux>`. A local expansion holds:

- a center;
- a truncation order, where `-1` means the expansion is empty;
- a coefficient buffer sized for the catalog's maximum order.

Five operations change or read it, in place:

- the two `Init` overloads;
- `AccumulateCoeffs`, which folds weighted points into the coefficients;
- `EvaluateField`, which builds the monomial table with the per-dimension
  "heads" recurrence and takes a dot product;
- `TranslateFromFarField`, which adds a far-field expansion's contribution
  with sign-split partial sums;
- `TranslateToLocal`, which re-centers this expansion additively into
  another one, scanning a dominance list with an early exit.

Files:

- `multi_index.dfy` (module `MultiIndex`): multi-indices and the catalog's
  canonical graded order. `Table(d, p)` lists every multi-index of degree at
  most `p` in the order the heads recurrence produces. It is proved sound
  (`TableSound`), complete (`TableComplete`) and free of repeats
  (`TableDistinct`), and smaller orders are prefixes of larger ones
  (`TablePrefix`).
- `series.dfy` (module `Series`): integer powers, monomials and the dot
  product.
- `sign_split.dfy` (module `SignSplit`): the positive/non-positive split
  accumulators of both translations, and the plain sum.
- `catalog.dfy` (module `Catalogs`): the multi-index catalog and the kernel
  auxiliary object, as read-only values. The catalog's enumeration is
  `Table`. The bandwidth factor and the kernel's partial derivatives are
  uninterpreted functions.
- `local_spec.dfy` (module `LocalSpec`): what each operation computes, as
  functions of the state and the inputs, with lemmas about them.
- `local_expansion.dfy` (module `LocalExpansions`): the class
  `LocalExpansion`. It has `order` as a mutable field and `coeffs` as an
  array. Its invariant `Valid` says the buffer is sized for the catalog and
  every coefficient at an id the current order does not use is zero. Both
  constructors establish it and every operation preserves it. Each operation is a method proved against the functions in
  `LocalSpec`. Every loop of the source is a loop here. Inner loops live in
  helper methods, so each loop carries its own invariants.

The code differs from what the method names suggest in these places, and the
model follows the code:

- `AccumulateCoeffs` updates the coefficients below the count for the
  *requested* order (`local_expansion_impl.h:19`). It does not use the
  raised order.
- `TranslateFromFarField` runs both its target loop and its source loop over
  the far-field order's count (`:216`, `:245`, `:250`). It does not use this
  expansion's count for the target loop.
- `TranslateToLocal` bounds both the target loop and the early exit of the
  dominance scan by the *source* order's count (`:287`, `:318`, `:328`). It
  does not use the target's count.
- `Init(ka)` sizes the center but leaves its entries unspecified
  (`:184`, `set_size`). The model promises only the center's length.

## Model

| member | source | states |
|---|---|---|
| LocalExpansions.LocalExpansion.InitWithCenter | fastlib/branches/fastlib-stl/mlpack/series_expansion/local_expansion_impl.h:163-175 | The expansion gets the given center and order -1, and its coefficient buffer has the catalog's maximum count, all zero; it satisfies `Valid` |
| LocalExpansions.LocalExpansion.Init | fastlib/branches/fastlib-stl/mlpack/series_expansion/local_expansion_impl.h:177-189 | Order -1 and all-zero coefficients of the maximum count; the center has the catalog's dimension; it satisfies `Valid` |
| LocalExpansions.LocalExpansion.AccumulateCoeffs | fastlib/branches/fastlib-stl/mlpack/series_expansion/local_expansion_impl.h:10-58 | `Valid` is kept. The order becomes max(old order, requested order). The coefficients become `Accumulated`: every id below the requested order's count gains each point's term; no other entry changes |
| LocalExpansions.LocalExpansion.AccumulatePoints | fastlib/branches/fastlib-stl/mlpack/series_expansion/local_expansion_impl.h:36-57 | The point loop leaves the coefficients at `Accumulated` for the range and the requested order |
| LocalExpansions.LocalExpansion.AddPointTerms | fastlib/branches/fastlib-stl/mlpack/series_expansion/local_expansion_impl.h:38-56 | One pass of the point loop adds point r's term (negated inverse factorial × weight × partial derivative at the scaled displacement) to every id below the count, and changes nothing else |
| LocalExpansions.LocalExpansion.DerivativesInto | fastlib/branches/fastlib-stl/mlpack/series_expansion/local_expansion_impl.h:48-51 | arrtmp[j] is the kernel derivative for multi-index j at the scaled displacement, for every j below the count |
| LocalSpec.AccumulatedStep | fastlib/branches/fastlib-stl/mlpack/series_expansion/local_expansion_impl.h:36-57 | Accumulating the range up to r+1 equals accumulating up to r and then adding point r's term |
| LocalSpec.ContributionSplit | fastlib/branches/fastlib-stl/mlpack/series_expansion/local_expansion_impl.h:36-57 | A coefficient's contribution from [begin, end) is the contribution from [begin, mid) plus that from [mid, end) |
| LocalSpec.AccumulateInTwoSteps | fastlib/branches/fastlib-stl/mlpack/series_expansion/local_expansion_impl.h:36-57 | Accumulating [begin, mid) and then [mid, end) gives the same coefficients as accumulating [begin, end) once |
| LocalSpec.AccumulatedIsIncrement | fastlib/branches/fastlib-stl/mlpack/series_expansion/local_expansion_impl.h:53-56 | Accumulation only adds: the result is the old coefficients plus what the same points give a zeroed expansion |
| LocalSpec.AccumulateThenEvaluate | fastlib/branches/fastlib-stl/mlpack/series_expansion/local_expansion_impl.h:53-56 | Superposition: after accumulation the series evaluates to its old value plus the value of the accumulated points alone |
| LocalSpec.ZeroBeyondRaised | fastlib/branches/fastlib-stl/mlpack/series_expansion/local_expansion_impl.h:15-16 | An update that changes only ids below the count for order o, applied to coefficients that are zero beyond the old order, leaves them zero beyond max(old order, o) |
| LocalSpec.AccumulatedZeroBeyond | fastlib/branches/fastlib-stl/mlpack/series_expansion/local_expansion_impl.h:15-19 | Accumulation keeps every id beyond the raised order zero |
| LocalSpec.SeriesAtHigherOrder | fastlib/branches/fastlib-stl/mlpack/series_expansion/local_expansion_impl.h:115 | For coefficients that are zero beyond order o, evaluating at any higher order gives the same value as at o |
| LocalExpansions.LocalExpansion.EvaluateField | fastlib/branches/fastlib-stl/mlpack/series_expansion/local_expansion_impl.h:106-160 | Returns `SeriesAt`: 0 for an empty expansion, otherwise the dot product of the first count(order) coefficients with the monomials of (xq − center)/factor; no field changes |
| LocalSpec.SeriesOfZeroCoeffs | fastlib/branches/fastlib-stl/mlpack/series_expansion/local_expansion_impl.h:106-110 | All-zero coefficients (the state after either Init) evaluate to 0 at every order and query |
| LocalSpec.SeriesAdditive | fastlib/branches/fastlib-stl/mlpack/series_expansion/local_expansion_impl.h:155-159 | Evaluation is linear in the coefficients: the series of c1 + c2 is the series of c1 plus the series of c2 |
| LocalExpansions.MonomialsInto | fastlib/branches/fastlib-stl/mlpack/series_expansion/local_expansion_impl.h:136-153 | The heads recurrence fills exactly the first count(order) entries of the table, and entry n is the monomial of x for the catalog's multi-index n |
| LocalExpansions.ExtendDegree | fastlib/branches/fastlib-stl/mlpack/series_expansion/local_expansion_impl.h:143-152 | After degree k, the cursor t equals the number of multi-indices of degree at most k, every entry below t is its monomial, and each head points at the degree-k suffix from its dimension; the sentinel head is untouched |
| LocalExpansions.ExtendBlock | fastlib/branches/fastlib-stl/mlpack/series_expansion/local_expansion_impl.h:146-151 | The block for dimension i appends as many entries as the degree-(k-1) suffix from i, each being an earlier entry times x[i], and keeps every written entry equal to its monomial |
| Series.RecurrenceStep | fastlib/branches/fastlib-stl/mlpack/series_expansion/local_expansion_impl.h:149-150 | The entry written at position t is the monomial at an earlier position j times x[i], and t stays inside the table |
| Series.MonoInc | fastlib/branches/fastlib-stl/mlpack/series_expansion/local_expansion_impl.h:150 | One more unit in dimension i multiplies the monomial by x[i] |
| MultiIndex.StepFrom | fastlib/branches/fastlib-stl/mlpack/series_expansion/local_expansion_impl.h:149-150 | The multi-index at the write position is the one at the read position with dimension i incremented |
| MultiIndex.HeadsAfterDegree | fastlib/branches/fastlib-stl/mlpack/series_expansion/local_expansion_impl.h:145-148 | Moving each head to where its block starts leaves it at the degree-k suffix from its dimension, and the blocks end at the count for degree k |
| MultiIndex.TablePrefix | fastlib/branches/fastlib-stl/mlpack/series_expansion/local_expansion_impl.h:115 | The ids for order p are a prefix of the ids for any higher order |
| MultiIndex.TableSound | fastlib/branches/fastlib-stl/mlpack/series_expansion/local_expansion_impl.h:143-153 | Every multi-index the recurrence enumerates has the expansion's dimension and degree at most the order |
| MultiIndex.TableComplete | fastlib/branches/fastlib-stl/mlpack/series_expansion/local_expansion_impl.h:143-153 | Every multi-index of degree at most the order is enumerated |
| MultiIndex.TableDistinct | fastlib/branches/fastlib-stl/mlpack/series_expansion/local_expansion_impl.h:143-153 | No multi-index is enumerated twice, so each id names a different multi-index |
| Catalogs.Catalog.TotalNumCoeffs | fastlib/branches/fastlib-stl/mlpack/series_expansion/local_expansion_impl.h:115 | The count for order p is at least 1 and at most the maximum count, and the first count(p) catalog ids are exactly the multi-indices of degree at most p |
| Catalogs.Catalog.TotalNumCoeffsMonotone | fastlib/branches/fastlib-stl/mlpack/series_expansion/local_expansion_impl.h:15-19 | Raising the order never shrinks the coefficient range |
| Catalogs.Catalog.IdsDistinct | fastlib/branches/fastlib-stl/mlpack/series_expansion/local_expansion_impl.h:49 | Every catalog id names a different multi-index |
| LocalExpansions.DotPrefix | fastlib/branches/fastlib-stl/mlpack/series_expansion/local_expansion_impl.h:155-157 | The running sum is the left-to-right dot product of the first v.Length coefficients with the monomials |
| LocalExpansions.ScaledInto | fastlib/branches/fastlib-stl/mlpack/series_expansion/local_expansion_impl.h:132-134 | Writes (a − b)/h dimension by dimension |
| LocalExpansions.LocalExpansion.TranslateFromFarField | fastlib/branches/fastlib-stl/mlpack/series_expansion/local_expansion_impl.h:204-272 | `Valid` is kept. The order becomes max(old order, far order). The coefficients become `FromFarField`: each id below the far order's count gains (pos + neg) × its negated inverse factorial; no other entry changes |
| LocalExpansions.LocalExpansion.FarTermSums | fastlib/branches/fastlib-stl/mlpack/series_expansion/local_expansion_impl.h:247-265 | The two accumulators for target id j end as the positive part and the non-positive part of its products far.coeffs[k] × derivative(beta_j + alpha_k) |
| LocalExpansions.LocalExpansion.FarSums | fastlib/branches/fastlib-stl/mlpack/series_expansion/local_expansion_impl.h:245-266 | pos[j] and neg[j] hold those parts for every target id |
| LocalExpansions.LocalExpansion.AddFarSums | fastlib/branches/fastlib-stl/mlpack/series_expansion/local_expansion_impl.h:268-271 | Adding pos + neg scaled by the negated inverse factorial gives exactly `FromFarField`, since the split sums equal the plain sum |
| LocalExpansions.AddInto | fastlib/branches/fastlib-stl/mlpack/series_expansion/local_expansion_impl.h:253-255 | Writes the component-wise sum beta + alpha |
| SignSplit.SplitIsSum | fastlib/branches/fastlib-stl/mlpack/series_expansion/local_expansion_impl.h:259-264 | The positive accumulator is ≥ 0, the negative one (which also takes zero products) is ≤ 0, and together they are the plain sum |
| SignSplit.ScanStep | fastlib/branches/fastlib-stl/mlpack/series_expansion/local_expansion_impl.h:356-361 | One more product advances the plain sum by it, and exactly one of the two accumulators by it, by its sign |
| SignSplit.SumAppend | fastlib/branches/fastlib-stl/mlpack/series_expansion/local_expansion_impl.h:326-363 | The sum of a concatenation is the sum of the parts |
| LocalSpec.FromFarFieldCommutes | fastlib/branches/fastlib-stl/mlpack/series_expansion/local_expansion_impl.h:269-271 | Translating two far-field sources in either order gives the same coefficients |
| LocalSpec.FromFarFieldIsIncrement | fastlib/branches/fastlib-stl/mlpack/series_expansion/local_expansion_impl.h:269-271 | Far-field translation only adds to the coefficients it finds |
| LocalSpec.FromFarFieldZeroBeyond | fastlib/branches/fastlib-stl/mlpack/series_expansion/local_expansion_impl.h:227-229 | Far-field translation keeps every id beyond the raised order zero |
| LocalExpansions.LocalExpansion.TranslateToLocal | fastlib/branches/fastlib-stl/mlpack/series_expansion/local_expansion_impl.h:274-367 | The target stays `Valid`. The source's order and coefficients are unchanged. For an empty source nothing in the target changes. Otherwise the target's order becomes max(previous order, source order) and its coefficients become `Translated`: each id below the source's count gains the sum of its scan terms, and no other entry changes |
| LocalExpansions.LocalExpansion.AddScanSums | fastlib/branches/fastlib-stl/mlpack/series_expansion/local_expansion_impl.h:318-366 | Each target id below the count gains its positive plus its non-positive scan sum, and that equals the plain sum of its scan terms |
| LocalExpansions.LocalExpansion.ScanSums | fastlib/branches/fastlib-stl/mlpack/series_expansion/local_expansion_impl.h:323-363 | The scan breaks at the first list id at or above the count, skips non-dominated ids, and leaves the accumulators at the positive and non-positive parts of `ScanTerms` |
| LocalExpansions.LocalExpansion.RecenterTermAt | fastlib/branches/fastlib-stl/mlpack/series_expansion/local_expansion_impl.h:332-354 | Reports domination exactly; when dominated, the product is the source coefficient × cd^(beta − alpha) × choose(u, j); otherwise the term is 0 |
| LocalExpansions.DiffInto | fastlib/branches/fastlib-stl/mlpack/series_expansion/local_expansion_impl.h:337-344 | The flag is set exactly when beta − alpha has a negative component; otherwise tmp holds beta − alpha |
| LocalExpansions.PowProduct | fastlib/branches/fastlib-stl/mlpack/series_expansion/local_expansion_impl.h:349-351 | The product of pow(cd[l], tmp[l]) is the monomial of cd for beta − alpha |
| Catalogs.ScanCut | fastlib/branches/fastlib-stl/mlpack/series_expansion/local_expansion_impl.h:326-330 | The scan's stopping point: every id before it is below the bound, and the id at it (if any) is at or above the bound |
| Catalogs.SortedScanCut | fastlib/branches/fastlib-stl/mlpack/series_expansion/local_expansion_impl.h:326-330 | On an ascending list, an entry is below the bound exactly when it comes before the stopping point: the break drops no id below the bound |
| Catalogs.UnsortedScanDropsId | fastlib/branches/fastlib-stl/mlpack/series_expansion/local_expansion_impl.h:326-330 | On an unsorted list the break can stop before an id below the bound |
| LocalSpec.EarlyExitIsExact | fastlib/branches/fastlib-stl/mlpack/series_expansion/local_expansion_impl.h:326-347 | With an ascending dominance list, the sum of the terms scanned before the break equals the sum over every id below the count anywhere in the list |
| LocalSpec.TranslatedIsIncrement | fastlib/branches/fastlib-stl/mlpack/series_expansion/local_expansion_impl.h:365 | Re-centering only adds to the target's coefficients |
| LocalSpec.TranslatedZeroBeyond | fastlib/branches/fastlib-stl/mlpack/series_expansion/local_expansion_impl.h:308-312 | Re-centering keeps every target id beyond the target's raised order zero |
| LocalSpec.TranslatedIsFullSum | fastlib/branches/fastlib-stl/mlpack/series_expansion/local_expansion_impl.h:318-366 | When every dominance list is ascending, each target id below the count gains the full sum of its terms over all listed ids below the count |

## Left out

- `PrintDebug` (`:61-97`) only writes text with `fprintf`.
- `EvaluateField(const arma::mat&, index_t)` (`:100-103`) is a one-line forward to the pointer overload, which is modelled.
- `OrderForEvaluating` (`:191-202`) forwards to `OrderForEvaluatingLocal` of the kernel auxiliary object, which is not part of this model.
- The kernel's derivative machinery is one uninterpreted function from a scaled displacement and a multi-index to a real. This covers `AllocateDerivativeMap`, `ComputeDirectionalDerivatives`, `ComputePartialDerivative` and `BandwidthFactor`. The bandwidth factor is an uninterpreted positive function. As a result, the far-field derivative map being allocated with `2 * order_` before `order_` is raised (`:213` against `:227-229`) has no counterpart.
- The multi-index catalog's construction is not part of this model. The catalog is a value assumed to enumerate multi-indices in the order of `Table` and to hold consistent counts (`Catalog.Valid`).
- Floating point: values are `real`, so rounding is not modelled, and neither is the numerical benefit of the sign split. Only its sign invariants and its equality with the plain sum are proved. `pow` is a recursive power with a natural exponent.
- Approximation accuracy is not modelled: no truncation error bound and no convergence radius.
- Only the parts of `FarFieldExpansion` that translation consumes are modelled: center, order, coefficients and bandwidth.
- `index_t` is taken as an unbounded signed integer. The heads sentinel `UINT_MAX` is stored but never read, as in the source.
- The vectors the source only `reserve`s before indexing (`heads`, `beta_plus_alpha`, `tmp_storage`) are modelled as arrays of the indexed size.
- Both `Init` overloads are constructors. The model does not re-initialize an existing object.
- Aliasing: `TranslateToLocal` requires that the target is another expansion with its own coefficient buffer and the same catalog.
- LocalExpansions.LocalExpansion.AccumulateCoeffs: requires the requested order to be within the catalog's maximum order, because the source indexes the catalog's count table with it.
- LocalExpansions.LocalExpansion.TranslateFromFarField: requires the far order to be within the catalog's maximum order and its coefficient vector to cover the count for that order, because the source indexes both with it.
- src/mlpack/core/tree/rectangle_tree/r_tree_descent_heuristic_impl.hpp is a wrapper over bound queries whose code is not part of this model.
