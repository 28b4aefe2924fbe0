/**
 * Sign-split summation. Both translation operators add a run of products
 * into two accumulators, one for the positive products and one for the
 * others, and only add the two accumulators together at the end. Over the
 * reals this is exactly the plain left-to-right sum; what the split keeps is
 * the sign of each accumulator.
 */
module SignSplit {

  /** Plain left-to-right sum. */
  function Sum(s: seq<real>): real
  {
    if |s| == 0 then 0.0 else Sum(s[..|s| - 1]) + s[|s| - 1]
  }

  /** What the positive accumulator holds after scanning `s`. */
  function PosPart(s: seq<real>): real
  {
    if |s| == 0 then 0.0
    else PosPart(s[..|s| - 1]) + (if s[|s| - 1] > 0.0 then s[|s| - 1] else 0.0)
  }

  /** What the negative accumulator holds after scanning `s`: every product
      that is not positive, zero included, goes here. */
  function NegPart(s: seq<real>): real
  {
    if |s| == 0 then 0.0
    else NegPart(s[..|s| - 1]) + (if s[|s| - 1] > 0.0 then 0.0 else s[|s| - 1])
  }

  /** One more product: how the accumulators and the sum advance. */
  lemma ScanStep(s: seq<real>, k: nat)
    requires k < |s|
    ensures Sum(s[..k + 1]) == Sum(s[..k]) + s[k]
    ensures PosPart(s[..k + 1]) == PosPart(s[..k]) + (if s[k] > 0.0 then s[k] else 0.0)
    ensures NegPart(s[..k + 1]) == NegPart(s[..k]) + (if s[k] > 0.0 then 0.0 else s[k])
  {
    assert s[..k + 1][..k] == s[..k];
  }

  /** The split keeps the signs apart and loses nothing. */
  lemma {:induction false} SplitIsSum(s: seq<real>)
    ensures 0.0 <= PosPart(s)
    ensures NegPart(s) <= 0.0
    ensures PosPart(s) + NegPart(s) == Sum(s)
  {
    if |s| > 0 {
      SplitIsSum(s[..|s| - 1]);
    }
  }

  lemma {:induction false} SumAppend(a: seq<real>, b: seq<real>)
    ensures Sum(a + b) == Sum(a) + Sum(b)
    decreases |b|
  {
    if |b| == 0 {
      assert a + b == a;
    } else {
      SumAppend(a, b[..|b| - 1]);
      assert (a + b)[..|a + b| - 1] == a + b[..|b| - 1];
    }
  }

  lemma {:induction false} SumOfZeros(s: seq<real>)
    requires forall k :: 0 <= k < |s| ==> s[k] == 0.0
    ensures Sum(s) == 0.0
  {
    if |s| > 0 {
      SumOfZeros(s[..|s| - 1]);
    }
  }
}
