/**
 * Arg-max selection over the probability vector and the label it resolves to
 * (ClassifyImage.Classify). The scan starts from the sentinel maximum -1 and
 * index -1 and moves left to right, replacing the best entry only on a
 * strictly greater value, so the first maximum wins ties.
 */
module Selection {

  /** The state of the scan: the best index so far and its value. */
  datatype Best = Best(index: int, confidence: real)

  /** The scan's starting state: no index and the sentinel maximum -1. */
  const Initial: Best := Best(-1, -1.0)

  /** The label reported when the best index does not name a label. */
  const UnknownLabel: string := "Unknown"

  /**
   * The state the scan reaches after visiting every entry of scores. Either no
   * entry exceeds the sentinel -1 and the state is the initial one, or the
   * index names an entry above -1 that is at least every entry and strictly
   * above every entry before it.
   */
  function ArgMax(scores: seq<real>): (b: Best)
    ensures -1 <= b.index < |scores|
    ensures b.index == -1 ==> b == Initial && forall j :: 0 <= j < |scores| ==> scores[j] <= -1.0
    ensures b.index >= 0 ==> b.confidence == scores[b.index] && b.confidence > -1.0
    ensures forall j :: 0 <= j < |scores| ==> scores[j] <= b.confidence
    ensures forall j :: 0 <= j < b.index ==> scores[j] < b.confidence
  {
    if |scores| == 0 then Initial
    else
      var b := ArgMax(scores[..|scores| - 1]);
      assert forall j :: 0 <= j < |scores| - 1 ==> scores[..|scores| - 1][j] == scores[j];
      var last := scores[|scores| - 1];
      if last > b.confidence then Best(|scores| - 1, last) else b
  }

  /** k is the position of the first maximum of scores. */
  predicate IsFirstMaximum(scores: seq<real>, k: int) {
    && 0 <= k < |scores|
    && (forall j :: 0 <= j < |scores| ==> scores[j] <= scores[k])
    && (forall j :: 0 <= j < k ==> scores[j] < scores[k])
  }

  /**
   * The scan picks exactly the first maximum whenever some entry exceeds -1,
   * and reports no index exactly when no entry does (in particular for an
   * empty vector).
   */
  lemma ArgMaxIsFirstMaximum(scores: seq<real>, k: int)
    ensures ArgMax(scores).index == -1 <==> forall j :: 0 <= j < |scores| ==> scores[j] <= -1.0
    ensures IsFirstMaximum(scores, k) && scores[k] > -1.0 <==> ArgMax(scores).index == k && k >= 0
  {
  }

  /** For a non-empty probability vector the scan always finds an index. */
  lemma ProbabilitiesHaveArgMax(probs: seq<real>)
    requires |probs| > 0
    requires forall j :: 0 <= j < |probs| ==> 0.0 <= probs[j] <= 1.0
    ensures 0 <= ArgMax(probs).index < |probs|
    ensures IsFirstMaximum(probs, ArgMax(probs).index)
  {
    assert probs[0] > -1.0;
  }

  /** Ties go to the first maximum: [0.2, 0.5, 0.5, 0.1] selects index 1. */
  lemma TieGoesToFirst()
    ensures ArgMax([0.2, 0.5, 0.5, 0.1]) == Best(1, 0.5)
  {
    var s := [0.2, 0.5, 0.5, 0.1];
    assert IsFirstMaximum(s, 1);
    ArgMaxIsFirstMaximum(s, 1);
  }

  /** The arg-max loop: its final state is the scan's state over the whole vector. */
  method SelectBest(results: seq<real>) returns (maxIndex: int, maxProb: real)
    ensures Best(maxIndex, maxProb) == ArgMax(results)
  {
    maxProb := -1.0;
    maxIndex := -1;
    var i := 0;
    while i < |results|
      invariant 0 <= i <= |results|
      invariant Best(maxIndex, maxProb) == ArgMax(results[..i])
    {
      assert results[..i + 1][..i] == results[..i];
      if results[i] > maxProb {
        maxProb := results[i];
        maxIndex := i;
      }
      i := i + 1;
    }
    assert results[..|results|] == results;
  }

  /** The class name for an index: the label at that index, or "Unknown" when there is none. */
  function ResolveLabel(labels: seq<string>, index: int): (name: string)
    ensures 0 <= index < |labels| ==> name == labels[index]
    ensures !(0 <= index < |labels|) ==> name == UnknownLabel
  {
    if index >= 0 && index < |labels| then labels[index] else UnknownLabel
  }

  /**
   * The predicted class name: the label at the first maximum when the table
   * has one there, and "Unknown" otherwise, always so for an empty table.
   */
  lemma PredictedClassName(labels: seq<string>, probs: seq<real>, k: int)
    requires IsFirstMaximum(probs, k) && probs[k] > -1.0
    ensures k < |labels| ==> ResolveLabel(labels, ArgMax(probs).index) == labels[k]
    ensures k >= |labels| ==> ResolveLabel(labels, ArgMax(probs).index) == UnknownLabel
    ensures labels == [] ==> ResolveLabel(labels, ArgMax(probs).index) == UnknownLabel
  {
    ArgMaxIsFirstMaximum(probs, k);
  }
}
