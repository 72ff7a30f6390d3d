/**
 * The post-processing of one classification (ClassifyImage.Classify): from
 * the probability vector the inference produced, pick the best class, name
 * it from the label table, and run the target check.
 */
module Classifier {
  import opened Wrappers
  import opened Selection
  import opened TargetLookup
  import LabelTable

  /** What one classification reports. */
  datatype Prediction = Prediction(index: int, confidence: real, className: string, target: TargetOutcome)

  /** The failure the post-processing can report itself: an empty result vector. */
  datatype ClassifyError = NoResults

  /**
   * The post-processing of a probability vector: an empty vector is an error;
   * otherwise the best index is the first maximum whenever some probability
   * exceeds -1, the class name is the label at that index or "Unknown", and
   * the target outcome is the target check over the same labels and vector.
   */
  function Postprocess(labels: seq<string>, probs: seq<real>, target: Option<string>): (r: Result<Prediction, ClassifyError>)
    ensures r.Failure? <==> probs == []
    ensures r.Success? && (exists j :: 0 <= j < |probs| && probs[j] > -1.0) ==>
      IsFirstMaximum(probs, r.value.index) && r.value.confidence == probs[r.value.index]
    ensures r.Success? ==> -1 <= r.value.index < |probs|
    ensures r.Success? && 0 <= r.value.index < |labels| ==> r.value.className == labels[r.value.index]
    ensures r.Success? && !(0 <= r.value.index < |labels|) ==> r.value.className == UnknownLabel
    ensures r.Success? ==> r.value.target == CheckTarget(labels, probs, target)
  {
    if probs == [] then Failure(NoResults)
    else
      var best := ArgMax(probs);
      Success(Prediction(best.index, best.confidence, ResolveLabel(labels, best.index), CheckTarget(labels, probs, target)))
  }

  /** The post-processing as the script runs it, loop by loop. */
  method Classify(labels: seq<string>, probs: seq<real>, target: Option<string>) returns (r: Result<Prediction, ClassifyError>)
    ensures r == Postprocess(labels, probs, target)
  {
    if |probs| == 0 {
      return Failure(NoResults);
    }
    var maxIndex, maxProb := SelectBest(probs);
    var className := ResolveLabel(labels, maxIndex);
    var outcome := LookUpTarget(labels, probs, target);
    return Success(Prediction(maxIndex, maxProb, className, outcome));
  }

  /**
   * Without a label text every class is "Unknown" and a requested target is
   * never found.
   */
  lemma NoLabelsMeansUnknown(probs: seq<real>, target: Option<string>)
    requires probs != []
    ensures Postprocess(LabelTable.LoadLabels(None), probs, target).value.className == UnknownLabel
    ensures Postprocess(LabelTable.LoadLabels(None), probs, target).value.target
         == (if Requested(target) then NotFound else NotRequested)
  {
  }

  /**
   * For a non-empty probability vector the prediction names the label at the
   * first maximum, when the table is long enough to hold one there.
   */
  lemma PredictionOfProbabilities(labels: seq<string>, probs: seq<real>, target: Option<string>)
    requires probs != []
    requires forall j :: 0 <= j < |probs| ==> 0.0 <= probs[j] <= 1.0
    requires |labels| == |probs|
    ensures var p := Postprocess(labels, probs, target).value;
      IsFirstMaximum(probs, p.index) && p.className == labels[p.index] && p.confidence == probs[p.index]
  {
    assert probs[0] > -1.0;
  }
}
