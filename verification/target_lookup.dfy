/**
 * The target check of ClassifyImage.Classify: when a target name is
 * configured, find the first label one of whose comma-separated synonyms
 * equals the target, both trimmed, ignoring case, and report that label's
 * probability.
 */
module TargetLookup {
  import opened Wrappers
  import opened Text
  import opened IgnoreCase

  /** The character that separates the synonyms of one label. */
  const Comma: set<char> := {','}

  /** The synonyms of a label: its pieces between commas, empty pieces included. */
  function Synonyms(entry: string): seq<string> {
    Split(entry, Comma)
  }

  /** Whole-string comparison of a synonym with the target, both trimmed, ignoring case. */
  predicate SynonymMatches(synonym: string, target: string) {
    EqualsIgnoreCase(Trim(synonym), Trim(target))
  }

  /** The scan over one label's synonyms: true exactly when one of them matches. */
  function AnyMatches(synonyms: seq<string>, target: string): bool
  {
    if |synonyms| == 0 then false
    else SynonymMatches(synonyms[0], target) || AnyMatches(synonyms[1..], target)
  }

  /** The scan over synonyms finds a match exactly when some synonym matches. */
  lemma {:induction false} AnyMatchesIffSomeSynonym(synonyms: seq<string>, target: string)
    ensures AnyMatches(synonyms, target) <==> exists k :: 0 <= k < |synonyms| && SynonymMatches(synonyms[k], target)
    decreases |synonyms|
  {
    if |synonyms| > 0 {
      AnyMatchesIffSomeSynonym(synonyms[1..], target);
      assert forall k :: 0 < k < |synonyms| ==> synonyms[k] == synonyms[1..][k - 1];
    }
  }

  /** A label matches when one of its synonyms matches the target. */
  predicate LabelMatches(entry: string, target: string) {
    AnyMatches(Synonyms(entry), target)
  }

  /** i is the lowest index whose label matches the target. */
  predicate IsFirstMatch(labels: seq<string>, target: string, i: int) {
    && 0 <= i < |labels|
    && LabelMatches(labels[i], target)
    && forall j :: 0 <= j < i ==> !LabelMatches(labels[j], target)
  }

  /**
   * The search over xs from index `from` on, stopping at the first element
   * that satisfies p: its index, or None when no element from `from` on does.
   */
  function FindFirst<T>(xs: seq<T>, p: T -> bool, from: nat): (r: Option<nat>)
    requires from <= |xs|
    ensures r.Some? ==> from <= r.value < |xs| && p(xs[r.value])
    ensures r.Some? ==> forall j :: from <= j < r.value ==> !p(xs[j])
    ensures r.None? <==> forall j :: from <= j < |xs| ==> !p(xs[j])
    decreases |xs| - from
  {
    if from == |xs| then None
    else if p(xs[from]) then Some(from)
    else FindFirst(xs, p, from + 1)
  }

  /** The index of the first label that matches the target, if any. */
  function FindTarget(labels: seq<string>, target: string): Option<nat> {
    FindFirst(labels, entry => LabelMatches(entry, target), 0)
  }

  /**
   * The search reports index i exactly when i is the first matching index,
   * and reports nothing exactly when no label matches.
   */
  lemma FindTargetIsFirstMatch(labels: seq<string>, target: string, i: int)
    ensures FindTarget(labels, target) == Some(i) <==> IsFirstMatch(labels, target, i)
    ensures FindTarget(labels, target).None? <==> forall j :: 0 <= j < |labels| ==> !LabelMatches(labels[j], target)
  {
  }

  /** What the target check reports. */
  datatype TargetOutcome =
    | NotRequested                           // no target name is configured
    | Found(index: nat, confidence: real)    // the first matching label and its probability
    | NotFound                               // no label matches: the not-found warning
    | ConfidenceUnavailable(index: nat)      // the first matching label has no probability: the read fails

  /** `!string.IsNullOrEmpty(targetObject)`: the check runs only for a present, non-empty target. */
  predicate Requested(target: Option<string>) {
    target.Some? && target.value != []
  }

  /**
   * The target check: nothing when no target is configured; otherwise the
   * first matching label with its probability, or not-found when no label
   * matches. A matching label beyond the end of the probability vector makes
   * the probability read fail.
   */
  function CheckTarget(labels: seq<string>, results: seq<real>, target: Option<string>): (o: TargetOutcome)
    ensures o == NotRequested <==> !Requested(target)
    ensures o == NotFound <==> Requested(target) && forall j :: 0 <= j < |labels| ==> !LabelMatches(labels[j], target.value)
    ensures o.Found? ==> Requested(target) && IsFirstMatch(labels, target.value, o.index)
                         && o.index < |results| && o.confidence == results[o.index]
    ensures o.ConfidenceUnavailable? ==> Requested(target) && IsFirstMatch(labels, target.value, o.index)
                                         && o.index >= |results|
  {
    if !Requested(target) then NotRequested
    else
      match FindTarget(labels, target.value)
      case None =>
        FindTargetIsFirstMatch(labels, target.value, 0);
        NotFound
      case Some(i) =>
        FindTargetIsFirstMatch(labels, target.value, i);
        if i < |results| then Found(i, results[i]) else ConfidenceUnavailable(i)
  }

  /** The inner loop over one label's synonyms, stopping at the first match. */
  method MatchSynonyms(synonyms: seq<string>, target: string) returns (found: bool)
    ensures found == AnyMatches(synonyms, target)
  {
    found := false;
    var k := 0;
    while k < |synonyms|
      invariant 0 <= k <= |synonyms|
      invariant AnyMatches(synonyms, target) == AnyMatches(synonyms[k..], target)
    {
      if EqualsIgnoreCase(Trim(synonyms[k]), Trim(target)) {
        found := true;
        break;
      }
      assert synonyms[k..][1..] == synonyms[k + 1..];
      k := k + 1;
    }
  }

  /**
   * The outer loop over the labels, stopping at the first label with a
   * matching synonym and reading its probability; it reports what
   * CheckTarget describes.
   */
  method LookUpTarget(labels: seq<string>, results: seq<real>, targetObject: Option<string>) returns (outcome: TargetOutcome)
    ensures outcome == CheckTarget(labels, results, targetObject)
  {
    if targetObject.None? || targetObject.value == [] {
      return NotRequested;
    }
    var target := targetObject.value;
    var i := 0;
    while i < |labels|
      invariant 0 <= i <= |labels|
      invariant FindFirst(labels, entry => LabelMatches(entry, target), i) == FindTarget(labels, target)
    {
      var found := MatchSynonyms(Split(labels[i], Comma), target);
      if found {
        if i >= |results| {
          return ConfidenceUnavailable(i);
        }
        var targetConfidence := results[i];
        return Found(i, targetConfidence);
      }
      i := i + 1;
    }
    return NotFound;
  }

  /** A synonym matches only as a whole: a trimmed target of another length never matches. */
  lemma WholeStringOnly(synonym: string, target: string)
    requires |Trim(synonym)| != |Trim(target)|
    ensures !SynonymMatches(synonym, target)
  {
  }

  /**
   * White space around the target and the letter case of either side do not
   * matter: the padded target matches exactly the synonyms the bare target
   * matches, and a match means equal upper-cased trimmed strings.
   */
  lemma MatchIgnoresPaddingAndCase(synonym: string, target: string, pre: string, post: string)
    requires AllWhiteSpace(pre) && AllWhiteSpace(post)
    requires target != [] && IsTrimmed(target)
    ensures SynonymMatches(synonym, pre + target + post) <==> SynonymMatches(synonym, target)
    ensures SynonymMatches(synonym, target) <==> UpperString(Trim(synonym)) == UpperString(target)
  {
    TrimAround(pre, target, post);
    TrimOfTrimmed(target);
    EqualsIgnoreCaseIffSameUpper(Trim(synonym), target);
  }

  /**
   * A label written as comma-separated synonyms matches exactly when one of
   * those synonyms matches.
   */
  lemma LabelOfSynonymsMatches(synonyms: seq<string>, commas: string, target: string)
    requires |synonyms| == |commas| + 1
    requires forall k :: 0 <= k < |synonyms| ==> NoneOf(synonyms[k], Comma)
    requires forall i :: 0 <= i < |commas| ==> commas[i] == ','
    ensures LabelMatches(Interleave(synonyms, commas), target)
        <==> exists k :: 0 <= k < |synonyms| && SynonymMatches(synonyms[k], target)
  {
    SplitInterleave(synonyms, commas, Comma);
    AnyMatchesIffSomeSynonym(synonyms, target);
  }

  /**
   * A target of only white space still runs the check, trims to the empty
   * string and so matches an empty synonym, such as an empty label.
   */
  lemma BlankTargetMatchesEmptyLabel(labels: seq<string>, results: seq<real>, target: string)
    requires target != [] && AllWhiteSpace(target)
    requires |labels| > 0 && labels[0] == [] && |results| > 0
    ensures CheckTarget(labels, results, Some(target)) == Found(0, results[0])
  {
    TrimAllWhiteSpace(target);
    assert Synonyms([]) == [[]];
    assert SynonymMatches(Synonyms(labels[0])[0], target) by {
      TrimAllWhiteSpace([]);
    }
  }
}
