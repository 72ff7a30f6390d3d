# Image classifier post-processing, modelled in Dafny

This project models the deterministic core of the `ClassifyImage` Unity
component (`Assets/Scripts/ClassifyImage.cs`). An ImageNet-style classifier
produces one score per class. The component:

- **builds a label table** from a label text (`Start`). It splits the text on
  line feeds and carriage returns and drops empty pieces. It trims each piece,
  then drops a leading WordNet ID when a line looks like `n01440764 tench`.
- **picks the predicted class** (`Classify`). It scans the probability vector
  from a sentinel maximum of -1 and a sentinel index of -1, replacing the best
  entry only on a strictly greater value. The first maximum therefore wins
  ties. The class name is the label at that index, or `"Unknown"` when the
  table has no label there.
- **looks up a target object** when a non-empty target name is configured. It
  takes the first label with a comma-separated synonym that equals the target,
  after both are trimmed, ignoring letter case. It reports that label's
  probability, or that no label matches.

Modules:

| file | module | contents |
|---|---|---|
| `wrappers.dfy` | `Wrappers` | `Option` and `Result` |
| `text.dfy` | `Text` | the .NET string operations used: `Trim`, `IndexOf(char)`, ordinal `StartsWith`, `Split` with and without `RemoveEmptyEntries` |
| `ignore_case.dfy` | `IgnoreCase` | ordinal case-insensitive equality |
| `label_table.dfy` | `LabelTable` | the label-table parser, the loop that builds the table, and a model of label files with a parse round trip |
| `selection.dfy` | `Selection` | the arg-max scan and the class-name resolution |
| `target_lookup.dfy` | `TargetLookup` | synonym-aware target lookup: the reference search and both loops |
| `classifier.dfy` | `Classifier` | one classification's post-processing, from probabilities to a prediction |

Each loop of the component is a method proved equal to a pure reference
function:

- `BuildLabels` yields, position by position, `NormalizeLine` of each raw
  piece (the per-piece normalization: `Trim`, then `StripWordNetId`).
- `LoadLabelTable`, which splits the text and runs `BuildLabels`, yields
  `LoadLabels`, that is `ParseLabels` of the text, or the empty table.
- `SelectBest` yields `ArgMax`.
- `MatchSynonyms` yields `AnyMatches`.
- `LookUpTarget` yields `CheckTarget`.

Those functions are in turn characterised by independent statements. Examples
are "first maximum", "first matching label", "one label per non-empty line"
and the `Split`/`Interleave` round trip.

A label text that is absent (the `labelsField` reference is null) is
`Option.None`. The script's `string[]` and `float[]` become `seq<string>` and
`seq<real>`. A target name that is absent (null) is `None`.

When the first matching label has no entry in the probability vector, the read
`results[i]` (line 152) throws. The exception is caught at line 168. The
model reports this as `TargetOutcome.ConfidenceUnavailable`.

## Model

| member | source | states |
|---|---|---|
| `Text.Trim` | Assets/Scripts/ClassifyImage.cs:39 | The result begins and ends with a non-white-space character, or is empty, and is no longer than the input. |
| `Text.TrimIsSlice` | Assets/Scripts/ClassifyImage.cs:39 | The trimmed string is the slice of the input between an all-white-space prefix and an all-white-space suffix. |
| `Text.TrimOfTrimmed` | Assets/Scripts/ClassifyImage.cs:39 | A string that neither begins nor ends with white space is left unchanged by trimming. |
| `Text.TrimAround` | Assets/Scripts/ClassifyImage.cs:150 | Padding a non-empty trimmed string with white space on both sides trims back to that string. |
| `Text.IndexOf` | Assets/Scripts/ClassifyImage.cs:41 | -1 exactly when the character is absent. Otherwise it is the position of the first occurrence: the character is there and nowhere before it. |
| `Text.Split` | Assets/Scripts/ClassifyImage.cs:35 | There is one piece more than the input has separators, and no piece holds a separator. |
| `Text.InterleaveSplit` | Assets/Scripts/ClassifyImage.cs:35 | Putting the separators back between the pieces restores the input. |
| `Text.SplitInterleave` | Assets/Scripts/ClassifyImage.cs:147 | Separator-free pieces joined by separators split back into exactly those pieces and separators. |
| `Text.RemoveEmpty` | Assets/Scripts/ClassifyImage.cs:35 | The result has no empty piece, holds exactly the non-empty pieces of the input and is no longer than it. |
| `Text.RemoveEmptyAppend` | Assets/Scripts/ClassifyImage.cs:35 | Dropping empty pieces commutes with concatenation, so the pieces keep their order. |
| `IgnoreCase.EqualsIgnoreCase` | Assets/Scripts/ClassifyImage.cs:150 | The `OrdinalIgnoreCase` comparison: equal lengths and equal upper-cased characters. `EqualsIgnoreCaseIffSameUpper` states its meaning. |
| `IgnoreCase.EqualsIgnoreCaseIffSameUpper` | Assets/Scripts/ClassifyImage.cs:150 | Two strings are equal ignoring case exactly when their upper-cased forms are equal. |
| `LabelTable.ParseLabels` | Assets/Scripts/ClassifyImage.cs:35-50 | The label table of a text. `ParsedLabelsFollowLines`, `ParseFirstLine` and `ParseFormatRoundTrip` state its meaning, and `LabelCountBound` bounds its size. |
| `LabelTable.StripWordNetId` | Assets/Scripts/ClassifyImage.cs:41-49 | The WordNet-ID rule on a trimmed line. `WordNetPrefixRule` states when it fires and what it keeps, and `ShortLinesPassThrough` gives the edge cases. |
| `LabelTable.NormalizeLine` | Assets/Scripts/ClassifyImage.cs:39-49 | The label one piece becomes: trim, then the WordNet-ID rule. `CleanLine` shows the loop body computes it, and `BlankLineIsEmpty` and `TrailingSpaceTrimmedFirst` state what trimming first does. |
| `LabelTable.ParsedLabelsFollowLines` | Assets/Scripts/ClassifyImage.cs:35-50 | There is one label per non-empty piece of the text split on `\n` and `\r`, at the same position. Each label is that piece normalized, and no label holds a line break. |
| `LabelTable.LabelCountBound` | Assets/Scripts/ClassifyImage.cs:35-36 | A label text never yields more labels than it has characters. |
| `LabelTable.LoadLabels` | Assets/Scripts/ClassifyImage.cs:18-51 | The table is empty when no label text is supplied. Otherwise it has at most as many labels as the text has characters. |
| `LabelTable.LoadLabelTable` | Assets/Scripts/ClassifyImage.cs:33-51 | The loading code builds exactly the table that the parser describes, and leaves the table empty without a label text. |
| `LabelTable.BuildLabels` | Assets/Scripts/ClassifyImage.cs:36-50 | The loop produces one label per raw piece, and each label is that piece normalized. |
| `LabelTable.CleanLine` | Assets/Scripts/ClassifyImage.cs:39-49 | The loop body gives the normalized line, and it uses only characters of the raw piece. |
| `LabelTable.WordNetPrefixRule` | Assets/Scripts/ClassifyImage.cs:41-49 | A trimmed line changes exactly when it starts with `n` and contains a space. The label is then the non-empty text after the first space. The dropped part is a space-free word starting with `n`. |
| `LabelTable.ShortLinesPassThrough` | Assets/Scripts/ClassifyImage.cs:42 | `nX`, which has no space, and `n `, whose space is its last character, are kept whole by the prefix rule. |
| `LabelTable.TrailingSpaceTrimmedFirst` | Assets/Scripts/ClassifyImage.cs:39-48 | Trimming comes before the prefix rule. A non-white-space character followed by white space becomes that character, so the line `n ` becomes the label `n`. |
| `LabelTable.BlankLineGivesEmptyLabel` | Assets/Scripts/ClassifyImage.cs:35-48 | A non-empty line made only of white space survives `RemoveEmptyEntries` and becomes an empty label of its own. On its own it is the table `[""]`. Between a first line and the rest, it takes the second position and moves every later label one index on. |
| `LabelTable.BlankLineIsEmpty` | Assets/Scripts/ClassifyImage.cs:39-48 | A piece made only of white space normalizes to the empty label. |
| `LabelTable.ParseTwoLines` | Assets/Scripts/ClassifyImage.cs:35-50 | Two lines, each ended by a line feed, give two labels in order ahead of the labels of the rest. |
| `LabelTable.ParseFirstLine` | Assets/Scripts/ClassifyImage.cs:35-50 | A first line followed by any run of line breaks gives one label ahead of the labels of the rest. Examples of such runs are `\n`, `\r\n` and blank lines. |
| `LabelTable.ParseFormatRoundTrip` | Assets/Scripts/ClassifyImage.cs:35-50 | A label file of well-formed lines, with or without WordNet IDs, parses back to the lines' names in order. |
| `LabelTable.ExampleLabelFile` | Assets/Scripts/ClassifyImage.cs:40-44 | For `n01440764 tench`, `n01443537 goldfish, Carassius auratus` and `plain_label`, the table is `tench`, `goldfish, Carassius auratus`, `plain_label`. |
| `Selection.ArgMax` | Assets/Scripts/ClassifyImage.cs:124-134 | The index is -1 with confidence -1 exactly when no score exceeds -1. Otherwise it names a score above -1 that is at least every score and strictly above every earlier score. |
| `Selection.ArgMaxIsFirstMaximum` | Assets/Scripts/ClassifyImage.cs:124-134 | The scan selects index k exactly when k is the first maximum and its score exceeds -1. It reports -1 exactly when no score exceeds -1. |
| `Selection.ProbabilitiesHaveArgMax` | Assets/Scripts/ClassifyImage.cs:124-134 | For a non-empty vector of probabilities, the scan always finds an index, and that index is the first maximum. |
| `Selection.SelectBest` | Assets/Scripts/ClassifyImage.cs:124-134 | The loop ends in the state the reference scan describes. |
| `Selection.TieGoesToFirst` | Assets/Scripts/ClassifyImage.cs:129 | For `[0.2, 0.5, 0.5, 0.1]` the scan selects index 1 with 0.5. |
| `Selection.ResolveLabel` | Assets/Scripts/ClassifyImage.cs:136 | The class name is the label at an index inside the table, and `"Unknown"` for any other index, including -1. |
| `Selection.PredictedClassName` | Assets/Scripts/ClassifyImage.cs:124-136 | The class name is the label at the first maximum when the table reaches that far. Otherwise it is `"Unknown"`, and it is always `"Unknown"` for an empty table. |
| `TargetLookup.SynonymMatches` | Assets/Scripts/ClassifyImage.cs:150 | One synonym against the target: both trimmed, then compared ignoring case. `WholeStringOnly` and `MatchIgnoresPaddingAndCase` state its meaning. |
| `TargetLookup.AnyMatches` | Assets/Scripts/ClassifyImage.cs:148-157 | The scan over one label's synonyms. `AnyMatchesIffSomeSynonym` states its meaning. |
| `TargetLookup.AnyMatchesIffSomeSynonym` | Assets/Scripts/ClassifyImage.cs:147-157 | The synonym scan succeeds exactly when some synonym matches the target. |
| `TargetLookup.FindFirst` | Assets/Scripts/ClassifyImage.cs:144-159 | The search returns the first position at or after the start that satisfies the test. It returns nothing exactly when no such position exists. |
| `TargetLookup.FindTarget` | Assets/Scripts/ClassifyImage.cs:144-159 | The scan over the labels for the first one with a matching synonym. `FindTargetIsFirstMatch` states its meaning. |
| `TargetLookup.FindTargetIsFirstMatch` | Assets/Scripts/ClassifyImage.cs:143-159 | The search finds index i exactly when i is the first label with a matching synonym. It finds nothing exactly when no label matches. |
| `TargetLookup.CheckTarget` | Assets/Scripts/ClassifyImage.cs:141-164 | No check runs exactly when the target is absent or empty, and not-found exactly when no label matches. Otherwise the result is the first matching label, with its probability when the vector reaches it. |
| `TargetLookup.MatchSynonyms` | Assets/Scripts/ClassifyImage.cs:147-157 | The inner loop reports a match exactly when some synonym matches. |
| `TargetLookup.LookUpTarget` | Assets/Scripts/ClassifyImage.cs:141-164 | The nested loops report exactly what the reference target check describes. |
| `TargetLookup.WholeStringOnly` | Assets/Scripts/ClassifyImage.cs:150 | A synonym matches only as a whole: trimmed strings of different lengths never match. |
| `TargetLookup.MatchIgnoresPaddingAndCase` | Assets/Scripts/ClassifyImage.cs:150 | White space around the target does not change which synonyms match. A match means the trimmed synonym and the target are equal once upper-cased. |
| `TargetLookup.LabelOfSynonymsMatches` | Assets/Scripts/ClassifyImage.cs:146-150 | A label written as comma-separated synonyms matches exactly when one of those synonyms matches. |
| `TargetLookup.BlankTargetMatchesEmptyLabel` | Assets/Scripts/ClassifyImage.cs:141-152 | A target of only white space still runs the check and matches an empty label. |
| `Classifier.Postprocess` | Assets/Scripts/ClassifyImage.cs:114-164 | An empty result vector is an error. Otherwise the index is the first maximum whenever some probability exceeds -1, and the class name is its label or `"Unknown"`. The target outcome is the target check over the same labels and vector. |
| `Classifier.Classify` | Assets/Scripts/ClassifyImage.cs:114-164 | Running the loops one after another gives exactly the reference post-processing. |
| `Classifier.NoLabelsMeansUnknown` | Assets/Scripts/ClassifyImage.cs:136-163 | Without a label text, every class is `"Unknown"`, and a requested target is never found. |
| `Classifier.PredictionOfProbabilities` | Assets/Scripts/ClassifyImage.cs:124-136 | For probabilities with one label per class, the prediction is the label and the probability at the first maximum. |

## Left out

- Softmax (lines 174 onward): the model starts from the probability vector, so `probs` stands for `Softmax(rawResults)`. The empty-vector error (lines 114-118) is modelled on `probs`, which is empty exactly when the raw results are.
- Scores are `real`: 32-bit float rounding, NaN and infinities are not modelled. With NaN, `>` is false, and such entries would never be selected.
- The engine and plugin calls are external code and are not modelled. These are model loading, the worker, tensor creation, texture conversion, scheduling, GPU read-back and downloading the output.
- The lifecycle is not modelled: the coroutine's one-frame wait, the null checks on the model asset, worker, input tensor and input image, and the Inspector fields.
- Logging (`Debug.Log`, `LogWarning`, `LogError`) is not modelled. The model returns what would be logged as data: the index, confidence and class name, and the target outcome.
- Exception handlers (lines 63-67 and 168-171) are not modelled, except for the out-of-range probability read in the target loop. That read is `ConfidenceUnavailable`.
- IgnoreCase.ToUpper: only ASCII letters are upper-cased. `OrdinalIgnoreCase` also folds letters outside ASCII, so the model treats fewer non-ASCII pairs as equal than .NET does.
- Text.IsWhiteSpace: the list is the characters .NET's `Char.IsWhiteSpace` accepts, written out by hand. It is not derived from the Unicode tables.
- Text.StartsWith: the model assumes ordinal matching, so a line "starts with `n`" exactly when its first character is `n`. The script calls the culture-sensitive `StartsWith(string)`, which can disagree under some cultures. Examples: a Hungarian culture treats `ny` as one letter, so `nyala antelope` does not start with `n` there and the script keeps it whole, while the model strips it to `antelope`. An `n` followed by a combining mark (a decomposed `ñ`) does not start with `n` either. Ignorable characters before the `n` may still match. The model states none of these culture cases.
