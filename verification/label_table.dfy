/**
 * The label table of the classifier (ClassifyImage.Start): the label text is
 * split into lines, each line is trimmed, and a leading WordNet ID such as
 * `n01440764` is dropped from lines of the form `n01440764 tench`.
 */
module LabelTable {
  import opened Wrappers
  import opened Text

  /** The characters the label text is split on. */
  const LineBreaks: set<char> := {'\n', '\r'}

  /**
   * The WordNet-ID rule applied to a trimmed line: when the line starts with
   * `n` and its first space lies strictly inside it, keep what follows that
   * space; otherwise keep the whole line.
   */
  function StripWordNetId(line: string): string {
    var p := IndexOf(line, ' ');
    if p > 0 && p < |line| - 1 && StartsWith(line, "n") then line[p + 1..] else line
  }

  /** The label one non-empty piece of the label text becomes. */
  function NormalizeLine(piece: string): string {
    StripWordNetId(Trim(piece))
  }

  /** The label a piece becomes is made of characters of that piece. */
  lemma NormalizeLineSubset(piece: string)
    ensures forall c :: c in NormalizeLine(piece) ==> c in piece
  {
    TrimSubset(piece);
    var t := Trim(piece);
    forall c | c in NormalizeLine(piece) ensures c in t {
      var k :| 0 <= k < |NormalizeLine(piece)| && NormalizeLine(piece)[k] == c;
      if NormalizeLine(piece) != t {
        var p := IndexOf(t, ' ');
        assert t[p + 1 + k] == c;
      }
    }
  }

  /**
   * The label table built from the label text: the non-empty pieces of the
   * text split on line feeds and carriage returns, each normalized.
   */
  function ParseLabels(text: string): seq<string> {
    NormalizeAll(RemoveEmpty(Split(text, LineBreaks)))
  }

  /** The labels of a sequence of pieces, position by position. */
  function NormalizeAll(pieces: seq<string>): (labels: seq<string>)
    ensures |labels| == |pieces|
    ensures forall k :: 0 <= k < |pieces| ==> labels[k] == NormalizeLine(pieces[k])
  {
    if |pieces| == 0 then [] else [NormalizeLine(pieces[0])] + NormalizeAll(pieces[1..])
  }

  /**
   * One label per non-empty piece of the text split on line feeds and
   * carriage returns, in text order, and no label holds a line break.
   */
  lemma ParsedLabelsFollowLines(text: string)
    ensures var pieces := RemoveEmpty(Split(text, LineBreaks));
      && |ParseLabels(text)| == |pieces|
      && (forall k :: 0 <= k < |pieces| ==> pieces[k] != [] && NoneOf(pieces[k], LineBreaks))
      && (forall k :: 0 <= k < |pieces| ==> ParseLabels(text)[k] == NormalizeLine(pieces[k]))
    ensures forall k :: 0 <= k < |ParseLabels(text)| ==> NoneOf(ParseLabels(text)[k], LineBreaks)
  {
    var pieces := RemoveEmpty(Split(text, LineBreaks));
    var labels := ParseLabels(text);
    forall k | 0 <= k < |pieces| ensures NoneOf(pieces[k], LineBreaks) {
      assert pieces[k] in Split(text, LineBreaks);
    }
    forall k | 0 <= k < |labels| ensures NoneOf(labels[k], LineBreaks) {
      NormalizeLineSubset(pieces[k]);
      forall i | 0 <= i < |labels[k]| ensures labels[k][i] !in LineBreaks {
        assert labels[k][i] in pieces[k];
      }
    }
  }

  /**
   * The label table as the component holds it: empty until a label text is
   * supplied, and otherwise the labels parsed from that text.
   */
  function LoadLabels(source: Option<string>): (labels: seq<string>)
    ensures source.None? ==> labels == []
    ensures source.Some? ==> |labels| <= |source.value|
  {
    match source
    case None => []
    case Some(text) =>
      LabelCountBound(text);
      ParseLabels(text)
  }

  /** No more labels than characters: each label comes from a non-empty piece. */
  lemma LabelCountBound(text: string)
    ensures |ParseLabels(text)| <= |text|
  {
    var pieces := Split(text, LineBreaks);
    NonEmptyPiecesBound(pieces, Separators(text, LineBreaks));
  }

  lemma {:induction false} NonEmptyPiecesBound(pieces: seq<string>, d: string)
    requires |pieces| == |d| + 1
    ensures |RemoveEmpty(pieces)| <= |Interleave(pieces, d)|
    decreases |d|
  {
    if |d| > 0 {
      NonEmptyPiecesBound(pieces[1..], d[1..]);
    }
  }

  /**
   * The loop that turns the pieces of the label text into labels, one label
   * per piece at the same position.
   */
  method BuildLabels(rawLabels: seq<string>) returns (labels: seq<string>)
    ensures |labels| == |rawLabels|
    ensures forall k :: 0 <= k < |labels| ==> labels[k] == NormalizeLine(rawLabels[k])
  {
    labels := [];
    var i := 0;
    while i < |rawLabels|
      invariant 0 <= i <= |rawLabels|
      invariant labels == NormalizeAll(rawLabels[..i])
    {
      var entry := CleanLine(rawLabels[i]);
      NormalizeAllPrefixStep(rawLabels, i);
      labels := labels + [entry];
      i := i + 1;
    }
    assert rawLabels[..i] == rawLabels;
  }

  /** The body of the label loop: trim the piece, then drop a WordNet
      identifier when the first space sits strictly inside the line and
      the line starts with 'n'. */
  method CleanLine(raw: string) returns (entry: string)
    ensures entry == NormalizeLine(raw)
    ensures forall c :: c in entry ==> c in raw
  {
    var line := Trim(raw);
    var spaceIndex := IndexOf(line, ' ');
    if spaceIndex > 0 && spaceIndex < |line| - 1 && StartsWith(line, "n") {
      entry := line[spaceIndex + 1..];
    } else {
      entry := line;
    }
    NormalizeLineSubset(raw);
  }

  /** Extending the prefix of pieces by one extends its labels by that piece's label. */
  lemma NormalizeAllPrefixStep(raw: seq<string>, i: nat)
    requires i < |raw|
    ensures NormalizeAll(raw[..i + 1]) == NormalizeAll(raw[..i]) + [NormalizeLine(raw[i])]
  {
    assert raw[..i + 1] == raw[..i] + [raw[i]];
    NormalizeAllAppend(raw[..i], raw[i]);
  }

  /** Normalizing one more piece appends its label. */
  lemma {:induction false} NormalizeAllAppend(pieces: seq<string>, piece: string)
    ensures NormalizeAll(pieces + [piece]) == NormalizeAll(pieces) + [NormalizeLine(piece)]
    decreases |pieces|
  {
    if |pieces| > 0 {
      assert (pieces + [piece])[1..] == pieces[1..] + [piece];
      NormalizeAllAppend(pieces[1..], piece);
    } else {
      assert pieces + [piece] == [piece];
    }
  }

  /** Loading the label table: the table stays empty when no label text is supplied. */
  method LoadLabelTable(source: Option<string>) returns (labels: seq<string>)
    ensures labels == LoadLabels(source)
  {
    labels := [];
    if source.Some? {
      var rawLabels := RemoveEmpty(Split(source.value, LineBreaks));
      labels := BuildLabels(rawLabels);
    }
  }

  /**
   * The WordNet-ID rule on a trimmed line: the line changes exactly when it
   * starts with `n` and contains a space (the bounds on the space's position
   * always hold for a trimmed line), and then the label is everything after
   * the first space, the dropped part being a space-free word starting with `n`.
   */
  lemma WordNetPrefixRule(t: string)
    requires IsTrimmed(t)
    ensures StripWordNetId(t) != t <==> |t| > 0 && t[0] == 'n' && ' ' in t
    ensures var r := StripWordNetId(t);
      r != t ==>
        && 0 < |r| && |r| + 1 < |t|
        && t == t[..|t| - |r| - 1] + " " + r
        && t[0] == 'n'
        && ' ' !in t[..|t| - |r| - 1]
  {
    var p := IndexOf(t, ' ');
    assert StartsWith(t, "n") <==> |t| > 0 && t[0] == 'n';
    if |t| > 0 && t[0] == 'n' && ' ' in t {
      assert p != 0;
      assert p != |t| - 1;
      assert t[..1] == "n";
      var r := t[p + 1..];
      assert |t| - |r| - 1 == p;
      assert t == t[..p] + " " + r;
    }
  }

  /** A line with no space, or one whose only space is its last character, is kept whole: `nX` and `n ` pass the prefix rule. */
  lemma ShortLinesPassThrough()
    ensures StripWordNetId("nX") == "nX"
    ensures StripWordNetId("n ") == "n "
  {
    assert ' ' !in "nX";
    assert IndexOf("n ", ' ') == 1 by {
      assert "n "[1] == ' ' && ' ' !in "n "[..1];
    }
  }

  /**
   * Trimming comes before the prefix rule: a one-character line followed by
   * white space is that character, so a label-file line `n ` becomes the
   * label `n` and not `n `.
   */
  lemma TrailingSpaceTrimmedFirst(c: char, pad: string)
    requires !IsWhiteSpace(c) && AllWhiteSpace(pad)
    ensures NormalizeLine([c] + pad) == [c]
  {
    TrimAround([], [c], pad);
    assert [] + [c] + pad == [c] + pad;
    assert ' ' !in [c];
  }

  /** One line of a label file: a bare label, or a label after a WordNet ID. */
  datatype LabelLine = Plain(name: string) | WithId(wnid: string, name: string)

  /** A label name as it can appear in a label file. */
  predicate ValidName(name: string) {
    name != [] && IsTrimmed(name) && NoneOf(name, LineBreaks)
  }

  /**
   * A line the parser reads back as its name: a WordNet ID is a white-space-free
   * word starting with `n`; a bare label must not itself look like an ID line.
   */
  predicate WellFormed(line: LabelLine) {
    match line
    case Plain(name) => ValidName(name) && !(name[0] == 'n' && ' ' in name)
    case WithId(wnid, name) =>
      && ValidName(name) && |wnid| > 0 && wnid[0] == 'n'
      && forall i :: 0 <= i < |wnid| ==> !IsWhiteSpace(wnid[i])
  }

  function Render(line: LabelLine): string {
    match line
    case Plain(name) => name
    case WithId(wnid, name) => wnid + " " + name
  }

  /** A label file: the rendered lines, each but the last followed by a line feed. */
  function FormatLabelFile(lines: seq<LabelLine>): string {
    if |lines| == 0 then []
    else if |lines| == 1 then Render(lines[0])
    else Render(lines[0]) + "\n" + FormatLabelFile(lines[1..])
  }

  /** Each well-formed line is read back as its name. */
  lemma NormalizeRendered(line: LabelLine)
    requires WellFormed(line)
    ensures NormalizeLine(Render(line)) == line.name
    ensures Render(line) != [] && NoneOf(Render(line), LineBreaks)
  {
    match line
    case Plain(name) =>
      PlainLineKept(name);
    case WithId(wnid, name) =>
      NormalizeIdLine(wnid, name);
  }

  /** A line made of a WordNet ID, a space and a name is read back as the name. */
  lemma NormalizeIdLine(wnid: string, name: string)
    requires WellFormed(WithId(wnid, name))
    ensures NormalizeLine(wnid + " " + name) == name
    ensures NoneOf(wnid + " " + name, LineBreaks)
  {
    var s := wnid + " " + name;
    IdLineIsTrimmed(wnid, name);
    IdLineStripped(wnid, name);
    assert NormalizeLine(s) == StripWordNetId(s);
    forall i | 0 <= i < |s| ensures s[i] !in LineBreaks {
      if i < |wnid| {
        assert s[i] == wnid[i];
      } else if i > |wnid| {
        assert s[i] == name[i - |wnid| - 1];
      }
    }
  }

  /** A bare label that does not look like an ID line is read back unchanged. */
  lemma PlainLineKept(name: string)
    requires WellFormed(Plain(name))
    ensures NormalizeLine(name) == name
  {
    TrimOfTrimmed(name);
    if name[0] == 'n' {
      assert IndexOf(name, ' ') == -1;
    } else {
      assert name[..1] != "n";
    }
  }

  lemma IdLineIsTrimmed(wnid: string, name: string)
    requires WellFormed(WithId(wnid, name))
    ensures Trim(wnid + " " + name) == wnid + " " + name
  {
    var s := wnid + " " + name;
    assert IsTrimmed(s) by {
      assert s[0] == wnid[0];
      assert s[|s| - 1] == name[|name| - 1];
    }
    TrimOfTrimmed(s);
  }

  lemma IdLineStripped(wnid: string, name: string)
    requires WellFormed(WithId(wnid, name))
    ensures StripWordNetId(wnid + " " + name) == name
  {
    var s := wnid + " " + name;
    assert s == wnid + (" " + name);
    IndexOfAfter(wnid, " " + name, ' ');
    assert s[..1] == "n";
    assert s[|wnid| + 1..] == name;
  }

  /** A line of the label text that holds no line break stands alone as one label. */
  lemma ParseSingleLine(x: string)
    requires x != [] && NoneOf(x, LineBreaks)
    ensures ParseLabels(x) == [NormalizeLine(x)]
  {
    SplitAfterPlainPrefix(x, [], LineBreaks);
    assert x + [] == x;
    assert Split([], LineBreaks) == [[]];
    assert Split(x, LineBreaks) == [x];
  }

  /** A run of line breaks in front of the text yields only empty pieces, which are dropped. */
  lemma {:induction false} LeadingBreaksDropped(brk: string, rest: string)
    requires forall i :: 0 <= i < |brk| ==> brk[i] in LineBreaks
    ensures |brk| > 0 ==> Split(brk + rest, LineBreaks)[0] == []
    ensures RemoveEmpty(Split(brk + rest, LineBreaks)) == RemoveEmpty(Split(rest, LineBreaks))
    decreases |brk|
  {
    if |brk| > 0 {
      var t := brk + rest;
      assert t[1..] == brk[1..] + rest;
      LeadingBreaksDropped(brk[1..], rest);
      var tail := Split(t[1..], LineBreaks);
      assert Split(t, LineBreaks) == [[]] + tail;
      assert RemoveEmpty([[]] + tail) == RemoveEmpty(tail) by {
        assert ([[]] + tail)[1..] == tail;
      }
    } else {
      assert brk + rest == rest;
    }
  }

  /**
   * A first line followed by any run of line breaks (a line feed, a carriage
   * return and line feed, blank lines) contributes one label ahead of the rest.
   */
  lemma ParseFirstLine(x: string, brk: string, rest: string)
    requires x != [] && NoneOf(x, LineBreaks)
    requires |brk| > 0 && forall i :: 0 <= i < |brk| ==> brk[i] in LineBreaks
    ensures ParseLabels(x + brk + rest) == [NormalizeLine(x)] + ParseLabels(rest)
  {
    var y := brk + rest;
    assert x + brk + rest == x + y;
    SplitAfterPlainPrefix(x, y, LineBreaks);
    LeadingBreaksDropped(brk, rest);
    var pieces := Split(y, LineBreaks);
    assert x + pieces[0] == x;
    assert Split(x + y, LineBreaks) == [x] + pieces[1..];
    assert RemoveEmpty(pieces) == RemoveEmpty(pieces[1..]) by {
      assert pieces == [[]] + pieces[1..];
    }
    assert RemoveEmpty([x] + pieces[1..]) == [x] + RemoveEmpty(pieces[1..]) by {
      assert ([x] + pieces[1..])[1..] == pieces[1..];
    }
    var q := RemoveEmpty(Split(rest, LineBreaks));
    assert ([x] + q)[1..] == q;
  }

  /**
   * A non-empty line made only of white space survives the split and becomes
   * an empty label of its own, which shifts every later label one position on.
   */
  lemma BlankLineGivesEmptyLabel(piece: string, x: string, rest: string)
    requires piece != [] && AllWhiteSpace(piece) && NoneOf(piece, LineBreaks)
    requires x != [] && NoneOf(x, LineBreaks)
    ensures NormalizeLine(piece) == []
    ensures ParseLabels(piece) == [[]]
    ensures ParseLabels(x + "\n" + (piece + "\n" + rest)) == [NormalizeLine(x), []] + ParseLabels(rest)
  {
    BlankLineIsEmpty(piece);
    ParseSingleLine(piece);
    ParseTwoLines(x, piece, rest);
  }

  /** Two lines, each ended by a line feed, give two labels ahead of the rest. */
  lemma ParseTwoLines(x: string, y: string, rest: string)
    requires x != [] && NoneOf(x, LineBreaks)
    requires y != [] && NoneOf(y, LineBreaks)
    ensures ParseLabels(x + "\n" + (y + "\n" + rest)) == [NormalizeLine(x), NormalizeLine(y)] + ParseLabels(rest)
  {
    ParseFirstLine(x, "\n", y + "\n" + rest);
    ParseFirstLine(y, "\n", rest);
  }

  /** A piece made only of white space normalizes to the empty label. */
  lemma BlankLineIsEmpty(piece: string)
    requires AllWhiteSpace(piece)
    ensures NormalizeLine(piece) == []
  {
    TrimAllWhiteSpace(piece);
  }

  /** The names of a label file's lines, in order. */
  function Names(lines: seq<LabelLine>): (names: seq<string>)
    ensures |names| == |lines|
    ensures forall k :: 0 <= k < |lines| ==> names[k] == lines[k].name
  {
    if |lines| == 0 then [] else [lines[0].name] + Names(lines[1..])
  }

  /** Parsing a label file gives back the names of its lines, in order. */
  lemma {:induction false} ParseFormatRoundTrip(lines: seq<LabelLine>)
    requires forall k :: 0 <= k < |lines| ==> WellFormed(lines[k])
    ensures ParseLabels(FormatLabelFile(lines)) == Names(lines)
    decreases |lines|
  {
    if |lines| == 0 {
      assert Split([], LineBreaks) == [[]];
    } else if |lines| == 1 {
      NormalizeRendered(lines[0]);
      ParseSingleLine(Render(lines[0]));
    } else {
      ParseFirstRendered(lines);
      ParseFormatRoundTrip(lines[1..]);
    }
  }

  /** The first line of a file with more lines is parsed on its own. */
  lemma ParseFirstRendered(lines: seq<LabelLine>)
    requires |lines| > 1 && WellFormed(lines[0])
    ensures ParseLabels(FormatLabelFile(lines)) == [lines[0].name] + ParseLabels(FormatLabelFile(lines[1..]))
  {
    NormalizeRendered(lines[0]);
    ParseFirstLine(Render(lines[0]), "\n", FormatLabelFile(lines[1..]));
  }

  /** The lines of the three-line example label file are well formed. */
  lemma ExampleFirstLine()
    ensures WellFormed(WithId("n01440764", "tench"))
  {
  }

  lemma ExampleSecondLine()
    ensures WellFormed(WithId("n01443537", "goldfish, Carassius auratus"))
  {
  }

  lemma ExampleThirdLine()
    ensures WellFormed(Plain("plain_label"))
  {
  }

  /** A three-line label file: two lines carry WordNet IDs, one is a bare label. */
  const ExampleLines: seq<LabelLine> :=
    [WithId("n01440764", "tench"), WithId("n01443537", "goldfish, Carassius auratus"), Plain("plain_label")]

  /** The three-line example: IDs are dropped, synonyms and bare labels are kept. */
  lemma ExampleLabelFile()
    ensures ParseLabels(FormatLabelFile(ExampleLines)) == ["tench", "goldfish, Carassius auratus", "plain_label"]
  {
    ExampleFirstLine();
    ExampleSecondLine();
    ExampleThirdLine();
    ParseFormatRoundTrip(ExampleLines);
  }
}
