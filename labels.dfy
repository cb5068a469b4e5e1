/** `align_labels`: start every instruction one column past the longest label. */
module Labels {

  import opened Wrappers
  import opened PyStr
  import opened Isa
  import opened Swap

  /** The non-blank lines, stripped: what the first loop of `align_labels` collects. */
  function Extracted(lines: seq<string>): (r: seq<string>)
    ensures |r| == Count(lines)
  {
    var nb := NonBlank(lines);
    seq(|nb|, k requires 0 <= k < |nb| => Strip(nb[k]))
  }

  /** Every collected line upper-cased and rid of commas: the second loop. */
  function Sanitized(ls: seq<string>): (r: seq<string>)
    ensures |r| == |ls|
  {
    seq(|ls|, k requires 0 <= k < |ls| => Sanitize(ls[k]))
  }

  /** The code lines `align_labels` works on. */
  function Code(lines: seq<string>): (r: seq<string>)
    ensures |r| == Count(lines)
  {
    Sanitized(Extracted(lines))
  }

  /** The third loop: the width of every label, one less than the column of the line's
      mnemonic, for the lines whose mnemonic is not at column 0; a line without a mnemonic
      stops the loop (`.span()` of `None`). */
  function LabelWidths(matches: seq<Option<Match>>): (r: Result<seq<int>, Error>)
    ensures r.Ok? <==> forall k :: 0 <= k < |matches| ==> matches[k].Some?
    ensures r.Err? ==> r.error == NoneSpan
  {
    if matches == [] then Ok([])
    else
      var init := matches[..|matches| - 1];
      assert forall k :: 0 <= k < |init| ==> init[k] == matches[k];
      match LabelWidths(init)
      case Err(e) => Err(e)
      case Ok(ws) =>
        match matches[|matches| - 1]
        case None => Err(NoneSpan)
        case Some(mt) => Ok(if mt.start != 0 then ws + [mt.start - 1] else ws)
  }

  /** The fourth loop, for one line: a line whose first word holds a mnemonic is pushed right
      by `m + 1` columns; otherwise its first word, the label, is padded to `m` columns. The
      words are then joined by single spaces. */
  function AlignLabelLine(line: string, m: int): string
    requires Split(line) != []
  {
    var comps := Split(line);
    AlignWords(comps, Search(comps[0]).Some?, m)
  }

  /** The words of a line rejoined, the first one pushed right by `m + 1` columns when
      `pushed`, and padded to `m` columns otherwise. */
  function AlignWords(comps: seq<string>, pushed: bool, m: int): string
    requires comps != []
  {
    var first := if pushed then Spaces(m + 1) + comps[0] else comps[0] + Spaces(m - |comps[0]|);
    Join([first] + comps[1..]) + "\n"
  }

  /** The fourth loop over all code lines. */
  function AlignedAll(ls: seq<string>, m: int): (r: seq<string>)
    requires forall k :: 0 <= k < |ls| ==> Split(ls[k]) != []
    ensures |r| == |ls|
  {
    seq(|ls|, k requires 0 <= k < |ls| => AlignLabelLine(ls[k], m))
  }

  /** Every line with a mnemonic has a word. */
  lemma MatchedLinesHaveWords(ls: seq<string>)
    requires forall k :: 0 <= k < |ls| ==> Matches(ls)[k].Some?
    ensures forall k :: 0 <= k < |ls| ==> Split(ls[k]) != []
  {
    forall k | 0 <= k < |ls| ensures Split(ls[k]) != [] {
      assert Matches(ls)[k].Some?;
      MatchIsNotBlank(ls[k]);
      SplitNonBlank(ls[k]);
    }
  }

  /** `align_labels` as a value: `NoneSpan` when a code line has no mnemonic, `EmptyMax` when
      no line has a label, and otherwise the program with every non-blank line replaced by its
      aligned code line. */
  function LabelsAligned(lines: seq<string>): Result<seq<string>, Error> {
    var ls := Code(lines);
    match LabelWidths(Matches(ls))
    case Err(e) => Err(e)
    case Ok(ws) =>
      if ws == [] then Err(EmptyMax)
      else
        MatchedLinesHaveWords(ls);
        SwapSpec(lines, AlignedAll(ls, Max(ws)))
  }

  lemma ExtractedSnoc(lines: seq<string>, i: nat)
    requires i < |lines|
    ensures Extracted(lines[..i + 1]) == Extracted(lines[..i]) + (if Strip(lines[i]) != [] then [Strip(lines[i])] else [])
  {
    NonBlankSnoc(lines, i);
    var nb := NonBlank(lines[..i]);
    var e := Extracted(lines[..i]);
    var e1 := Extracted(lines[..i + 1]);
    assert forall k :: 0 <= k < |e| ==> e1[k] == e[k];
  }

  lemma LabelWidthsSnoc(ms: seq<Option<Match>>, i: nat, ws: seq<int>)
    requires i < |ms| && LabelWidths(ms[..i]) == Ok(ws)
    ensures LabelWidths(ms[..i + 1]) == match ms[i]
      case None => Err(NoneSpan)
      case Some(mt) => Ok(if mt.start != 0 then ws + [mt.start - 1] else ws)
  {
    var a := ms[..i + 1];
    assert a[..|a| - 1] == ms[..i];
  }

  // ---------------------------------------------------------------------------------------
  // What `align_labels` achieves.

  /** The label widths are the columns of the mnemonics, less one, of the lines not starting
      with a mnemonic; there are none exactly when every line starts with one. */
  lemma WidthsOfMatches(ms: seq<Option<Match>>, ws: seq<int>)
    requires LabelWidths(ms) == Ok(ws)
    ensures forall k :: 0 <= k < |ms| && ms[k].value.start != 0 ==> ms[k].value.start - 1 in ws
    ensures forall x :: x in ws ==> x >= 0 && exists k :: 0 <= k < |ms| && ms[k].value.start == x + 1
    ensures ws == [] <==> forall k :: 0 <= k < |ms| ==> ms[k].value.start == 0
  {
    EveryLabelMeasured(ms, ws);
    OnlyLabelsMeasured(ms, ws);
    if ws != [] {
      assert ws[0] in ws;
    }
  }

  /** Every line whose mnemonic is not at column 0 contributes its label width. */
  lemma {:induction false} EveryLabelMeasured(ms: seq<Option<Match>>, ws: seq<int>)
    requires LabelWidths(ms) == Ok(ws)
    ensures forall k :: 0 <= k < |ms| && ms[k].value.start != 0 ==> ms[k].value.start - 1 in ws
  {
    if ms != [] {
      var init := ms[..|ms| - 1];
      var last := ms[|ms| - 1].value;
      assert forall k :: 0 <= k < |init| ==> init[k] == ms[k];
      var iws := LabelWidths(init).value;
      EveryLabelMeasured(init, iws);
      assert ws == if last.start != 0 then iws + [last.start - 1] else iws;
    }
  }

  /** Every width measured is the width of some line's label. */
  lemma {:induction false} OnlyLabelsMeasured(ms: seq<Option<Match>>, ws: seq<int>)
    requires LabelWidths(ms) == Ok(ws)
    ensures forall x :: x in ws ==> x >= 0 && exists k :: 0 <= k < |ms| && ms[k].value.start == x + 1
  {
    if ms != [] {
      var init := ms[..|ms| - 1];
      var last := ms[|ms| - 1].value;
      assert forall k :: 0 <= k < |init| ==> init[k] == ms[k];
      var iws := LabelWidths(init).value;
      OnlyLabelsMeasured(init, iws);
      assert ws == if last.start != 0 then iws + [last.start - 1] else iws;
      forall x | x in ws ensures x >= 0 && exists k :: 0 <= k < |ms| && ms[k].value.start == x + 1 {
        if x in iws {
          var k :| 0 <= k < |init| && init[k].value.start == x + 1;
          assert ms[k] == init[k];
        } else {
          assert ms[|ms| - 1].value.start == x + 1;
        }
      }
    }
  }

  /** `align_labels` fails only in two ways: with `NoneSpan` exactly when some code line has no
      mnemonic, and with `EmptyMax` exactly when every code line starts with its mnemonic. */
  lemma LabelsAlignedErrors(lines: seq<string>)
    ensures var ms := Matches(Code(lines));
      LabelsAligned(lines) == Err(NoneSpan) <==> exists k :: 0 <= k < |ms| && ms[k].None?
    ensures var ms := Matches(Code(lines));
      LabelsAligned(lines) == Err(EmptyMax) <==>
        (forall k :: 0 <= k < |ms| ==> ms[k].Some?) && forall k :: 0 <= k < |ms| ==> ms[k].value.start == 0
    ensures LabelsAligned(lines).Err? ==> LabelsAligned(lines).error in {NoneSpan, EmptyMax}
  {
    var ls := Code(lines);
    var ms := Matches(ls);
    match LabelWidths(ms)
    case Err(e) =>
    case Ok(ws) =>
      WidthsOfMatches(ms, ws);
      if ws != [] {
        MatchedLinesHaveWords(ls);
        assert |AlignedAll(ls, Max(ws))| == Count(lines);
      }
  }

  /** The widest label: at least every label's width, and one of them. */
  lemma WidestLabel(ms: seq<Option<Match>>, ws: seq<int>)
    requires LabelWidths(ms) == Ok(ws) && ws != []
    ensures Max(ws) >= 0
    ensures forall k :: 0 <= k < |ms| ==> ms[k].value.start <= Max(ws) + 1
    ensures exists k :: 0 <= k < |ms| && ms[k].value.start == Max(ws) + 1
  {
    WidthsOfMatches(ms, ws);
  }

  /** On success, every code line has a mnemonic, some label is measured, and the result is
      the program with its non-blank lines replaced, in order, by the aligned code lines. */
  lemma LabelsAlignedShape(lines: seq<string>, out: seq<string>)
    requires LabelsAligned(lines) == Ok(out)
    ensures LabelWidths(Matches(Code(lines))).Ok? && LabelWidths(Matches(Code(lines))).value != []
    ensures forall k :: 0 <= k < |Code(lines)| ==> Split(Code(lines)[k]) != []
    ensures out == Swapped(lines, AlignedAll(Code(lines), Max(LabelWidths(Matches(Code(lines))).value)))
    ensures |out| == |lines|
  {
    MatchedLinesHaveWords(Code(lines));
  }

  /** On success, a blank line is kept and every other line becomes the code line of the same
      rank, aligned at the widest label. */
  lemma LabelsAlignedLine(lines: seq<string>, out: seq<string>, k: nat)
    requires LabelsAligned(lines) == Ok(out) && k < |lines|
    ensures IsBlank(lines[k]) ==> k < |out| && out[k] == lines[k]
    ensures !IsBlank(lines[k]) ==>
      Rank(lines, k) < |Code(lines)| && Split(Code(lines)[Rank(lines, k)]) != [] && k < |out| &&
      out[k] == AlignLabelLine(Code(lines)[Rank(lines, k)], Max(LabelWidths(Matches(Code(lines))).value))
  {
    LabelsAlignedShape(lines, out);
    var ls := Code(lines);
    var al := AlignedAll(ls, Max(LabelWidths(Matches(ls)).value));
    SwappedAt(lines, al, k);
  }

  /** Alignment changes only whitespace: the line keeps its words, and ends with a newline. */
  lemma AlignKeepsWords(line: string, m: int)
    requires Split(line) != []
    ensures Split(AlignLabelLine(line, m)) == Split(line)
    ensures var r := AlignLabelLine(line, m); r != [] && r[|r| - 1] == '\n'
  {
    var comps := Split(line);
    WordsKept(comps, Search(comps[0]).Some?, m);
  }

  lemma WordsKept(comps: seq<string>, pushed: bool, m: int)
    requires comps != [] && forall k :: 0 <= k < |comps| ==> comps[k] != [] && IsWord(comps[k])
    ensures Split(AlignWords(comps, pushed, m)) == comps
    ensures var r := AlignWords(comps, pushed, m); r != [] && r[|r| - 1] == '\n'
  {
    var c0 := comps[0];
    if pushed {
      SplitPaddedWord(Spaces(m + 1), c0, []);
      assert Spaces(m + 1) + c0 + [] == Spaces(m + 1) + c0;
      SplitJoinLine(Spaces(m + 1) + c0, comps[1..]);
    } else {
      SplitPaddedWord([], c0, Spaces(m - |c0|));
      assert [] + c0 + Spaces(m - |c0|) == c0 + Spaces(m - |c0|);
      SplitJoinLine(c0 + Spaces(m - |c0|), comps[1..]);
    }
    assert comps == [c0] + comps[1..];
  }

  /** A line whose first word begins with a mnemonic gets that mnemonic at column `m + 1`. */
  lemma MnemonicMovesPastLabels(line: string, m: int, op: Mnemonic)
    requires Split(line) != [] && m >= 0 && OccursAt(Split(line)[0], 0, Name(op))
    ensures Search(AlignLabelLine(line, m)).Some?
    ensures Search(AlignLabelLine(line, m)).value.start == m + 1
  {
    var comps := Split(line);
    var c0 := comps[0];
    var u := JoinTail(comps[1..]) + "\n";
    SearchAtStart(c0, op);
    PushedShape(comps, m);
    OccursInExtension(c0, u, Name(op));
    NoneOccursBlank(Spaces(m + 1));
    SearchAfterPrefix(Spaces(m + 1), c0 + u, op);
  }

  /** A line whose first word is a label without a mnemonic and no wider than `m`, and whose
      second word begins with a mnemonic, also gets that mnemonic at column `m + 1`. */
  lemma LabelledMnemonicMovesPastLabels(line: string, m: int, op: Mnemonic)
    requires |Split(line)| >= 2 && NoneOccurs(Split(line)[0]) && |Split(line)[0]| <= m
    requires OccursAt(Split(line)[1], 0, Name(op))
    ensures Search(AlignLabelLine(line, m)).Some?
    ensures Search(AlignLabelLine(line, m)).value.start == m + 1
  {
    var comps := Split(line);
    var c0 := comps[0];
    var q, u := Spaces(m - |c0|) + " ", JoinTail(comps[2..]) + "\n";
    assert AlignLabelLine(line, m) == c0 + q + (comps[1] + u) by {
      SearchNone(c0);
      PaddedShape(comps, m);
    }
    MnemonicAfterPadding(c0, q, comps[1], u, op);
  }

  /** A mnemonic that follows a label and its padding is found where the padding ends. */
  lemma MnemonicAfterPadding(c0: string, q: string, w: string, u: string, op: Mnemonic)
    requires NoneOccurs(c0) && IsBlank(q) && q != [] && IsSpace(q[|q| - 1])
    requires OccursAt(w, 0, Name(op))
    ensures Search(c0 + q + (w + u)).Some? && Search(c0 + q + (w + u)).value.start == |c0| + |q|
  {
    OccursInExtension(w, u, Name(op));
    NoneOccursPadded(c0, q);
    SearchAfterPrefix(c0 + q, w + u, op);
  }

  /** The text of a line whose first word is pushed right. */
  lemma PushedShape(comps: seq<string>, m: int)
    requires comps != []
    ensures AlignWords(comps, true, m) == Spaces(m + 1) + (comps[0] + (JoinTail(comps[1..]) + "\n"))
  {
    JoinFront(Spaces(m + 1) + comps[0], comps[1..]);
  }

  /** The text of a line whose first word, a label, is padded. */
  lemma PaddedShape(comps: seq<string>, m: int)
    requires |comps| >= 2
    ensures AlignWords(comps, false, m) ==
      comps[0] + (Spaces(m - |comps[0]|) + " ") + (comps[1] + (JoinTail(comps[2..]) + "\n"))
  {
    var rest := comps[1..];
    JoinFront(comps[0] + Spaces(m - |comps[0]|), rest);
    assert rest == [rest[0]] + rest[1..] && rest[1..] == comps[2..];
    JoinFront(rest[0], rest[1..]);
  }

  /** The first loop of `align_labels`: collect the non-blank lines, stripped. */
  method CollectCode(lines: array<string>) returns (ls: seq<string>)
    ensures ls == Extracted(lines[..])
  {
    ls := [];
    for i := 0 to lines.Length
      invariant ls == Extracted(lines[..i])
    {
      ExtractedSnoc(lines[..], i);
      assert lines[..][..i + 1] == lines[..i + 1] && lines[..][..i] == lines[..i];
      var code := Strip(lines[i]);
      if |code| != 0 {
        ls := ls + [code];
      }
    }
    assert lines[..lines.Length] == lines[..];
  }

  /** The second loop of `align_labels`: upper-case every collected line and drop its
      commas. */
  method SanitizeCode(ls: seq<string>) returns (r: seq<string>)
    ensures r == Sanitized(ls)
  {
    r := ls;
    for i := 0 to |r|
      invariant |r| == |ls|
      invariant forall k :: 0 <= k < i ==> r[k] == Sanitize(ls[k])
      invariant forall k :: i <= k < |r| ==> r[k] == ls[k]
    {
      r := r[i := Sanitize(r[i])];
    }
  }

  /** The third loop of `align_labels`. */
  method MeasureLabels(matches: seq<Option<Match>>) returns (r: Result<seq<int>, Error>)
    ensures r == LabelWidths(matches)
  {
    var lengths: seq<int> := [];
    for i := 0 to |matches|
      invariant LabelWidths(matches[..i]) == Ok(lengths)
    {
      LabelWidthsSnoc(matches, i, lengths);
      if matches[i].None? {
        assert LabelWidths(matches) == Err(NoneSpan);
        return Err(NoneSpan);
      }
      var start := matches[i].value.start;
      if start != 0 {
        lengths := lengths + [start - 1];
      }
    }
    assert matches[..|matches|] == matches;
    return Ok(lengths);
  }

  /** The body of the fourth loop of `align_labels`, for one line. */
  method AlignLine(line: string, offset: string, maximum: int) returns (out: string)
    requires Split(line) != [] && offset == Spaces(maximum + 1)
    ensures out == AlignLabelLine(line, maximum)
  {
    var comps := Split(line);
    ghost var words := comps;
    var pushed := Search(comps[0]).Some?;
    if pushed {
      comps := comps[0 := offset + comps[0]];
    } else {
      comps := comps[0 := comps[0] + Spaces(maximum - |comps[0]|)];
    }
    out := Join(comps) + "\n";
    assert out == AlignWords(words, pushed, maximum) by {
      assert comps == [comps[0]] + words[1..];
    }
  }

  /** The fourth loop of `align_labels`. */
  method AlignCode(ls: seq<string>, maximum: int) returns (out: seq<string>)
    requires forall k :: 0 <= k < |ls| ==> Split(ls[k]) != []
    ensures out == AlignedAll(ls, maximum)
  {
    var offset := Spaces(maximum + 1);
    out := ls;
    for i := 0 to |out|
      invariant |out| == |ls|
      invariant forall k :: 0 <= k < i ==> out[k] == AlignLabelLine(ls[k], maximum)
      invariant forall k :: i <= k < |out| ==> out[k] == ls[k]
    {
      var aligned := AlignLine(out[i], offset, maximum);
      out := out[i := aligned];
    }
  }

  /** `align_labels`: the four loops, then `swap_elements`; on failure nothing is written. */
  method AlignLabels(lines: array<string>) returns (r: Result<(), Error>)
    modifies lines
    ensures r.Ok? ==> LabelsAligned(old(lines[..])) == Ok(lines[..])
    ensures r.Err? ==> LabelsAligned(old(lines[..])) == Err(r.error) && lines[..] == old(lines[..])
  {
    var ls := CollectCode(lines);
    ls := SanitizeCode(ls);
    var matches := seq(|ls|, k requires 0 <= k < |ls| => Search(ls[k]));
    assert matches == Matches(ls);
    var widths := MeasureLabels(matches);
    if widths.Err? {
      return Err(widths.error);
    }
    var lengths := widths.value;
    if |lengths| == 0 {
      return Err(EmptyMax);
    }
    var maximum := Max(lengths);
    MatchedLinesHaveWords(ls);
    var aligned := AlignCode(ls, maximum);
    r := SwapElements(lines, aligned);
  }
}
