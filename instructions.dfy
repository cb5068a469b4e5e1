/** `align_instructions`: pad every mnemonic with spaces so that the operands of all
    instructions start in the same column. */
module Instructions {

  import opened Wrappers
  import opened PyStr
  import opened Isa
  import opened Swap

  /** The lines whose match `ms[k]` is not `None`, right-stripped, in order. */
  function Selected(lines: seq<string>, ms: seq<Option<Match>>): (r: seq<string>)
    requires |ms| == |lines|
    ensures |r| <= |lines|
  {
    if lines == [] then []
    else
      var n := |lines| - 1;
      Selected(lines[..n], ms[..n]) + (if ms[n].Some? then [RStrip(lines[n])] else [])
  }

  /** The first loop: the lines holding a mnemonic, right-stripped. */
  function Collected(lines: seq<string>): seq<string> {
    Selected(lines, Matches(lines))
  }

  /** The second loop: the length of every match (`span[1] - span[0]`); `.span()` of a
      missing match fails. */
  function MnemonicWidths(ms: seq<Option<Match>>): (r: Result<seq<int>, Error>)
    ensures r.Ok? <==> forall k :: 0 <= k < |ms| ==> ms[k].Some?
    ensures r.Err? ==> r.error == NoneSpan
    ensures r.Ok? ==> (|r.value| == |ms| &&
      forall k :: 0 <= k < |ms| ==> r.value[k] == ms[k].value.end - ms[k].value.start)
  {
    if ms == [] then Ok([])
    else
      var init := ms[..|ms| - 1];
      assert forall k :: 0 <= k < |init| ==> init[k] == ms[k];
      match MnemonicWidths(init)
      case Err(e) => Err(e)
      case Ok(ws) =>
        match ms[|ms| - 1]
        case None => Err(NoneSpan)
        case Some(mt) => Ok(ws + [mt.end - mt.start])
  }

  /** One line of the last loop: `n` spaces inserted at column `end`, then a newline. */
  function Padded(l: string, end: nat, n: int): string
    requires end <= |l|
  {
    l[..end] + Spaces(n) + l[end..] + "\n"
  }

  /** The last loop over all collected lines, line `k` padded by `pads[k]` after its match. */
  function PaddedAll(ls: seq<string>, ms: seq<Option<Match>>, pads: seq<int>): (r: seq<string>)
    requires |ms| == |ls| == |pads|
    requires forall k :: 0 <= k < |ls| ==> ms[k].Some? && ms[k].value.end <= |ls[k]|
    ensures |r| == |ls|
  {
    seq(|ls|, k requires 0 <= k < |ls| => Padded(ls[k], ms[k].value.end, pads[k]))
  }

  /** How far each mnemonic falls short of the longest one. */
  function Shortfalls(ws: seq<int>, w: int): (r: seq<int>)
    ensures |r| == |ws|
  {
    seq(|ws|, k requires 0 <= k < |ws| => w - ws[k])
  }

  /** The list `align_instructions` hands to `swap_elements`: every collected line with its
      mnemonic padded to the longest one; `max` of no lengths fails. */
  function InstructionsPadded(lines: seq<string>): Result<seq<string>, Error> {
    var ls := Collected(lines);
    var ms := Matches(ls);
    match MnemonicWidths(ms)
    case Err(e) => Err(e)
    case Ok(ws) =>
      if ws == [] then Err(EmptyMax)
      else Ok(PaddedAll(ls, ms, Shortfalls(ws, Max(ws))))
  }

  /** `align_instructions` as a value. */
  function InstructionsAligned(lines: seq<string>): Result<seq<string>, Error> {
    match InstructionsPadded(lines)
    case Err(e) => Err(e)
    case Ok(ps) => SwapSpec(lines, ps)
  }

  /** The length of the longest mnemonic in the program; 0 when there is none. */
  function Widest(lines: seq<string>): int {
    match MnemonicWidths(Matches(Collected(lines)))
    case Err(_) => 0
    case Ok(ws) => if ws == [] then 0 else Max(ws)
  }

  /** What the last loop makes of line `l` with match `mt`, for the longest mnemonic `w`: the
      text through the mnemonic is kept, `w` less the mnemonic's length spaces follow, then
      the rest of the line, which so starts at column `mt.start + w`, and a newline. */
  ghost predicate PaddedAfterMnemonic(o: string, l: string, mt: Match, w: int) {
    && mt.start < mt.end <= |l|
    && mt.start + w >= mt.end
    && |o| == |l| + (mt.start + w - mt.end) + 1
    && o[..mt.end] == l[..mt.end]
    && o[mt.end..mt.start + w] == Spaces(mt.start + w - mt.end)
    && o[mt.start + w..] == l[mt.end..] + "\n"
  }

  // ---------------------------------------------------------------------------------------
  // The collected lines.

  lemma SelectedSnoc(lines: seq<string>, ms: seq<Option<Match>>, i: nat)
    requires |ms| == |lines| && i < |lines|
    ensures Selected(lines[..i + 1], ms[..i + 1]) ==
      Selected(lines[..i], ms[..i]) + (if ms[i].Some? then [RStrip(lines[i])] else [])
  {
    var p, q := lines[..i + 1], ms[..i + 1];
    assert p[..i] == lines[..i] && q[..i] == ms[..i];
  }

  /** No line is collected exactly when there is no match. */
  lemma {:induction false} SelectedEmpty(lines: seq<string>, ms: seq<Option<Match>>)
    requires |ms| == |lines|
    ensures Selected(lines, ms) == [] <==> forall k :: 0 <= k < |ms| ==> ms[k].None?
  {
    if lines != [] {
      var n := |lines| - 1;
      SelectedEmpty(lines[..n], ms[..n]);
      assert forall k :: 0 <= k < n ==> ms[..n][k] == ms[k];
    }
  }

  /** When only non-blank lines match, there are at most as many collected lines as
      non-blank lines, and as many only when every non-blank line matches. */
  lemma {:induction false} SelectedFewer(lines: seq<string>, ms: seq<Option<Match>>)
    requires |ms| == |lines|
    requires forall k :: 0 <= k < |lines| && ms[k].Some? ==> !IsBlank(lines[k])
    ensures |Selected(lines, ms)| <= Count(lines)
    ensures |Selected(lines, ms)| == Count(lines) ==>
      forall k :: 0 <= k < |lines| && !IsBlank(lines[k]) ==> ms[k].Some?
  {
    if lines != [] {
      var n := |lines| - 1;
      var init, mi := lines[..n], ms[..n];
      assert forall k :: 0 <= k < n ==> init[k] == lines[k] && mi[k] == ms[k];
      SelectedFewer(init, mi);
      RankOfPrefix(lines, n, n);
    }
  }

  /** When exactly the non-blank lines match, the collected lines are the non-blank lines,
      right-stripped. */
  lemma {:induction false} SelectedAreNonBlank(lines: seq<string>, ms: seq<Option<Match>>)
    requires |ms| == |lines|
    requires forall k :: 0 <= k < |lines| ==> (ms[k].Some? <==> !IsBlank(lines[k]))
    ensures |Selected(lines, ms)| == Count(lines)
    ensures forall j :: 0 <= j < Count(lines) ==> Selected(lines, ms)[j] == RStrip(NonBlank(lines)[j])
  {
    if lines != [] {
      var n := |lines| - 1;
      var init, mi := lines[..n], ms[..n];
      assert forall k :: 0 <= k < n ==> init[k] == lines[k] && mi[k] == ms[k];
      SelectedAreNonBlank(init, mi);
      RankOfPrefix(lines, n, n);
    }
  }

  /** Every collected line comes from a matching line of the program. */
  lemma {:induction false} SourceOf(lines: seq<string>, ms: seq<Option<Match>>, j: nat) returns (k: nat)
    requires |ms| == |lines| && j < |Selected(lines, ms)|
    ensures k < |lines| && ms[k].Some? && Selected(lines, ms)[j] == RStrip(lines[k])
  {
    var n := |lines| - 1;
    var init, mi := lines[..n], ms[..n];
    if j < |Selected(init, mi)| {
      k := SourceOf(init, mi, j);
      assert init[k] == lines[k] && mi[k] == ms[k];
    } else {
      k := n;
    }
  }

  /** And every matching line is collected. */
  lemma {:induction false} SelectedAt(lines: seq<string>, ms: seq<Option<Match>>, k: nat) returns (j: nat)
    requires |ms| == |lines| && k < |lines| && ms[k].Some?
    ensures j < |Selected(lines, ms)| && Selected(lines, ms)[j] == RStrip(lines[k])
  {
    var n := |lines| - 1;
    var init, mi := lines[..n], ms[..n];
    if k < n {
      assert init[k] == lines[k] && mi[k] == ms[k];
      j := SelectedAt(init, mi, k);
    } else {
      j := |Selected(lines, ms)| - 1;
    }
  }

  /** A line with a mnemonic is not blank. */
  lemma MatchingLinesAreNotBlank(lines: seq<string>)
    ensures forall k :: 0 <= k < |lines| && Matches(lines)[k].Some? ==> !IsBlank(lines[k])
  {
    forall k | 0 <= k < |lines| && Matches(lines)[k].Some? ensures !IsBlank(lines[k]) {
      MatchIsNotBlank(lines[k]);
    }
  }

  /** Right-stripping keeps each collected line's match: it is the match of the line it came
      from. */
  lemma CollectedMatch(lines: seq<string>, j: nat) returns (k: nat)
    requires j < |Collected(lines)|
    ensures k < |lines| && Search(lines[k]).Some?
    ensures Collected(lines)[j] == RStrip(lines[k])
    ensures Matches(Collected(lines))[j] == Search(lines[k])
  {
    k := SourceOf(lines, Matches(lines), j);
    SearchRStrip(lines[k]);
  }

  // ---------------------------------------------------------------------------------------
  // What `align_instructions` achieves.

  /** The collected lines all have a match, so the widths are always measured. */
  lemma WidthsOfCollected(lines: seq<string>)
    ensures MnemonicWidths(Matches(Collected(lines))).Ok?
    ensures |MnemonicWidths(Matches(Collected(lines))).value| == |Collected(lines)|
  {
    forall j | 0 <= j < |Collected(lines)| ensures Matches(Collected(lines))[j].Some? {
      var k := CollectedMatch(lines, j);
    }
  }

  /** Before `swap_elements`, `align_instructions` fails only with `EmptyMax`, and exactly
      when no line has a mnemonic; otherwise it pads one line per matching line. */
  lemma PaddedErrors(lines: seq<string>)
    ensures InstructionsPadded(lines).Err? <==> AllMissing(lines)
    ensures InstructionsPadded(lines).Err? ==> InstructionsPadded(lines).error == EmptyMax
    ensures InstructionsPadded(lines).Ok? ==> |InstructionsPadded(lines).value| == |Collected(lines)|
  {
    WidthsOfCollected(lines);
    var ws := MnemonicWidths(Matches(Collected(lines))).value;
    assert InstructionsPadded(lines).Err? <==> ws == [];
    assert ws == [] <==> Collected(lines) == [];
    assert AllMissing(lines) <==> forall k :: 0 <= k < |lines| ==> Matches(lines)[k].None? by {
      MatchesAt(lines);
    }
    SelectedEmpty(lines, Matches(lines));
  }

  ghost predicate AllMissing(lines: seq<string>) {
    forall k :: 0 <= k < |lines| ==> Search(lines[k]).None?
  }

  lemma MatchesAt(lines: seq<string>)
    ensures forall k :: 0 <= k < |lines| ==> Matches(lines)[k] == Search(lines[k])
  {
  }

  /** When every non-blank line has a mnemonic, the collected lines are the non-blank lines,
      right-stripped, one each; otherwise there are fewer of them. */
  lemma CollectedCount(lines: seq<string>)
    ensures |Collected(lines)| <= Count(lines)
    ensures |Collected(lines)| == Count(lines) <==>
      forall k :: 0 <= k < |lines| && !IsBlank(lines[k]) ==> Search(lines[k]).Some?
  {
    var ms := Matches(lines);
    MatchingLinesAreNotBlank(lines);
    SelectedFewer(lines, ms);
    if forall k :: 0 <= k < |lines| && !IsBlank(lines[k]) ==> ms[k].Some? {
      SelectedAreNonBlank(lines, ms);
    }
  }

  /** When there are as many collected lines as non-blank lines, the non-blank line `k` has a
      mnemonic and is the collected line of its rank. */
  lemma CollectedLine(lines: seq<string>, k: nat)
    requires Count(lines) <= |Collected(lines)| && k < |lines| && !IsBlank(lines[k])
    ensures Search(lines[k]).Some? && Rank(lines, k) < |Collected(lines)|
    ensures Collected(lines)[Rank(lines, k)] == RStrip(lines[k])
  {
    var ms := Matches(lines);
    assert forall i :: 0 <= i < |lines| ==> (ms[i].Some? <==> !IsBlank(lines[i])) by {
      MatchesAt(lines);
      CollectedCount(lines);
      MatchingLinesAreNotBlank(lines);
    }
    SelectedAreNonBlank(lines, ms);
    NonBlankAt(lines, k);
    assert ms[k] == Search(lines[k]);
  }

  /** `align_instructions` fails with `EmptyMax` exactly when no line has a mnemonic, with
      `IndexOut` (inside `swap_elements`) exactly when some line has one but some non-blank
      line has none, and never with `NoneSpan`. */
  lemma InstructionsErrors(lines: seq<string>)
    ensures InstructionsAligned(lines) == Err(EmptyMax) <==>
      forall k :: 0 <= k < |lines| ==> Search(lines[k]).None?
    ensures InstructionsAligned(lines) == Err(IndexOut) <==>
      (exists k :: 0 <= k < |lines| && Search(lines[k]).Some?) &&
      (exists k :: 0 <= k < |lines| && !IsBlank(lines[k]) && Search(lines[k]).None?)
    ensures InstructionsAligned(lines).Err? ==> InstructionsAligned(lines).error in {EmptyMax, IndexOut}
  {
    PaddedErrors(lines);
    CollectedCount(lines);
  }

  /** The longest mnemonic: at least as long as every match, and the length of one. */
  lemma WidestMnemonic(lines: seq<string>)
    ensures forall k :: 0 <= k < |lines| && Search(lines[k]).Some? ==>
      |Name(Search(lines[k]).value.op)| <= Widest(lines)
    ensures (exists k :: 0 <= k < |lines| && Search(lines[k]).Some?) ==>
      exists k :: 0 <= k < |lines| && Search(lines[k]).Some? && |Name(Search(lines[k]).value.op)| == Widest(lines)
  {
    WidthsOfCollected(lines);
    var ls := Collected(lines);
    var ws := MnemonicWidths(Matches(ls)).value;
    forall k | 0 <= k < |lines| && Search(lines[k]).Some?
      ensures |Name(Search(lines[k]).value.op)| <= Widest(lines)
    {
      var j := SelectedAt(lines, Matches(lines), k);
      SearchRStrip(lines[k]);
      assert ws[j] == |Name(Search(lines[k]).value.op)|;
      assert ws[j] in ws;
    }
    if exists k :: 0 <= k < |lines| && Search(lines[k]).Some? {
      var k0 :| 0 <= k0 < |lines| && Search(lines[k0]).Some?;
      var j0 := SelectedAt(lines, Matches(lines), k0);
      var j :| 0 <= j < |ws| && ws[j] == Max(ws);
      var k := CollectedMatch(lines, j);
      assert ws[j] == |Name(Search(lines[k]).value.op)|;
    }
  }

  /** Inserting `w - (end - start)` spaces after the mnemonic: the text through the mnemonic is
      kept, only spaces are inserted, and the rest starts at `start + w`. */
  lemma PaddedMeaning(l: string, mt: Match, w: int)
    requires mt.start < mt.end <= |l| && mt.start + w >= mt.end
    ensures PaddedAfterMnemonic(Padded(l, mt.end, mt.start + w - mt.end), l, mt, w)
  {
    var n := mt.start + w - mt.end;
    var o := Padded(l, mt.end, n);
    assert o == l[..mt.end] + (Spaces(n) + (l[mt.end..] + "\n"));
    assert o[mt.end..] == Spaces(n) + (l[mt.end..] + "\n");
    assert o[mt.end..][..n] == Spaces(n);
    assert o[mt.end..][n..] == l[mt.end..] + "\n";
  }

  /** Collected line `j` is padded after its match to the longest mnemonic. */
  lemma PaddedEntry(lines: seq<string>, j: nat)
    requires InstructionsPadded(lines).Ok? && j < |Collected(lines)|
    ensures |InstructionsPadded(lines).value| == |Collected(lines)|
    ensures Matches(Collected(lines))[j].Some?
    ensures var mt := Matches(Collected(lines))[j].value;
      InstructionsPadded(lines).value[j] ==
        Padded(Collected(lines)[j], mt.end, Widest(lines) - (mt.end - mt.start))
  {
    WidthsOfCollected(lines);
  }

  /** On success, a blank line is kept and every other line has a mnemonic, padded as
      `PaddedAfterMnemonic` says with the longest mnemonic of the program. */
  lemma InstructionsLine(lines: seq<string>, out: seq<string>, k: nat)
    requires InstructionsAligned(lines) == Ok(out) && k < |lines|
    ensures |out| == |lines|
    ensures IsBlank(lines[k]) ==> out[k] == lines[k]
    ensures !IsBlank(lines[k]) ==> (Search(lines[k]).Some? &&
      PaddedAfterMnemonic(out[k], RStrip(lines[k]), Search(lines[k]).value, Widest(lines)))
  {
    var ps := InstructionsPadded(lines).value;
    assert SwapSpec(lines, ps) == Ok(out);
    PaddedErrors(lines);
    SwappedAt(lines, ps, k);
    if !IsBlank(lines[k]) {
      var j := Rank(lines, k);
      CollectedLine(lines, k);
      var l := RStrip(lines[k]);
      var mt := Search(lines[k]).value;
      assert Matches(Collected(lines))[j] == Some(mt) by { SearchRStrip(lines[k]); }
      PaddedEntry(lines, j);
      WidestMnemonic(lines);
      assert out[k] == Padded(l, mt.end, mt.start + Widest(lines) - mt.end);
      PaddedMeaning(l, mt, Widest(lines));
    }
  }

  // ---------------------------------------------------------------------------------------
  // The loops.

  /** The first loop: collect the right-stripped lines that hold a mnemonic. */
  method CollectInstructions(lines: array<string>) returns (ls: seq<string>)
    ensures ls == Collected(lines[..])
  {
    ghost var ms := Matches(lines[..]);
    ls := [];
    for i := 0 to lines.Length
      invariant ls == Selected(lines[..i], ms[..i])
    {
      SelectedSnoc(lines[..], ms, i);
      assert lines[..][..i + 1] == lines[..i + 1] && lines[..][..i] == lines[..i];
      assert ms[i] == Search(lines[i]);
      if Search(lines[i]).Some? {
        ls := ls + [RStrip(lines[i])];
      }
    }
    assert lines[..lines.Length] == lines[..] && ms[..lines.Length] == ms;
  }

  /** The second loop: the length of every match. */
  method MeasureMnemonics(matches: seq<Option<Match>>) returns (r: Result<seq<int>, Error>)
    ensures r == MnemonicWidths(matches)
  {
    var lengths: seq<int> := [];
    for i := 0 to |matches|
      invariant MnemonicWidths(matches[..i]) == Ok(lengths)
    {
      var p := matches[..i + 1];
      assert p[..|p| - 1] == matches[..i];
      if matches[i].None? {
        assert MnemonicWidths(p).Err?;
        return Err(NoneSpan);
      }
      var span := matches[i].value;
      lengths := lengths + [span.end - span.start];
    }
    assert matches[..|matches|] == matches;
    return Ok(lengths);
  }

  /** The last loop: insert each line's padding right after its mnemonic. */
  method PadMnemonics(ls: seq<string>, ms: seq<Option<Match>>, pads: seq<int>) returns (out: seq<string>)
    requires |ms| == |ls| == |pads|
    requires forall k :: 0 <= k < |ls| ==> ms[k].Some? && ms[k].value.end <= |ls[k]|
    ensures out == PaddedAll(ls, ms, pads)
  {
    out := ls;
    for i := 0 to |ls|
      invariant |out| == |ls|
      invariant forall k :: 0 <= k < i ==> out[k] == Padded(ls[k], ms[k].value.end, pads[k])
      invariant forall k :: i <= k < |ls| ==> out[k] == ls[k]
    {
      var lastChar := ms[i].value.end;
      var offset := Spaces(pads[i]);
      out := out[i := out[i][..lastChar] + offset + out[i][lastChar..] + "\n"];
    }
  }

  /** `align_instructions`: the three loops, then `swap_elements`. A failure before
      `swap_elements` writes nothing; `swap_elements` itself may stop half-way. */
  method AlignInstructions(lines: array<string>) returns (r: Result<(), Error>)
    modifies lines
    ensures r.Ok? ==> InstructionsAligned(old(lines[..])) == Ok(lines[..])
    ensures r.Err? ==> InstructionsAligned(old(lines[..])) == Err(r.error)
    ensures r.Err? && r.error != IndexOut ==> lines[..] == old(lines[..])
    ensures r.Err? && r.error == IndexOut ==>
      lines[..] == Swapped(old(lines[..]), InstructionsPadded(old(lines[..])).value)
  {
    var ls := CollectInstructions(lines);
    var matches := seq(|ls|, k requires 0 <= k < |ls| => Search(ls[k]));
    assert matches == Matches(ls);
    var widths := MeasureMnemonics(matches);
    if widths.Err? {
      return Err(widths.error);
    }
    var lengths := widths.value;
    if |lengths| == 0 {
      return Err(EmptyMax);
    }
    var maximum := Max(lengths);
    lengths := seq(|lengths|, k requires 0 <= k < |lengths| => maximum - lengths[k]);
    var padded := PadMnemonics(ls, matches, lengths);
    r := SwapElements(lines, padded);
  }
}
