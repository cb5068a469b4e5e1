/** `write_comments`, `retrieve_comments` and `insert_comments`: append to every instruction a
    comment holding its register-transfer description, with the ` ; ` columns aligned. */
module Comments {

  import opened Wrappers
  import opened PyStr
  import opened Isa
  import opened Render

  /** One element of the list `write_comments` builds for `retrieve_comments`: the mnemonic,
      how many columns separate it from its first operand, the operand tokens, and how many
      spaces go in front of ` ; ` (appended by the second loop). */
  datatype Entry = Entry(op: Mnemonic, gap: int, args: seq<string>, pad: int)

  /** Every match `ms[k]` lies within line `k`. */
  predicate Fits(lines: seq<string>, ms: seq<Option<Match>>) {
    && |ms| == |lines|
    && forall k :: 0 <= k < |lines| && ms[k].Some? ==> ms[k].value.start < ms[k].value.end <= |lines[k]|
  }

  lemma MatchesFit(lines: seq<string>)
    ensures Fits(lines, Matches(lines))
  {
  }

  /** How many of the first `i` lines have a match: the value of the cursor `j` of
      `insert_comments` when it reaches line `i`. */
  function Hits(ms: seq<Option<Match>>, i: nat): (n: nat)
    requires i <= |ms|
    ensures n <= i
  {
    if i == 0 then 0 else Hits(ms, i - 1) + (if ms[i - 1].Some? then 1 else 0)
  }

  /** The first column at or after `i` holding a non-whitespace character. */
  function FirstText(s: string, i: nat): Option<nat>
    requires i <= |s|
    decreases |s| - i
  {
    if i == |s| then None else if !IsSpace(s[i]) then Some(i) else FirstText(s, i + 1)
  }

  /** `FirstText` finds the first column from `i` on that is not whitespace, and finds none
      exactly when the rest of the line is whitespace. */
  lemma {:induction false} FirstTextMeaning(s: string, i: nat)
    requires i <= |s|
    ensures FirstText(s, i).Some? ==> i <= FirstText(s, i).value < |s| && !IsSpace(s[FirstText(s, i).value])
    ensures FirstText(s, i).Some? ==> forall k :: i <= k < FirstText(s, i).value ==> IsSpace(s[k])
    ensures FirstText(s, i).None? <==> forall k :: i <= k < |s| ==> IsSpace(s[k])
    decreases |s| - i
  {
    if i < |s| && IsSpace(s[i]) {
      FirstTextMeaning(s, i + 1);
    }
  }

  /** The entry the first loop makes of a matched line. The operands are the tokens after the
      mnemonic. `STOP` always gets an entry, with no gap; any other mnemonic only when
      something other than whitespace follows it. */
  function Parsed(line: string, mt: Match): Option<Entry>
    requires mt.end <= |line|
  {
    Shaped(mt, FirstText(line, mt.end), Operands(line, mt))
  }

  /** The entry of a line with match `mt`, where `found` is the first column after the
      mnemonic that is not whitespace and `args` are the tokens after the mnemonic. */
  function Shaped(mt: Match, found: Option<nat>, args: seq<string>): Option<Entry> {
    if mt.op == STOP then Some(Entry(STOP, 0, args, 0))
    else match found
      case None => None
      case Some(j) => Some(Entry(mt.op, j - mt.end, args, 0))
  }

  /** The tokens after the mnemonic. */
  function Operands(line: string, mt: Match): seq<string>
    requires mt.end <= |line|
  {
    Split(Strip(line[mt.end..]))
  }

  function Entries(e: Option<Entry>): seq<Entry> {
    if e.Some? then [e.value] else []
  }

  /** The entry the first loop makes of a line: none without a match. */
  function EntryOf(line: string): Option<Entry> {
    match Search(line)
    case None => None
    case Some(mt) => Parsed(line, mt)
  }

  /** The entry of every line. */
  function EntriesOf(lines: seq<string>): (r: seq<Option<Entry>>)
    ensures |r| == |lines|
  {
    seq(|lines|, k requires 0 <= k < |lines| => EntryOf(lines[k]))
  }

  /** The first loop of `write_comments`, given the match `ms[k]` and the entry `ps[k]` of
      every line `k`: the entries, and for every match (with an entry or not) the length of
      its line from the mnemonic on. */
  function Gathered(lines: seq<string>, ms: seq<Option<Match>>, ps: seq<Option<Entry>>): (r: (seq<Entry>, seq<int>))
    requires |ms| == |lines| == |ps|
    ensures |r.0| <= |r.1| == Hits(ms, |ms|)
  {
    if lines == [] then ([], [])
    else
      var n := |lines| - 1;
      var g := Gathered(lines[..n], ms[..n], ps[..n]);
      assert Hits(ms[..n], n) == Hits(ms, n) by { HitsOfPrefix(ms, n, n); }
      GatherStep(g, lines[n], ms[n], ps[n])
  }

  /** What the first loop adds for one line with match `m` and entry `p`. */
  function GatherStep(g: (seq<Entry>, seq<int>), line: string, m: Option<Match>, p: Option<Entry>): (seq<Entry>, seq<int>) {
    match m
    case None => g
    case Some(mt) => (g.0 + Entries(p), g.1 + [|line| - mt.start])
  }

  /** The second loop: entry `i` gets `w - ls[i]` as its padding. The lengths are indexed by
      entry, not by match, so they belong to other lines once a match had no entry. */
  function WithPads(es: seq<Entry>, ls: seq<int>, w: int): (r: seq<Entry>)
    requires |es| <= |ls|
    ensures |r| == |es|
  {
    seq(|es|, i requires 0 <= i < |es| => es[i].(pad := w - ls[i]))
  }

  /** The text `retrieve_comments` builds for an entry whose RTL text is `rtl`. */
  function Annotated(e: Entry, rtl: string): string {
    Name(e.op) + Spaces(e.gap) + Join(e.args) + (Spaces(e.pad) + " ; " + rtl + "\n")
  }

  /** One iteration of `retrieve_comments`, given the value `arg1` holds from the iterations
      before (`None` while it is unbound). Three- and two-operand instructions unpack their
      tokens, so a different number of tokens fails; a branch formats `arg1`, not its own
      operand; `STOP` keeps its template as it is. */
  function Comment(e: Entry, arg1: Option<string>): Result<string, Error> {
    if e.op in ThreeArgs || e.op in TwoArgs then
      if |e.args| != Arity(e.op) then Err(Unpack)
      else
        match Format(Template(e.op), e.args)
        case Err(x) => Err(x)
        case Ok(rtl) => Ok(Annotated(e, rtl))
    else if e.op in OneArgs then
      match arg1
      case None => Err(UnboundArg)
      case Some(a) =>
        match Format(Template(e.op), [a])
        case Err(x) => Err(x)
        case Ok(rtl) => Ok(Annotated(e, rtl))
    else Ok(Annotated(e, Template(e.op)))
  }

  /** An entry that rebinds `arg1`: a three- or two-operand instruction with a token. */
  predicate Binds(e: Entry) {
    (e.op in ThreeArgs || e.op in TwoArgs) && e.args != []
  }

  /** The value of `arg1` after an iteration that did not fail: the first operand of a
      three- or two-operand instruction, otherwise what it was. */
  function Next(e: Entry, arg1: Option<string>): Option<string> {
    if Binds(e) then Some(e.args[0]) else arg1
  }

  /** A result with `cs` put in front of its list. */
  function Then(cs: seq<string>, r: Result<seq<string>, Error>): Result<seq<string>, Error> {
    match r
    case Ok(v) => Ok(cs + v)
    case Err(e) => Err(e)
  }

  /** `retrieve_comments` from entry to entry, `arg1` carried along; the first failure ends
      it. */
  function Retrieved(es: seq<Entry>, arg1: Option<string>): Result<seq<string>, Error> {
    if es == [] then Ok([])
    else
      match Comment(es[0], arg1)
      case Err(x) => Err(x)
      case Ok(c) => Then([c], Retrieved(es[1..], Next(es[0], arg1)))
  }

  /** What `insert_comments` makes of line `k`: a matched line keeps its text before the
      mnemonic and takes the next comment; a line without a match, or one reached after the
      comments have run out (the loop stops there), stays. */
  function Spliced(lines: seq<string>, ms: seq<Option<Match>>, cs: seq<string>, k: nat): string
    requires Fits(lines, ms) && k < |lines|
  {
    match ms[k]
    case None => lines[k]
    case Some(mt) => if Hits(ms, k) < |cs| then lines[k][..mt.start] + cs[Hits(ms, k)] else lines[k]
  }

  /** The lines after `insert_comments`, also when it stops with IndexError. */
  function Inserted(lines: seq<string>, ms: seq<Option<Match>>, cs: seq<string>): (r: seq<string>)
    requires Fits(lines, ms)
    ensures |r| == |lines|
  {
    seq(|lines|, k requires 0 <= k < |lines| => Spliced(lines, ms, cs, k))
  }

  /** `insert_comments` as a value: IndexError when there are fewer comments than matches. */
  function InsertSpec(lines: seq<string>, ms: seq<Option<Match>>, cs: seq<string>): Result<seq<string>, Error>
    requires Fits(lines, ms)
  {
    if Hits(ms, |ms|) <= |cs| then Ok(Inserted(lines, ms, cs)) else Err(IndexOut)
  }

  /** Everything `write_comments` does before `insert_comments`, given the match and the
      entry of every line: the comments, or the failure (`max` of no lengths, or one from
      `retrieve_comments`). */
  function PreparedFrom(lines: seq<string>, ms: seq<Option<Match>>, ps: seq<Option<Entry>>): Result<seq<string>, Error>
    requires |ms| == |lines| == |ps|
  {
    var (es, ls) := Gathered(lines, ms, ps);
    if ls == [] then Err(EmptyMax) else Retrieved(WithPads(es, ls, Max(ls)), None)
  }

  /** `write_comments`, given the match and the entry of every line. */
  function WrittenFrom(lines: seq<string>, ms: seq<Option<Match>>, ps: seq<Option<Entry>>): Result<seq<string>, Error>
    requires Fits(lines, ms) && |ps| == |lines|
  {
    match PreparedFrom(lines, ms, ps)
    case Err(x) => Err(x)
    case Ok(cs) => InsertSpec(lines, ms, cs)
  }

  /** Everything `write_comments` does before `insert_comments`. */
  function Prepared(lines: seq<string>): Result<seq<string>, Error> {
    PreparedFrom(lines, Matches(lines), EntriesOf(lines))
  }

  /** `write_comments` as a value. */
  function CommentsWritten(lines: seq<string>): Result<seq<string>, Error> {
    MatchesFit(lines);
    WrittenFrom(lines, Matches(lines), EntriesOf(lines))
  }

  // ---------------------------------------------------------------------------------------
  // Counting matches.

  lemma {:induction false} HitsOfPrefix(ms: seq<Option<Match>>, n: nat, i: nat)
    requires i <= n <= |ms|
    ensures Hits(ms[..n], i) == Hits(ms, i)
  {
    if i > 0 {
      HitsOfPrefix(ms, n, i - 1);
      assert ms[..n][i - 1] == ms[i - 1];
    }
  }

  lemma {:induction false} HitsMonotone(ms: seq<Option<Match>>, i: nat, j: nat)
    requires i <= j <= |ms|
    ensures Hits(ms, i) <= Hits(ms, j)
    decreases j - i
  {
    if i < j {
      HitsMonotone(ms, i, j - 1);
    }
  }

  /** No match is counted exactly when there is none. */
  lemma {:induction false} HitsNone(ms: seq<Option<Match>>)
    ensures Hits(ms, |ms|) == 0 <==> forall k :: 0 <= k < |ms| ==> ms[k].None?
  {
    if ms != [] {
      var n := |ms| - 1;
      HitsNone(ms[..n]);
      HitsOfPrefix(ms, n, n);
      assert forall k :: 0 <= k < n ==> ms[..n][k] == ms[k];
    }
  }

  // ---------------------------------------------------------------------------------------
  // One comment.

  /** A three- or two-operand instruction whose token count is not its arity fails to
      unpack. */
  lemma CommentUnpacks(e: Entry, arg1: Option<string>)
    requires e.op in ThreeArgs || e.op in TwoArgs
    requires |e.args| != Arity(e.op)
    ensures Comment(e, arg1) == Err(Unpack)
  {
  }

  /** A three- or two-operand instruction other than the shifts, with as many tokens as its
      arity, gets its own RTL text. */
  lemma CommentOwnRtl(e: Entry, arg1: Option<string>)
    requires e.op in ThreeArgs || e.op in TwoArgs
    requires e.op != SLL && e.op != SLLI && |e.args| == Arity(e.op)
    ensures Comment(e, arg1) == Ok(Annotated(e, Rtl(e.op, e.args)))
  {
    TemplateRendersRtl(e.op, e.args);
  }

  /** `SLL` and `SLLI` with three tokens fail on their named field. */
  lemma CommentShiftFails(e: Entry, arg1: Option<string>)
    requires (e.op == SLL || e.op == SLLI) && |e.args| == 3
    ensures Comment(e, arg1) == Err(MissingKey)
  {
    NamedFieldFails(e.op, e.args);
  }

  /** A branch fails while `arg1` is unbound and otherwise gets the RTL text of the value
      `arg1` holds. */
  lemma CommentBranch(e: Entry, arg1: Option<string>)
    requires e.op in OneArgs
    ensures arg1.None? ==> Comment(e, arg1) == Err(UnboundArg)
    ensures arg1.Some? ==> Comment(e, arg1) == Ok(Annotated(e, Rtl(e.op, [arg1.value])))
  {
    ArityClassesAreDisjoint();
    if arg1.Some? {
      TemplateRendersRtl(e.op, [arg1.value]);
    }
  }

  /** `STOP` gets "all done". */
  lemma CommentStop(e: Entry, arg1: Option<string>)
    requires e.op == STOP
    ensures Comment(e, arg1) == Ok(Annotated(e, "all done"))
  {
    TableIsPartitioned(STOP);
  }

  /** The only ways one comment fails: unpacking, the shifts' named field, an unbound
      `arg1`. */
  lemma CommentErrors(e: Entry, arg1: Option<string>)
    ensures Comment(e, arg1).Err? ==> Comment(e, arg1).error in {Unpack, MissingKey, UnboundArg}
  {
    TableIsPartitioned(e.op);
    if e.op == STOP {
      CommentStop(e, arg1);
    } else if e.op in OneArgs {
      CommentBranch(e, arg1);
    } else if |e.args| != Arity(e.op) {
      CommentUnpacks(e, arg1);
    } else if e.op == SLL || e.op == SLLI {
      CommentShiftFails(e, arg1);
    } else {
      CommentOwnRtl(e, arg1);
    }
  }

  // ---------------------------------------------------------------------------------------
  // All comments.

  lemma {:induction false} RetrievedLength(es: seq<Entry>, arg1: Option<string>)
    requires Retrieved(es, arg1).Ok?
    ensures |Retrieved(es, arg1).value| == |es|
  {
    if es != [] {
      RetrievedLength(es[1..], Next(es[0], arg1));
    }
  }

  /** `retrieve_comments` fails only as one comment does. */
  lemma {:induction false} RetrievedErrors(es: seq<Entry>, arg1: Option<string>)
    ensures Retrieved(es, arg1).Err? ==> Retrieved(es, arg1).error in {Unpack, MissingKey, UnboundArg}
  {
    if es != [] {
      CommentErrors(es[0], arg1);
      RetrievedErrors(es[1..], Next(es[0], arg1));
    }
  }

  /** The value `arg1` holds when entry `i` is reached. */
  function Carried(es: seq<Entry>, arg1: Option<string>, i: nat): Option<string>
    requires i <= |es|
  {
    if i == 0 then arg1 else Next(es[i - 1], Carried(es, arg1, i - 1))
  }

  lemma {:induction false} CarriedTail(es: seq<Entry>, arg1: Option<string>, i: nat)
    requires 0 < i <= |es|
    ensures Carried(es[1..], Next(es[0], arg1), i - 1) == Carried(es, arg1, i)
  {
    if i > 1 {
      CarriedTail(es, arg1, i - 1);
      assert es[1..][i - 2] == es[i - 1];
    }
  }

  /** `retrieve_comments` gives one comment per entry, and comment `i` is what entry `i` makes
      with the value `arg1` carries after the entries before it. */
  lemma {:induction false} RetrievedAt(es: seq<Entry>, arg1: Option<string>, i: nat)
    requires Retrieved(es, arg1).Ok? && i < |es|
    ensures |Retrieved(es, arg1).value| == |es|
    ensures Comment(es[i], Carried(es, arg1, i)) == Ok(Retrieved(es, arg1).value[i])
  {
    RetrievedLength(es, arg1);
    if i > 0 {
      RetrievedAt(es[1..], Next(es[0], arg1), i - 1);
      CarriedTail(es, arg1, i);
    }
  }

  /** The value a branch formats is the first operand of the latest three- or two-operand
      instruction before it, not the branch's own target; with none before it, it is
      unbound. */
  lemma {:induction false} CarriedIsEarlierOperand(es: seq<Entry>, i: nat)
    requires i <= |es|
    ensures Carried(es, None, i).None? <==> forall j :: 0 <= j < i ==> !Binds(es[j])
    ensures Carried(es, None, i).Some? ==> exists j :: (0 <= j < i && Binds(es[j]) &&
      Carried(es, None, i) == Some(es[j].args[0]) && forall j' :: j < j' < i ==> !Binds(es[j']))
  {
    if i > 0 {
      CarriedIsEarlierOperand(es, i - 1);
      if !Binds(es[i - 1]) && Carried(es, None, i).Some? {
        var j :| 0 <= j < i - 1 && Binds(es[j]) &&
          Carried(es, None, i - 1) == Some(es[j].args[0]) && forall j' :: j < j' < i - 1 ==> !Binds(es[j']);
        assert forall j' :: j < j' < i ==> !Binds(es[j']);
      }
    }
  }

  /** The padding of the entries has no effect on `arg1`. */
  lemma {:induction false} CarriedIgnoresPads(es: seq<Entry>, ls: seq<int>, w: int, i: nat)
    requires |es| <= |ls| && i <= |es|
    ensures Carried(WithPads(es, ls, w), None, i) == Carried(es, None, i)
  {
    if i > 0 {
      CarriedIgnoresPads(es, ls, w, i - 1);
      assert WithPads(es, ls, w)[i - 1] == es[i - 1].(pad := w - ls[i - 1]);
    }
  }

  // ---------------------------------------------------------------------------------------
  // The first loop.

  /** Every match has an entry exactly when the first loop made as many entries as lengths. */
  lemma {:induction false} GatheredAll(lines: seq<string>, ms: seq<Option<Match>>, ps: seq<Option<Entry>>)
    requires |ms| == |lines| == |ps|
    ensures |Gathered(lines, ms, ps).0| == Hits(ms, |ms|) <==>
      forall k :: 0 <= k < |lines| && ms[k].Some? ==> ps[k].Some?
  {
    if lines != [] {
      var n := |lines| - 1;
      var init, mi, pi := lines[..n], ms[..n], ps[..n];
      assert forall k :: 0 <= k < n ==> mi[k] == ms[k] && pi[k] == ps[k];
      GatheredAll(init, mi, pi);
      HitsOfPrefix(ms, n, n);
    }
  }

  /** The length recorded for match `k` is that of its line from the mnemonic on, and, when
      every match has an entry, entry `Hits(ms, k)` is line `k`'s. */
  lemma {:induction false} GatheredAt(lines: seq<string>, ms: seq<Option<Match>>, ps: seq<Option<Entry>>, k: nat)
    requires |ms| == |lines| == |ps| && k < |lines| && ms[k].Some?
    ensures Hits(ms, k) < |Gathered(lines, ms, ps).1|
    ensures Gathered(lines, ms, ps).1[Hits(ms, k)] == |lines[k]| - ms[k].value.start
    ensures |Gathered(lines, ms, ps).0| == Hits(ms, |ms|) ==>
      Hits(ms, k) < |Gathered(lines, ms, ps).0| && ps[k] == Some(Gathered(lines, ms, ps).0[Hits(ms, k)])
  {
    var n := |lines| - 1;
    var init, mi, pi := lines[..n], ms[..n], ps[..n];
    HitsOfPrefix(ms, n, n);
    if k < n {
      assert init[k] == lines[k] && mi[k] == ms[k] && pi[k] == ps[k];
      HitsOfPrefix(ms, n, k);
      GatheredAt(init, mi, pi, k);
    }
  }

  /** Every recorded length is that of some matched line from its mnemonic on. */
  lemma {:induction false} GatheredLengths(lines: seq<string>, ms: seq<Option<Match>>, ps: seq<Option<Entry>>, x: int)
    requires |ms| == |lines| == |ps| && x in Gathered(lines, ms, ps).1
    ensures exists k :: 0 <= k < |lines| && ms[k].Some? && x == |lines[k]| - ms[k].value.start
  {
    var n := |lines| - 1;
    var init, mi, pi := lines[..n], ms[..n], ps[..n];
    if x in Gathered(init, mi, pi).1 {
      GatheredLengths(init, mi, pi, x);
      var k :| 0 <= k < n && mi[k].Some? && x == |init[k]| - mi[k].value.start;
      assert init[k] == lines[k] && mi[k] == ms[k];
    }
  }

  // ---------------------------------------------------------------------------------------
  // What `write_comments` achieves.

  /** No line has a mnemonic. */
  ghost predicate NoMnemonic(lines: seq<string>) {
    forall k :: 0 <= k < |lines| ==> Search(lines[k]).None?
  }

  /** The failures of `write_comments` for any matches and entries. */
  lemma WrittenErrors(lines: seq<string>, ms: seq<Option<Match>>, ps: seq<Option<Entry>>)
    requires Fits(lines, ms) && |ps| == |lines|
    ensures WrittenFrom(lines, ms, ps) == Err(EmptyMax) <==> forall k :: 0 <= k < |ms| ==> ms[k].None?
    ensures PreparedFrom(lines, ms, ps).Ok? ==> (WrittenFrom(lines, ms, ps) == Err(IndexOut) <==>
      exists k :: 0 <= k < |lines| && ms[k].Some? && ps[k].None?)
    ensures WrittenFrom(lines, ms, ps).Err? ==>
      WrittenFrom(lines, ms, ps).error in {EmptyMax, IndexOut, Unpack, MissingKey, UnboundArg}
  {
    var es, ls := Gathered(lines, ms, ps).0, Gathered(lines, ms, ps).1;
    HitsNone(ms);
    if ls != [] {
      var pe := WithPads(es, ls, Max(ls));
      RetrievedErrors(pe, None);
      if Retrieved(pe, None).Ok? {
        RetrievedLength(pe, None);
        GatheredAll(lines, ms, ps);
      }
    }
  }

  /** `write_comments` fails with `EmptyMax` exactly when no line has a mnemonic; once the
      comments are built, it fails (with `IndexOut`) exactly when some matched line other
      than `STOP` has nothing after its mnemonic; and it fails in no other way than these
      and a comment's own failures. */
  lemma CommentsErrors(lines: seq<string>)
    ensures CommentsWritten(lines) == Err(EmptyMax) <==> NoMnemonic(lines)
    ensures Prepared(lines).Ok? ==> (CommentsWritten(lines) == Err(IndexOut) <==>
      exists k :: 0 <= k < |lines| && Search(lines[k]).Some? && EntryOf(lines[k]).None?)
    ensures CommentsWritten(lines).Err? ==>
      CommentsWritten(lines).error in {EmptyMax, IndexOut, Unpack, MissingKey, UnboundArg}
  {
    MatchesFit(lines);
    WrittenErrors(lines, Matches(lines), EntriesOf(lines));
    NoMnemonicMeansNoMatch(lines);
    MissingEntry(lines);
  }

  lemma NoMnemonicMeansNoMatch(lines: seq<string>)
    ensures NoMnemonic(lines) <==> forall k :: 0 <= k < |lines| ==> Matches(lines)[k].None?
  {
    assert forall k :: 0 <= k < |lines| ==> Matches(lines)[k] == Search(lines[k]);
  }

  lemma MissingEntry(lines: seq<string>)
    ensures (exists k :: 0 <= k < |lines| && Search(lines[k]).Some? && EntryOf(lines[k]).None?) <==>
      exists k :: 0 <= k < |lines| && Matches(lines)[k].Some? && EntriesOf(lines)[k].None?
  {
    assert forall k :: 0 <= k < |lines| ==> Matches(lines)[k] == Search(lines[k]) && EntriesOf(lines)[k] == EntryOf(lines[k]);
  }

  /** On success the number of lines is kept, and a line without a mnemonic is left as it
      was. */
  lemma UnmatchedLineKept(lines: seq<string>, out: seq<string>, k: nat)
    requires CommentsWritten(lines) == Ok(out) && k < |lines| && Search(lines[k]).None?
    ensures |out| == |lines| && out[k] == lines[k]
  {
    assert Matches(lines)[k].None?;
  }

  /** The longest line from its mnemonic on: the padding of every comment is measured against
      it. */
  function Widest(lines: seq<string>): int {
    WidestFrom(lines, Matches(lines), EntriesOf(lines))
  }

  /** The largest recorded length, for any matches and entries; 0 when there is none. */
  function WidestFrom(lines: seq<string>, ms: seq<Option<Match>>, ps: seq<Option<Entry>>): int
    requires |ms| == |lines| == |ps|
  {
    var ls := Gathered(lines, ms, ps).1;
    if ls == [] then 0 else Max(ls)
  }

  /** `Widest` is the length of the longest matched line from its mnemonic on. */
  lemma WidestLine(lines: seq<string>)
    ensures forall k :: 0 <= k < |lines| && Search(lines[k]).Some? ==>
      |lines[k]| - Search(lines[k]).value.start <= Widest(lines)
    ensures !NoMnemonic(lines) ==> exists k :: (0 <= k < |lines| && Search(lines[k]).Some? &&
      |lines[k]| - Search(lines[k]).value.start == Widest(lines))
  {
    var ms, ps := Matches(lines), EntriesOf(lines);
    var ls := Gathered(lines, ms, ps).1;
    forall k | 0 <= k < |lines| && Search(lines[k]).Some?
      ensures |lines[k]| - Search(lines[k]).value.start <= Widest(lines)
    {
      assert ms[k] == Search(lines[k]);
      GatheredAt(lines, ms, ps, k);
      assert ls[Hits(ms, k)] in ls;
    }
    if ls != [] {
      GatheredLengths(lines, ms, ps, Max(ls));
      var k :| 0 <= k < |lines| && ms[k].Some? && Max(ls) == |lines[k]| - ms[k].value.start;
      assert ms[k] == Search(lines[k]);
    } else {
      HitsNone(ms);
      forall k | 0 <= k < |lines| ensures Search(lines[k]).None? {
        assert ms[k] == Search(lines[k]);
      }
    }
  }

  /** What `write_comments` makes of a line with match `mt` and entry `e`, padded against
      `w`: the text before the mnemonic, the mnemonic, the gap, the tokens joined by single
      spaces, `w` less the line's own length from the mnemonic on in spaces, ` ; ` and the
      RTL text: "all done" for `STOP`; the instruction's own, with as many tokens as its
      arity, for a three- or two-operand instruction; for a branch, that of the value
      `target` holds, which must be bound. */
  ghost predicate LaidOut(o: string, line: string, mt: Match, e: Entry, w: int, target: Option<string>)
    requires mt.start <= |line|
  {
    var cell := e.(pad := w - (|line| - mt.start));
    && (mt.op == STOP ==> o == line[..mt.start] + Annotated(cell, "all done"))
    && (mt.op in ThreeArgs || mt.op in TwoArgs ==>
          |e.args| == Arity(mt.op) && o == line[..mt.start] + Annotated(cell, Rtl(mt.op, e.args)))
    && (mt.op in OneArgs ==> target.Some? && o == line[..mt.start] + Annotated(cell, Rtl(mt.op, [target.value])))
  }

  /** A comment that succeeded with `arg1` holding `target` lays its line out as `LaidOut`
      says. */
  lemma CommentLaidOut(o: string, line: string, mt: Match, e: Entry, w: int, target: Option<string>, c: string)
    requires mt.start <= |line| && e.op == mt.op
    requires Comment(e.(pad := w - (|line| - mt.start)), target) == Ok(c)
    requires o == line[..mt.start] + c
    ensures LaidOut(o, line, mt, e, w, target)
  {
    var cell := e.(pad := w - (|line| - mt.start));
    TableIsPartitioned(e.op);
    if e.op == STOP {
      CommentStop(cell, target);
    } else if e.op in OneArgs {
      CommentBranch(cell, target);
      assert o == line[..mt.start] + Annotated(cell, Rtl(mt.op, [target.value]));
    } else if |e.args| != Arity(e.op) {
      CommentUnpacks(cell, target);
    } else if e.op == SLL || e.op == SLLI {
      CommentShiftFails(cell, target);
    } else {
      CommentOwnRtl(cell, target);
    }
  }

  /** The line-by-line outcome of `write_comments` for any matches and entries: a matched
      line has an entry `e`, and keeps its text before the mnemonic followed by the comment
      `e` makes, padded against the longest line, with `arg1` holding what the entries
      before it left there. */
  lemma WrittenLine(lines: seq<string>, ms: seq<Option<Match>>, ps: seq<Option<Entry>>, out: seq<string>, k: nat)
      returns (arg1: Option<string>, c: string)
    requires Fits(lines, ms) && |ps| == |lines|
    requires WrittenFrom(lines, ms, ps) == Ok(out) && k < |lines| && ms[k].Some?
    ensures |out| == |lines| && ps[k].Some?
    ensures Hits(ms, k) < |Gathered(lines, ms, ps).0| && arg1 == Carried(Gathered(lines, ms, ps).0, None, Hits(ms, k))
    ensures Comment(ps[k].value.(pad := WidestFrom(lines, ms, ps) - (|lines[k]| - ms[k].value.start)), arg1) == Ok(c)
    ensures out[k] == lines[k][..ms[k].value.start] + c
  {
    var es, ls := Gathered(lines, ms, ps).0, Gathered(lines, ms, ps).1;
    var w := Max(ls);
    var pe := WithPads(es, ls, w);
    var cs := Retrieved(pe, None).value;
    assert InsertSpec(lines, ms, cs) == Ok(out);
    RetrievedLength(pe, None);
    var i := Hits(ms, k);
    GatheredAt(lines, ms, ps, k);
    RetrievedAt(pe, None, i);
    assert out[k] == Spliced(lines, ms, cs, k);
    arg1, c := Carried(pe, None, i), cs[i];
    CarriedIgnoresPads(es, ls, w, i);
    assert w == WidestFrom(lines, ms, ps);
    SameComment(pe[i], ps[k].value.(pad := WidestFrom(lines, ms, ps) - (|lines[k]| - ms[k].value.start)), arg1, c);
  }

  lemma SameComment(x: Entry, y: Entry, arg1: Option<string>, c: string)
    requires x == y && Comment(x, arg1) == Ok(c)
    ensures Comment(y, arg1) == Ok(c)
  {
  }

  /** The value `arg1` holds when `retrieve_comments` reaches the entry of line `k`, followed
      line by line through the entries `ps` of the lines (`None` for a line without one). */
  function Target(ps: seq<Option<Entry>>, k: nat): Option<string>
    requires k <= |ps|
  {
    if k == 0 then None
    else match ps[k - 1]
      case None => Target(ps, k - 1)
      case Some(e) => Next(e, Target(ps, k - 1))
  }

  /** A line whose entry rebinds `arg1`. */
  predicate SetsTarget(p: Option<Entry>) {
    p.Some? && Binds(p.value)
  }

  /** A branch on line `k` formats the first token of the latest line before it that rebinds
      `arg1`, and `arg1` is unbound exactly when no line before it does. */
  lemma {:induction false} TargetIsLatestOperand(ps: seq<Option<Entry>>, k: nat)
    requires k <= |ps|
    ensures Target(ps, k).None? <==> forall j :: 0 <= j < k ==> !SetsTarget(ps[j])
    ensures Target(ps, k).Some? ==> exists j :: (0 <= j < k && SetsTarget(ps[j]) &&
      Target(ps, k) == Some(ps[j].value.args[0]) && forall j' :: j < j' < k ==> !SetsTarget(ps[j']))
  {
    if k > 0 {
      TargetIsLatestOperand(ps, k - 1);
      if !SetsTarget(ps[k - 1]) && Target(ps, k).Some? {
        var j :| 0 <= j < k - 1 && SetsTarget(ps[j]) && Target(ps, k - 1) == Some(ps[j].value.args[0]) &&
          forall j' :: j < j' < k - 1 ==> !SetsTarget(ps[j']);
        assert forall j' :: j < j' < k ==> !SetsTarget(ps[j']);
      }
    }
  }

  /** When exactly the matched lines have entries, the value `arg1` carries to entry
      `Hits(ms, k)` is `Target(ps, k)`. */
  lemma {:induction false} CarriedIsTarget(lines: seq<string>, ms: seq<Option<Match>>, ps: seq<Option<Entry>>, k: nat)
    requires |ms| == |lines| == |ps| && k <= |lines|
    requires forall j :: 0 <= j < |lines| ==> (ms[j].Some? <==> ps[j].Some?)
    ensures Hits(ms, k) <= |Gathered(lines, ms, ps).0|
    ensures Carried(Gathered(lines, ms, ps).0, None, Hits(ms, k)) == Target(ps, k)
  {
    GatheredAll(lines, ms, ps);
    HitsMonotone(ms, k, |ms|);
    if k > 0 {
      CarriedIsTarget(lines, ms, ps, k - 1);
      if ms[k - 1].Some? {
        GatheredAt(lines, ms, ps, k - 1);
      }
    }
  }

  /** Only a matched line has an entry. */
  lemma EntryNeedsMatch(lines: seq<string>)
    ensures forall j :: 0 <= j < |lines| && EntriesOf(lines)[j].Some? ==> Matches(lines)[j].Some?
  {
    forall j | 0 <= j < |lines| && EntriesOf(lines)[j].Some? ensures Matches(lines)[j].Some? {
      assert EntriesOf(lines)[j] == EntryOf(lines[j]) && Matches(lines)[j] == Search(lines[j]);
    }
  }

  /** On success every matched line has an entry. */
  lemma WrittenHasEntries(lines: seq<string>, ms: seq<Option<Match>>, ps: seq<Option<Entry>>, out: seq<string>)
    requires Fits(lines, ms) && |ps| == |lines|
    requires WrittenFrom(lines, ms, ps) == Ok(out)
    ensures forall j :: 0 <= j < |lines| && ms[j].Some? ==> ps[j].Some?
  {
    WrittenErrors(lines, ms, ps);
  }

  /** The line-by-line outcome as `LaidOut` states it, for any matches and entries where
      only matched lines have entries: a branch formats `Target(ps, k)`. */
  lemma WrittenLaidOut(lines: seq<string>, ms: seq<Option<Match>>, ps: seq<Option<Entry>>, out: seq<string>, k: nat, mt: Match)
    requires Fits(lines, ms) && |ps| == |lines|
    requires forall j :: 0 <= j < |lines| && ps[j].Some? ==> ms[j].Some?
    requires WrittenFrom(lines, ms, ps) == Ok(out) && k < |lines| && ms[k] == Some(mt)
    requires ps[k].Some? ==> ps[k].value.op == mt.op
    ensures |out| == |lines| && ps[k].Some?
    ensures LaidOut(out[k], lines[k], mt, ps[k].value, WidestFrom(lines, ms, ps), Target(ps, k))
  {
    var arg1, c := WrittenLine(lines, ms, ps, out, k);
    WrittenHasEntries(lines, ms, ps, out);
    CarriedIsTarget(lines, ms, ps, k);
    CommentLaidOut(out[k], lines[k], mt, ps[k].value, WidestFrom(lines, ms, ps), arg1, c);
  }

  /** On success, a line whose mnemonic `mt.op` starts at column `mt.start` has an entry,
      made of its own tokens, and is laid out as `LaidOut` says, padded against the longest
      line, a branch with the value `Target` gives for its line. */
  lemma CommentedLine(lines: seq<string>, out: seq<string>, k: nat, mt: Match)
    requires CommentsWritten(lines) == Ok(out) && k < |lines| && Search(lines[k]) == Some(mt)
    ensures |out| == |lines|
    ensures Parsed(lines[k], mt).Some?
    ensures var e := Parsed(lines[k], mt).value;
      e.op == mt.op && e.args == Split(Strip(lines[k][mt.end..])) &&
      LaidOut(out[k], lines[k], mt, e, Widest(lines), Target(EntriesOf(lines), k))
  {
    var ms, ps := Matches(lines), EntriesOf(lines);
    MatchesFit(lines);
    assert ms[k] == Some(mt) && ps[k] == Parsed(lines[k], mt);
    EntryNeedsMatch(lines);
    WrittenLaidOut(lines, ms, ps, out, k, mt);
  }

  // ---------------------------------------------------------------------------------------
  // The loops.

  /** The first loop of `write_comments`: one entry per matched line that has one, one
      length per match. `ps` names the entry each matched line makes. */
  method GatherEntries(lines: seq<string>, matches: seq<Option<Match>>, ghost ps: seq<Option<Entry>>)
      returns (es: seq<Entry>, lengths: seq<int>)
    requires Fits(lines, matches) && |ps| == |lines|
    requires forall k :: 0 <= k < |lines| && matches[k].Some? ==> ps[k] == Parsed(lines[k], matches[k].value)
    ensures (es, lengths) == Gathered(lines, matches, ps)
  {
    es, lengths := [], [];
    for i := 0 to |lines|
      invariant (es, lengths) == Gathered(lines[..i], matches[..i], ps[..i])
    {
      ghost var g := (es, lengths);
      if matches[i].Some? {
        lengths := lengths + [|lines[i]| - matches[i].value.start];
        var args := Operands(lines[i], matches[i].value);
        var entry := ParseLine(lines[i], matches[i].value, args);
        es := es + Entries(entry);
        GatherOne(lines, matches, ps, i, g, entry);
      } else {
        GatherOne(lines, matches, ps, i, g, None);
      }
    }
    assert lines[..|lines|] == lines && matches[..|lines|] == matches && ps[..|lines|] == ps;
  }

  /** One iteration of the first loop extends the value of the loop so far. */
  lemma GatherOne(lines: seq<string>, ms: seq<Option<Match>>, ps: seq<Option<Entry>>, i: nat,
                  g: (seq<Entry>, seq<int>), entry: Option<Entry>)
    requires |ms| == |lines| == |ps| && i < |lines|
    requires g == Gathered(lines[..i], ms[..i], ps[..i])
    requires ms[i].Some? ==> entry == ps[i]
    ensures ms[i].None? ==> Gathered(lines[..i + 1], ms[..i + 1], ps[..i + 1]) == g
    ensures ms[i].Some? ==> Gathered(lines[..i + 1], ms[..i + 1], ps[..i + 1]).0 == g.0 + Entries(entry)
    ensures ms[i].Some? ==> Gathered(lines[..i + 1], ms[..i + 1], ps[..i + 1]).1 == g.1 + [|lines[i]| - ms[i].value.start]
  {
    GatheredSnoc(lines, ms, ps, i);
  }

  /** The body of the first loop for a matched line whose tokens after the mnemonic are
      `args`: the entry it makes, if any. */
  method ParseLine(line: string, mt: Match, args: seq<string>) returns (entry: Option<Entry>)
    requires mt.end <= |line|
    ensures entry == Shaped(mt, FirstText(line, mt.end), args)
  {
    var operand := mt.op;
    if operand == STOP {
      return Some(Entry(operand, 0, args, 0));
    }
    var found := SkipSpaces(line, mt.end);
    match found
    case None => entry := None;
    case Some(j) => entry := Some(Entry(operand, j - mt.end, args, 0));
  }

  /** The inner loop of the first loop: the first column from `from` on that is not
      whitespace. */
  method SkipSpaces(line: string, from: nat) returns (r: Option<nat>)
    requires from <= |line|
    ensures r == FirstText(line, from)
  {
    for j := from to |line|
      invariant FirstText(line, j) == FirstText(line, from)
    {
      if !IsSpace(line[j]) {
        return Some(j);
      }
    }
    return None;
  }

  /** A matched line's entry is the one `Parsed` makes of it with its match. */
  lemma EntriesOfMatches(lines: seq<string>)
    ensures forall k :: 0 <= k < |lines| && Matches(lines)[k].Some? ==>
      Matches(lines)[k].value.end <= |lines[k]| && EntriesOf(lines)[k] == Parsed(lines[k], Matches(lines)[k].value)
  {
  }

  lemma GatheredSnoc(lines: seq<string>, ms: seq<Option<Match>>, ps: seq<Option<Entry>>, i: nat)
    requires |ms| == |lines| == |ps| && i < |lines|
    ensures Gathered(lines[..i + 1], ms[..i + 1], ps[..i + 1]) ==
      GatherStep(Gathered(lines[..i], ms[..i], ps[..i]), lines[i], ms[i], ps[i])
  {
    var l, m, p := lines[..i + 1], ms[..i + 1], ps[..i + 1];
    assert l[..i] == lines[..i] && m[..i] == ms[..i] && p[..i] == ps[..i];
  }

  /** The second loop: append to entry `i` its padding against the longest line. */
  method PadEntries(es: seq<Entry>, lengths: seq<int>, maximum: int) returns (r: seq<Entry>)
    requires |es| <= |lengths|
    ensures r == WithPads(es, lengths, maximum)
  {
    r := es;
    for i := 0 to |es|
      invariant |r| == |es|
      invariant forall k :: 0 <= k < i ==> r[k] == es[k].(pad := maximum - lengths[k])
      invariant forall k :: i <= k < |es| ==> r[k] == es[k]
    {
      var length := maximum - lengths[i];
      r := r[i := r[i].(pad := length)];
    }
  }

  /** `retrieve_comments`: build the commented text of every entry, `arg1` carried from one
      iteration to the next. */
  method RetrieveComments(lines: seq<Entry>) returns (r: Result<seq<string>, Error>)
    ensures r == Retrieved(lines, None)
  {
    var comments: seq<string> := [];
    var arg1: Option<string> := None;
    assert lines[0..] == lines;
    assert Then([], Retrieved(lines, None)) == Retrieved(lines, None) by {
      if Retrieved(lines, None).Ok? {
        assert [] + Retrieved(lines, None).value == Retrieved(lines, None).value;
      }
    }
    for i := 0 to |lines|
      invariant Retrieved(lines, None) == Then(comments, Retrieved(lines[i..], arg1))
    {
      assert lines[i..][0] == lines[i] && lines[i..][1..] == lines[i + 1..];
      var line := lines[i];
      var operand, args := line.op, line.args;
      var comment := Template(operand);
      if operand in ThreeArgs {
        if |args| != 3 {
          return Err(Unpack);
        }
        arg1 := Some(args[0]);
        var formatted := Format(comment, [args[0], args[1], args[2]]);
        assert [args[0], args[1], args[2]] == args;
        if formatted.Err? {
          return Err(formatted.error);
        }
        comment := formatted.value;
      } else if operand in TwoArgs {
        if |args| != 2 {
          return Err(Unpack);
        }
        arg1 := Some(args[0]);
        var formatted := Format(comment, [args[0], args[1]]);
        assert [args[0], args[1]] == args;
        if formatted.Err? {
          return Err(formatted.error);
        }
        comment := formatted.value;
      } else if operand in OneArgs {
        if arg1.None? {
          return Err(UnboundArg);
        }
        var formatted := Format(comment, [arg1.value]);
        if formatted.Err? {
          return Err(formatted.error);
        }
        comment := formatted.value;
      }
      var instructionOffset := Spaces(line.gap);
      var commentOffset := Spaces(line.pad);
      var arguments := Join(args);
      var instruction := Name(operand) + instructionOffset + arguments;
      comment := commentOffset + " ; " + comment + "\n";
      ThenAppend(comments, instruction + comment, Retrieved(lines[i + 1..], arg1));
      comments := comments + [instruction + comment];
    }
    assert lines[|lines|..] == [];
    assert comments + [] == comments;
    return Ok(comments);
  }

  lemma ThenAppend(cs: seq<string>, c: string, r: Result<seq<string>, Error>)
    ensures Then(cs, Then([c], r)) == Then(cs + [c], r)
  {
    if r.Ok? {
      assert cs + ([c] + r.value) == cs + [c] + r.value;
    }
  }

  /** `insert_comments`: every matched line keeps its text before the mnemonic and takes the
      next comment; IndexError when the comments run out. */
  method InsertComments(lines: array<string>, comments: seq<string>) returns (r: Result<(), Error>)
    modifies lines
    ensures Fits(old(lines[..]), Matches(old(lines[..])))
    ensures lines[..] == Inserted(old(lines[..]), Matches(old(lines[..])), comments)
    ensures r.Ok? <==> Hits(Matches(old(lines[..])), lines.Length) <= |comments|
    ensures r.Err? ==> r.error == IndexOut
  {
    ghost var l0 := lines[..];
    ghost var ms := Matches(l0);
    MatchesFit(l0);
    var j := 0;
    for i := 0 to lines.Length
      invariant j == Hits(ms, i) && j <= |comments|
      invariant lines[..] == InsertedUpTo(l0, ms, comments, i)
    {
      ghost var s := lines[..];
      var line := lines[i];
      var found := Search(line);
      assert line == l0[i] && found == ms[i];
      if found.Some? {
        var start := found.value.start;
        if j >= |comments| {
          InsertStops(l0, ms, comments, i);
          return Err(IndexOut);
        }
        lines[i] := line[..start] + comments[j];
        j := j + 1;
      }
      InsertStep(l0, ms, comments, i, s, lines[i]);
    }
    InsertedAll(l0, ms, comments);
    return Ok(());
  }

  /** The lines once `insert_comments` has done its first `i` iterations. */
  function InsertedUpTo(lines: seq<string>, ms: seq<Option<Match>>, cs: seq<string>, i: nat): (r: seq<string>)
    requires Fits(lines, ms) && i <= |lines|
    ensures |r| == |lines|
  {
    seq(|lines|, k requires 0 <= k < |lines| => if k < i then Spliced(lines, ms, cs, k) else lines[k])
  }

  /** One iteration of `insert_comments` writes line `i` as `Spliced` says. */
  lemma InsertStep(lines: seq<string>, ms: seq<Option<Match>>, cs: seq<string>, i: nat, s: seq<string>, line: string)
    requires Fits(lines, ms) && i < |lines| && Hits(ms, i) <= |cs|
    requires s == InsertedUpTo(lines, ms, cs, i)
    requires ms[i].None? ==> line == lines[i]
    requires ms[i].Some? ==> Hits(ms, i) < |cs| && line == lines[i][..ms[i].value.start] + cs[Hits(ms, i)]
    ensures s[i := line] == InsertedUpTo(lines, ms, cs, i + 1)
    ensures Hits(ms, i + 1) == Hits(ms, i) + (if ms[i].Some? then 1 else 0)
  {
  }

  /** After the last iteration every line is as `Inserted` says. */
  lemma InsertedAll(lines: seq<string>, ms: seq<Option<Match>>, cs: seq<string>)
    requires Fits(lines, ms)
    ensures InsertedUpTo(lines, ms, cs, |lines|) == Inserted(lines, ms, cs)
  {
  }

  /** Once the comments have run out at a matched line, no later line changes. */
  lemma InsertStops(lines: seq<string>, ms: seq<Option<Match>>, cs: seq<string>, i: nat)
    requires Fits(lines, ms) && i < |lines| && ms[i].Some? && Hits(ms, i) >= |cs|
    ensures InsertedUpTo(lines, ms, cs, i) == Inserted(lines, ms, cs) && Hits(ms, |ms|) > |cs|
  {
    forall k | i <= k < |lines| ensures Spliced(lines, ms, cs, k) == lines[k] {
      HitsMonotone(ms, i, k);
    }
    HitsMonotone(ms, i + 1, |ms|);
  }

  /** `write_comments`: gather the entries, pad them, build the comments and insert them. A
      failure before `insert_comments` writes nothing; `insert_comments` itself may stop
      half-way. */
  method WriteComments(lines: array<string>) returns (r: Result<(), Error>)
    modifies lines
    ensures r.Ok? ==> CommentsWritten(old(lines[..])) == Ok(lines[..])
    ensures r.Err? ==> CommentsWritten(old(lines[..])) == Err(r.error)
    ensures Prepared(old(lines[..])).Err? ==> lines[..] == old(lines[..])
    ensures Prepared(old(lines[..])).Ok? ==>
      lines[..] == Inserted(old(lines[..]), Matches(old(lines[..])), Prepared(old(lines[..])).value)
  {
    MatchesFit(lines[..]);
    var matches := seq(lines.Length, k requires 0 <= k < lines.Length reads lines => Search(lines[k]));
    assert matches == Matches(lines[..]);
    EntriesOfMatches(lines[..]);
    var es, lengths := GatherEntries(lines[..], matches, EntriesOf(lines[..]));
    if |lengths| == 0 {
      return Err(EmptyMax);
    }
    var maximum := Max(lengths);
    es := PadEntries(es, lengths, maximum);
    var comments := RetrieveComments(es);
    if comments.Err? {
      return Err(comments.error);
    }
    r := InsertComments(lines, comments.value);
  }

  // ---------------------------------------------------------------------------------------
  // Two defects of `retrieve_comments`, and the comment builder they evidently meant.
  //
  // A branch formats `arg1`, the first operand of the latest three- or two-operand
  // instruction, instead of its own target: it names the wrong label, or fails when no such
  // instruction came before it. The `SLL` and `SLLI` templates name a field `rs1` that no
  // call supplies, so those instructions always fail.

  /** The comment of one entry as intended: every instruction with operands unpacks exactly
      as many tokens as it binds and formats them into its corrected template; `STOP` keeps
      its text. */
  function FixedComment(e: Entry): Result<string, Error> {
    if e.op in ThreeArgs || e.op in TwoArgs || e.op in OneArgs then
      if |e.args| != Arity(e.op) then Err(Unpack)
      else
        match Format(CorrectedTemplate(e.op), e.args)
        case Err(x) => Err(x)
        case Ok(rtl) => Ok(Annotated(e, rtl))
    else Ok(Annotated(e, Template(e.op)))
  }

  /** `retrieve_comments` with `FixedComment`: nothing is carried from one entry to the
      next. */
  function FixedRetrieved(es: seq<Entry>): Result<seq<string>, Error> {
    if es == [] then Ok([])
    else
      match FixedComment(es[0])
      case Err(x) => Err(x)
      case Ok(c) => Then([c], FixedRetrieved(es[1..]))
  }

  /** An entry with as many tokens as its instruction binds (`STOP` binds none, and ignores
      any it is given). */
  predicate Complete(e: Entry) {
    e.op == STOP || |e.args| == Arity(e.op)
  }

  /** The intended comment of a complete entry: its own RTL text. */
  function Intended(e: Entry): string
    requires Complete(e)
  {
    Annotated(e, Rtl(e.op, if e.op == STOP then [] else e.args))
  }

  /** Every complete entry gets its own RTL text (the shifts and the branches included); an
      incomplete one fails to unpack. */
  lemma FixedCommentMeaning(e: Entry)
    ensures Complete(e) ==> FixedComment(e) == Ok(Intended(e))
    ensures !Complete(e) ==> FixedComment(e) == Err(Unpack)
  {
    TableIsPartitioned(e.op);
    if e.op != STOP && |e.args| == Arity(e.op) {
      CorrectedTemplateRendersRtl(e.op, e.args);
    }
  }

  /** The intended comments succeed exactly when every entry is complete, and then comment
      `i` is the intended comment of entry `i`; otherwise they fail to unpack. */
  lemma {:induction false} FixedRetrievedAt(es: seq<Entry>)
    ensures FixedRetrieved(es).Ok? <==> forall i :: 0 <= i < |es| ==> Complete(es[i])
    ensures FixedRetrieved(es).Ok? ==> |FixedRetrieved(es).value| == |es|
    ensures FixedRetrieved(es).Ok? ==> forall i :: 0 <= i < |es| ==> FixedRetrieved(es).value[i] == Intended(es[i])
    ensures FixedRetrieved(es).Err? ==> FixedRetrieved(es).error == Unpack
  {
    if es != [] {
      FixedCommentMeaning(es[0]);
      FixedRetrievedAt(es[1..]);
      TailIndex(es);
    }
  }

  /** The entries after the first, index by index. */
  lemma TailIndex(es: seq<Entry>)
    requires es != []
    ensures forall i :: 0 < i < |es| ==> es[1..][i - 1] == es[i]
    ensures (forall i :: 0 <= i < |es| ==> Complete(es[i])) <==>
      Complete(es[0]) && forall i :: 0 <= i < |es[1..]| ==> Complete(es[1..][i])
  {
    assert forall i :: 0 <= i < |es[1..]| ==> es[1..][i] == es[i + 1];
  }

  /** Where the program has no branch and no shift left, the comments as written are the
      intended ones. */
  lemma {:induction false} FixAgrees(es: seq<Entry>, arg1: Option<string>)
    requires forall i :: 0 <= i < |es| ==> es[i].op !in OneArgs && es[i].op != SLL && es[i].op != SLLI
    ensures Retrieved(es, arg1) == FixedRetrieved(es)
  {
    if es != [] {
      var e := es[0];
      FixedCommentMeaning(e);
      TableIsPartitioned(e.op);
      if e.op == STOP {
        CommentStop(e, arg1);
      } else if |e.args| == Arity(e.op) {
        CommentOwnRtl(e, arg1);
      } else {
        CommentUnpacks(e, arg1);
      }
      assert forall i :: 0 <= i < |es[1..]| ==> es[1..][i] == es[i + 1];
      FixAgrees(es[1..], Next(e, arg1));
    }
  }

  /** As written, a branch after an addition names the addition's destination: after
      `ADD d, x, y`, `BRA target` is described as "goto d"; the intended comment says
      "goto target". */
  lemma StaleBranchTarget(d: string, x: string, y: string, target: string)
    ensures var es := [Entry(ADD, 1, [d, x, y], 0), Entry(BRA, 1, [target], 0)];
      var first := Annotated(es[0], d + " <- " + x + " + " + y);
      && Retrieved(es, None) == Ok([first, Annotated(es[1], "goto " + d)])
      && FixedRetrieved(es) == Ok([first, Annotated(es[1], "goto " + target)])
  {
    var add, bra := Entry(ADD, 1, [d, x, y], 0), Entry(BRA, 1, [target], 0);
    var es := [add, bra];
    CommentOwnRtl(add, None);
    CommentBranch(bra, Some(d));
    assert Next(add, None) == Some(d);
    assert Rtl(ADD, [d, x, y]) == d + " <- " + x + " + " + y;
    var c0, c1 := Annotated(add, d + " <- " + x + " + " + y), Annotated(bra, "goto " + d);
    RetrievedCons(bra, [], Some(d), c1);
    RetrievedCons(add, [bra], None, c0);
    assert [bra] + [] == [bra] && [add] + [bra] == es && [c0] + [c1] == [c0, c1];
    assert [c1] + [] == [c1];
    FixedRetrievedAt(es);
    assert Intended(add) == c0 && Intended(bra) == Annotated(bra, "goto " + target);
    assert FixedRetrieved(es).value == [c0, Annotated(bra, "goto " + target)];
  }

  /** The first comment, then the others. */
  lemma RetrievedCons(e: Entry, rest: seq<Entry>, arg1: Option<string>, c: string)
    requires Comment(e, arg1) == Ok(c)
    ensures Retrieved([e] + rest, arg1) == Then([c], Retrieved(rest, Next(e, arg1)))
  {
    assert ([e] + rest)[0] == e && ([e] + rest)[1..] == rest;
  }

  /** As written, a program whose first instruction with operands is a branch fails: `arg1`
      is not bound yet. The intended comment names the target. */
  lemma UnboundBranchTarget(target: string)
    ensures var es := [Entry(BRA, 1, [target], 0)];
      && Retrieved(es, None) == Err(UnboundArg)
      && FixedRetrieved(es) == Ok([Annotated(es[0], "goto " + target)])
  {
    var bra := Entry(BRA, 1, [target], 0);
    CommentBranch(bra, None);
    FixedRetrievedAt([bra]);
    assert FixedRetrieved([bra]).value == [Annotated(bra, "goto " + target)];
  }

  /** As written, a shift fails on the field `rs1`; the intended comment shifts the second
      operand. */
  lemma ShiftKeyError(d: string, x: string, n: string)
    ensures var e := Entry(SLL, 1, [d, x, n], 0);
      && Retrieved([e], None) == Err(MissingKey)
      && FixedRetrieved([e]) == Ok([Annotated(e, d + " <- " + x + " << " + n)])
  {
    var e := Entry(SLL, 1, [d, x, n], 0);
    CommentShiftFails(e, None);
    FixedRetrievedAt([e]);
    assert FixedRetrieved([e]).value == [Annotated(e, d + " <- " + x + " << " + n)];
  }
}
