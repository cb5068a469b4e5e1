/** The routine `main`: which stages run for which command-line flags, and what is written
    back when a stage fails. Reading and writing the file are left to the caller; the lines
    of the file are the array the stages work on. */
module Pipeline {

  import opened Wrappers
  import opened Stripping
  import opened Labels
  import opened Instructions
  import opened Comments

  /** The three flags `-r`, `-f` and `-c`. */
  datatype Options = Options(remove: bool, format: bool, comment: bool)

  /** Comments are stripped for `-r`, for `-c`, and when `-r` and `-f` are both given or both
      absent. */
  predicate Strips(o: Options) {
    o.remove || o.comment || o.remove == o.format
  }

  /** Labels and instructions are realigned for `-f`, for `-c`, and when `-r` and `-f` agree. */
  predicate Aligns(o: Options) {
    o.format || o.comment || o.remove == o.format
  }

  /** Comments are written for `-c`, and when `-r` and `-f` agree. */
  predicate Commented(o: Options) {
    o.comment || o.remove == o.format
  }

  /** The flags that run every stage, as no flag at all does. */
  const Everything := Options(true, true, true)

  /** The lines after the stripping stage. */
  function AfterStrip(o: Options, lines: seq<string>): seq<string> {
    if Strips(o) then StripAll(lines) else lines
  }

  /** The lines after the two alignment stages, or the error the first failing one raises. */
  function AfterAlign(o: Options, lines: seq<string>): Result<seq<string>, Error> {
    if !Aligns(o) then Ok(lines)
    else
      match LabelsAligned(lines)
      case Err(e) => Err(e)
      case Ok(ls) => InstructionsAligned(ls)
  }

  /** What `main` writes to the file: the processed lines, or, when a stage raises, the error
      (and then the file gets its original lines back). */
  function Processed(o: Options, lines: seq<string>): Result<seq<string>, Error> {
    match AfterAlign(o, AfterStrip(o, lines))
    case Err(e) => Err(e)
    case Ok(ls) => if Commented(o) then CommentsWritten(ls) else Ok(ls)
  }

  /** The stages of `main`, in order, on the lines of the file. On an error the lines the file
      had before are put back. */
  method Process(o: Options, lines: array<string>) returns (r: Result<(), Error>)
    modifies lines
    ensures r.Ok? ==> Processed(o, old(lines[..])) == Ok(lines[..])
    ensures r.Err? ==> Processed(o, old(lines[..])) == Err(r.error) && lines[..] == old(lines[..])
  {
    var original := lines[..];
    if Strips(o) {
      StripComments(lines);
    }
    assert lines[..] == AfterStrip(o, original);
    r := Ok(());
    if Aligns(o) {
      ghost var stripped := lines[..];
      r := AlignLabels(lines);
      if r.Ok? {
        r := AlignInstructions(lines);
      }
      assert r.Ok? ==> AfterAlign(o, stripped) == Ok(lines[..]);
      assert r.Err? ==> AfterAlign(o, stripped) == Err(r.error);
    }
    if r.Ok? && Commented(o) {
      r := WriteComments(lines);
    }
    if r.Err? {
      Restore(lines, original);
    }
  }

  /** Write the saved lines back, one by one. */
  method Restore(lines: array<string>, saved: seq<string>)
    requires |saved| == lines.Length
    modifies lines
    ensures lines[..] == saved
  {
    for i := 0 to lines.Length
      invariant lines[..i] == saved[..i]
    {
      lines[i] := saved[i];
      assert lines[..i + 1] == lines[..i] + [saved[i]];
      assert saved[..i + 1] == saved[..i] + [saved[i]];
    }
    assert lines[..] == lines[..lines.Length];
    assert saved == saved[..|saved|];
  }

  /** Whatever the flags, `main` runs one of three pipelines: everything (for `-c`, or when
      `-r` and `-f` agree), stripping alone (`-r`), or the two alignments alone (`-f`). */
  lemma {:induction false} ThreeModes(o: Options, lines: seq<string>)
    ensures Commented(o) ==> Strips(o) && Aligns(o) && Processed(o, lines) == Processed(Everything, lines)
    ensures !Commented(o) && o.remove ==> !o.format && Processed(o, lines) == Ok(StripAll(lines))
    ensures !Commented(o) && !o.remove ==>
      o.format && Processed(o, lines) == AfterAlign(Everything, lines)
  {
  }

  /** `-f` alone realigns without stripping: the alignments start from the lines as read,
      comments included. */
  lemma FormatOnlyKeepsComments(lines: seq<string>)
    ensures !Strips(Options(false, true, false)) && Aligns(Options(false, true, false))
    ensures AfterStrip(Options(false, true, false), lines) == lines
  {
  }

  /** Removing comments twice is the same as removing them once. */
  lemma {:induction false} RemoveIdempotent(lines: seq<string>)
    ensures Processed(Options(true, false, false), lines).Ok?
    ensures Processed(Options(true, false, false), Processed(Options(true, false, false), lines).value)
      == Processed(Options(true, false, false), lines)
  {
    StripAllIdempotent(lines);
  }
}
