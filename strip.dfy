/** `strip_comments`: cut every line at its first `;`. */
module Stripping {

  import opened Wrappers
  import opened PyStr

  /** What `strip_comments` makes of one line: a line holding `;` keeps the text before the
      first `;`, without trailing whitespace, and ends with a newline; any other line is
      kept as it is. */
  function StripLine(l: string): string {
    match Find(l, ';')
    case None => l
    case Some(j) => RStrip(l[..j]) + "\n"
  }

  /** `strip_comments` as a value. */
  function StripAll(lines: seq<string>): (r: seq<string>)
    ensures |r| == |lines|
  {
    seq(|lines|, i requires 0 <= i < |lines| => StripLine(lines[i]))
  }

  /** The loop of `strip_comments`, rewriting the lines in place. */
  method StripComments(lines: array<string>)
    modifies lines
    ensures lines[..] == StripAll(old(lines[..]))
  {
    ghost var l0 := lines[..];
    for i := 0 to lines.Length
      invariant forall k :: 0 <= k < i ==> lines[k] == StripLine(l0[k])
      invariant forall k :: i <= k < lines.Length ==> lines[k] == l0[k]
    {
      match Find(lines[i], ';')
      case Some(j) =>
        lines[i] := RStrip(lines[i][..j]) + "\n";
      case None =>
    }
    assert lines[..] == StripAll(l0);
  }

  /** A line without `;` is left alone. */
  lemma UncommentedLineKept(l: string)
    requires ';' !in l
    ensures StripLine(l) == l
  {
  }

  /** A line with `;` becomes the code before its first `;`, with no trailing whitespace, and a
      newline: what is cut before that `;` is whitespace, and no `;` is left. */
  lemma CommentRemoved(l: string)
    requires ';' in l
    ensures Find(l, ';').Some?
    ensures var j := Find(l, ';').value;
      j < |l| && l[j] == ';' && forall k :: 0 <= k < j ==> l[k] != ';'
    ensures var j, r := Find(l, ';').value, StripLine(l);
      && |r| >= 1 && r[|r| - 1] == '\n'
      && |r| - 1 <= j && r[..|r| - 1] == l[..|r| - 1]
      && (forall k :: |r| - 1 <= k < j ==> IsSpace(l[k]))
      && (|r| == 1 || !IsSpace(r[|r| - 2]))
      && ';' !in r
  {
    var j := Find(l, ';').value;
    var p := l[..j];
    var c := RStrip(p);
    var r := c + "\n";
    assert StripLine(l) == r;
    assert ';' !in p;
    forall k | 0 <= k < j ensures l[k] != ';' {
      assert l[k] == p[k];
    }
    assert r[..|r| - 1] == c == l[..|c|];
    forall k | |c| <= k < j ensures IsSpace(l[k]) {
      assert l[k] == p[k];
    }
    assert ';' !in r by {
      forall k | 0 <= k < |c| ensures c[k] != ';' {
        assert c[k] == p[k];
      }
    }
  }

  /** Stripping twice is stripping once. */
  lemma StripLineIdempotent(l: string)
    ensures StripLine(StripLine(l)) == StripLine(l)
  {
    if ';' in l {
      CommentRemoved(l);
    }
  }

  /** Stripping a whole program twice is stripping it once. */
  lemma StripAllIdempotent(lines: seq<string>)
    ensures StripAll(StripAll(lines)) == StripAll(lines)
  {
    forall i | 0 <= i < |lines| ensures StripLine(StripLine(lines[i])) == StripLine(lines[i]) {
      StripLineIdempotent(lines[i]);
    }
  }
}
