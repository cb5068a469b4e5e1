/** The few Python `str` operations the annotator relies on, written out over `seq<char>`. */
module PyStr {

  import opened Wrappers

  /** `str.isspace()` for one character: the ASCII whitespace characters and the Unicode
      separators Python treats as whitespace. */
  predicate IsSpace(c: char) {
    c == ' ' || ('\t' <= c <= '\r') || ('\U{1C}' <= c <= '\U{1F}') || c == '\U{85}'
    || c == '\U{A0}' || c == '\U{1680}' || ('\U{2000}' <= c <= '\U{200A}') || c == '\U{2028}'
    || c == '\U{2029}' || c == '\U{202F}' || c == '\U{205F}' || c == '\U{3000}'
  }

  /** A string made only of whitespace (the empty string included). */
  predicate IsBlank(s: string) {
    forall c :: c in s ==> IsSpace(c)
  }

  /** A string holding no whitespace character. */
  predicate IsWord(s: string) {
    forall c :: c in s ==> !IsSpace(c)
  }

  /** `n * " "`: a negative or zero count gives the empty string. */
  function Spaces(n: int): string {
    seq(if n <= 0 then 0 else n, _ => ' ')
  }

  /** `s.rstrip()` */
  function RStrip(s: string): (r: string)
    ensures r <= s
    ensures r == [] || !IsSpace(r[|r| - 1])
    ensures forall k :: |r| <= k < |s| ==> IsSpace(s[k])
  {
    if s != [] && IsSpace(s[|s| - 1]) then RStrip(s[..|s| - 1]) else s
  }

  /** `s.lstrip()` */
  function LStrip(s: string): (r: string)
    ensures |r| <= |s| && r == s[|s| - |r|..]
    ensures r == [] || !IsSpace(r[0])
    ensures forall k :: 0 <= k < |s| - |r| ==> IsSpace(s[k])
  {
    if s != [] && IsSpace(s[0]) then LStrip(s[1..]) else s
  }

  /** `s.strip()`: empty exactly when `s` is blank. */
  function Strip(s: string): (r: string)
    ensures r == [] <==> IsBlank(s)
    ensures Trimmed(r)
  {
    var r := LStrip(RStrip(s));
    StripEnds(s, r);
    r
  }

  /** Text that neither starts nor ends with whitespace. */
  predicate Trimmed(r: string) {
    r == [] || (!IsSpace(r[0]) && !IsSpace(r[|r| - 1]))
  }

  lemma StripEnds(s: string, r: string)
    requires r == LStrip(RStrip(s))
    ensures r == [] <==> IsBlank(s)
    ensures Trimmed(r)
  {
    var t := RStrip(s);
    if r == [] {
      assert |t| == 0;
      forall c | c in s ensures IsSpace(c) {
        var k :| 0 <= k < |s| && s[k] == c;
      }
    } else {
      var i := |t| - |r|;
      assert r == t[i..];
      assert r[0] == t[i];
      assert t[i] == s[i];
      assert s[i] in s;
      assert r[|r| - 1] == t[i..][|r| - 1] == t[|t| - 1];
    }
  }

  /** `len(s.strip()) != 0`: whether a line holds anything but whitespace. */
  method HasText(s: string) returns (b: bool)
    ensures b <==> !IsBlank(s)
  {
    b := |Strip(s)| != 0;
  }

  /** The index just past the word that starts at `i`: the first whitespace at or after `i`,
      or the end of `s`. */
  function WordEnd(s: string, i: nat): (j: nat)
    requires i <= |s|
    ensures i <= j <= |s|
    ensures forall k :: i <= k < j ==> !IsSpace(s[k])
    ensures j == |s| || IsSpace(s[j])
    decreases |s| - i
  {
    if i == |s| || IsSpace(s[i]) then i else WordEnd(s, i + 1)
  }

  /** A word ends at the first whitespace character. */
  lemma {:induction false} WordEndAt(s: string, i: nat, j: nat)
    requires i <= j <= |s|
    requires forall k :: i <= k < j ==> !IsSpace(s[k])
    requires j == |s| || IsSpace(s[j])
    ensures WordEnd(s, i) == j
    decreases j - i
  {
    if i < j {
      WordEndAt(s, i + 1, j);
    }
  }

  /** `s.split()` with no separator: the maximal runs of non-whitespace, in order. */
  function Split(s: string): (r: seq<string>)
    ensures forall k :: 0 <= k < |r| ==> r[k] != [] && IsWord(r[k])
    decreases |s|
  {
    if s == [] then []
    else if IsSpace(s[0]) then Split(s[1..])
    else
      var k := WordEnd(s, 0);
      [s[..k]] + Split(s[k..])
  }

  /** `" ".join(ts)` */
  function Join(ts: seq<string>): string {
    if ts == [] then [] else if |ts| == 1 then ts[0] else ts[0] + " " + Join(ts[1..])
  }

  /** The first index of `c` in `s`: `s.index(c)`, or `None` where Python raises ValueError. */
  function Find(s: string, c: char): (r: Option<nat>)
    ensures r.Some? ==> r.value < |s| && s[r.value] == c && c !in s[..r.value]
    ensures r.None? <==> c !in s
  {
    if s == [] then None
    else if s[0] == c then Some(0)
    else match Find(s[1..], c)
      case None => None
      case Some(k) => assert s[..k + 1] == [s[0]] + s[1..][..k]; Some(k + 1)
  }

  /** `max(xs)` of a non-empty list of integers. */
  function Max(xs: seq<int>): (m: int)
    requires xs != []
    ensures m in xs && forall x :: x in xs ==> x <= m
  {
    if |xs| == 1 then xs[0]
    else
      var m := Max(xs[1..]);
      assert xs == [xs[0]] + xs[1..];
      if xs[0] >= m then xs[0] else m
  }

  /** `c.upper()` for ASCII letters; every other character is left as it is. */
  function UpperChar(c: char): char {
    if 'a' <= c <= 'z' then (c as int - 32) as char else c
  }

  /** `re.sub(",", "", s.upper())`: upper-case the line and drop every comma. */
  function Sanitize(s: string): (r: string)
    ensures |r| <= |s|
    ensures ',' !in r
    ensures forall k :: 0 <= k < |r| ==> !('a' <= r[k] <= 'z')
  {
    if s == [] then [] else (if s[0] == ',' then [] else [UpperChar(s[0])]) + Sanitize(s[1..])
  }

  /** Only the commas are dropped. */
  lemma {:induction false} SanitizeLength(s: string)
    ensures |Sanitize(s)| == |s| - multiset(s)[',']
  {
    if s != [] {
      assert s == [s[0]] + s[1..];
      SanitizeLength(s[1..]);
    }
  }

  /** Sanitizing works character by character: a concatenation is sanitized piecewise. */
  lemma {:induction false} SanitizeAppend(a: string, b: string)
    ensures Sanitize(a + b) == Sanitize(a) + Sanitize(b)
  {
    if a == [] {
      assert a + b == b;
    } else {
      assert (a + b)[0] == a[0] && (a + b)[1..] == a[1..] + b;
      SanitizeAppend(a[1..], b);
    }
  }

  /** What one character becomes: nothing for a comma, its upper case otherwise. */
  lemma SanitizeChar(c: char)
    ensures c == ',' ==> Sanitize([c]) == []
    ensures c != ',' ==> Sanitize([c]) == [UpperChar(c)] && !('a' <= UpperChar(c) <= 'z')
    ensures c != ',' && 'a' <= c <= 'z' ==> UpperChar(c) as int == c as int - 32
    ensures c != ',' && !('a' <= c <= 'z') ==> UpperChar(c) == c
  {
  }

  /** A line without commas and without lower-case letters is left unchanged. */
  lemma {:induction false} SanitizeKeepsClean(s: string)
    requires ',' !in s && forall k :: 0 <= k < |s| ==> !('a' <= s[k] <= 'z')
    ensures Sanitize(s) == s
  {
    if s != [] {
      SanitizeKeepsClean(s[1..]);
    }
  }

  /** Sanitizing is idempotent. */
  lemma SanitizeIdempotent(s: string)
    ensures Sanitize(Sanitize(s)) == Sanitize(s)
  {
    SanitizeKeepsClean(Sanitize(s));
  }

  // ---------------------------------------------------------------------------------------
  // Facts about splitting and joining used by the alignment proofs.

  /** A whitespace character separates the tokens on its two sides. */
  lemma {:induction false} SplitAtSpace(a: string, c: char, b: string)
    requires IsSpace(c)
    ensures Split(a + [c] + b) == Split(a) + Split(b)
    decreases |a|
  {
    var x := a + [c] + b;
    if a == [] {
      assert x[1..] == b;
    } else if IsSpace(a[0]) {
      assert x[1..] == a[1..] + [c] + b;
      SplitAtSpace(a[1..], c, b);
    } else {
      var k := WordEnd(a, 0);
      assert x[|a|] == c;
      assert forall m :: 0 <= m < |a| ==> x[m] == a[m];
      WordEndAt(x, 0, k);
      assert x[..k] == a[..k];
      assert x[k..] == a[k..] + [c] + b;
      SplitAtSpace(a[k..], c, b);
    }
  }

  /** Blank text contributes no token. */
  lemma {:induction false} SplitBlank(s: string)
    requires IsBlank(s)
    ensures Split(s) == []
    decreases |s|
  {
    if s != [] {
      assert IsBlank(s[1..]);
      SplitBlank(s[1..]);
    }
  }

  /** A single word splits into itself. */
  lemma SplitWord(w: string)
    requires w != [] && IsWord(w)
    ensures Split(w) == [w]
  {
    assert !IsSpace(w[0]);
    var k := WordEnd(w, 0);
    assert k == |w|;
    assert w[..k] == w;
    assert w[k..] == [];
  }

  /** Splitting undoes joining, for words. */
  lemma {:induction false} SplitJoin(ts: seq<string>)
    requires forall k :: 0 <= k < |ts| ==> ts[k] != [] && IsWord(ts[k])
    ensures Split(Join(ts)) == ts
    decreases |ts|
  {
    if ts == [] {
    } else if |ts| == 1 {
      SplitWord(ts[0]);
    } else {
      SplitJoin(ts[1..]);
      SplitWord(ts[0]);
      SplitAtSpace(ts[0], ' ', Join(ts[1..]));
      assert ts[0] + " " + Join(ts[1..]) == ts[0] + [' '] + Join(ts[1..]);
    }
  }

  /** Blank text on either side of a string adds no token. */
  lemma SplitPadded(p: string, s: string, q: string)
    requires IsBlank(p) && IsBlank(q)
    ensures Split(p + s + q) == Split(s)
  {
    SplitPrefixBlank(p, s + q);
    SplitSuffixBlank(s, q);
    assert p + s + q == p + (s + q);
  }

  lemma {:induction false} SplitPrefixBlank(p: string, s: string)
    requires IsBlank(p)
    ensures Split(p + s) == Split(s)
    decreases |p|
  {
    if p != [] {
      assert (p + s)[0] == p[0];
      assert (p + s)[1..] == p[1..] + s;
      assert IsBlank(p[1..]);
      SplitPrefixBlank(p[1..], s);
    } else {
      assert p + s == s;
    }
  }

  lemma SplitSuffixBlank(s: string, q: string)
    requires IsBlank(q)
    ensures Split(s + q) == Split(s)
  {
    if q != [] {
      SplitAtSpace(s, q[0], q[1..]);
      assert s + q == s + [q[0]] + q[1..];
      assert IsBlank(q[1..]);
      SplitBlank(q[1..]);
    } else {
      assert s + q == s;
    }
  }

  /** Text holding a non-whitespace character has at least one token. */
  lemma {:induction false} SplitNonBlank(s: string)
    requires !IsBlank(s)
    ensures Split(s) != []
    decreases |s|
  {
    if IsSpace(s[0]) {
      assert s == [s[0]] + s[1..];
      assert !IsBlank(s[1..]);
      SplitNonBlank(s[1..]);
    }
  }

  /** A string that starts with a non-whitespace character has its first word as first token. */
  lemma FirstToken(s: string)
    requires s != [] && !IsSpace(s[0])
    ensures Split(s) != [] && Split(s)[0] == s[..WordEnd(s, 0)]
  {
  }

  /** A word with whitespace around it splits into that word alone. */
  lemma SplitPaddedWord(p: string, w: string, q: string)
    requires IsBlank(p) && IsBlank(q) && w != [] && IsWord(w)
    ensures Split(p + w + q) == [w]
  {
    SplitPadded(p, w, q);
    SplitWord(w);
  }

  /** Joining a word in front of further words and adding a newline splits back into them. */
  lemma SplitJoinLine(first: string, ws: seq<string>)
    requires forall k :: 0 <= k < |ws| ==> ws[k] != [] && IsWord(ws[k])
    ensures Split(Join([first] + ws) + "\n") == Split(first) + ws
  {
    var body := Join([first] + ws);
    if ws == [] {
      assert body == first;
    } else {
      assert body == first + [' '] + Join(ws);
      SplitAtSpace(first, ' ', Join(ws));
      SplitJoin(ws);
    }
    SplitSuffixBlank(body, "\n");
  }

  /** What `" ".join` puts after the first word: nothing, or a space and the other words. */
  function JoinTail(ws: seq<string>): string {
    if ws == [] then [] else " " + Join(ws)
  }

  lemma JoinFront(first: string, ws: seq<string>)
    ensures Join([first] + ws) == first + JoinTail(ws)
  {
    var ts := [first] + ws;
    if ws != [] {
      assert ts[1..] == ws;
    }
  }
}
