/** The RISC240 instruction table and the mnemonic matcher built from it. */
module Isa {

  import opened Wrappers
  import opened PyStr

  /** The keys of the instruction table. */
  datatype Mnemonic =
    | ADD | ADDI | AND | BRA | BRC | BRN | BRNZ | BRV | BRZ | LI | LW | MV | NOT
    | OR | SLL | SLLI | SLT | SLTI | SRA | SRAI | SRL | SRLI | STOP | SUB | SW | XOR

  /** The spelling of a mnemonic in assembly text. */
  function Name(m: Mnemonic): (w: string)
    ensures 2 <= |w| <= 4
  {
    match m
    case ADD => "ADD"   case ADDI => "ADDI" case AND => "AND"   case BRA => "BRA"
    case BRC => "BRC"   case BRN => "BRN"   case BRNZ => "BRNZ" case BRV => "BRV"
    case BRZ => "BRZ"   case LI => "LI"     case LW => "LW"     case MV => "MV"
    case NOT => "NOT"   case OR => "OR"     case SLL => "SLL"   case SLLI => "SLLI"
    case SLT => "SLT"   case SLTI => "SLTI" case SRA => "SRA"   case SRAI => "SRAI"
    case SRL => "SRL"   case SRLI => "SRLI" case STOP => "STOP" case SUB => "SUB"
    case SW => "SW"     case XOR => "XOR"
  }

  /** The RTL template of each mnemonic. `{}` is a positional placeholder; `SLL` and `SLLI`
      carry a named field `{rs1}`, which positional formatting cannot fill. */
  function Template(m: Mnemonic): string {
    match m
    case ADD  => "{} <- {} + {}"
    case ADDI => "{} <- {} + {}"
    case AND  => "{} <- {} AND {}"
    case BRA  => "goto {}"
    case BRC  => "if carry, goto {}"
    case BRN  => "if negative, goto {}"
    case BRNZ => "if negative or zero, goto {}"
    case BRV  => "if overflow, goto {}"
    case BRZ  => "if zero, goto {}"
    case LI   => "{} <- {}"
    case LW   => "{} <- M[{} + {}]"
    case MV   => "{} <- {}"
    case NOT  => "{} <- {} NOT {}"
    case OR   => "{} <- {} OR {}"
    case SLL  => "{} <- {rs1} << {}"
    case SLLI => "{} <- {rs1} << {}"
    case SLT  => "{} - {}"
    case SLTI => "{} - {}"
    case SRA  => "{} <- {} >>> {}"
    case SRAI => "{} <- {} >>> {}"
    case SRL  => "{} <- {} >> {}"
    case SRLI => "{} <- {} >> {}"
    case STOP => "all done"
    case SUB  => "{} <- {} - {}"
    case SW   => "M[{} + {}] <- {}"
    case XOR  => "{} <- {} XOR {}"
  }

  /** Instructions whose operands are bound three at a time, two at a time and one (the
      branch target). `STOP` is in none of them: it takes no operand. */
  const ThreeArgs: set<Mnemonic> := {ADD, ADDI, AND, LW, NOT, OR, SLL, SLLI, SRA, SRAI, SRL, SRLI, SUB, SW, XOR}
  const TwoArgs: set<Mnemonic> := {LI, MV, SLT, SLTI}
  const OneArgs: set<Mnemonic> := {BRA, BRC, BRN, BRNZ, BRV, BRZ}

  /** The alternatives of the search pattern: the table's keys stably sorted by descending
      length of their names, so that at any column a longer mnemonic is tried before its
      prefixes. */
  const Modes: seq<Mnemonic> := Fours + Threes + Twos

  /** The alternatives spelled with four, three and two letters, each group in table order. */
  const Fours: seq<Mnemonic> := [ADDI, BRNZ, SLLI, SLTI, SRAI, SRLI, STOP]
  const Threes: seq<Mnemonic> := [ADD, AND, BRA, BRC, BRN, BRV, BRZ, NOT, SLL, SLT, SRA, SRL, SUB, XOR]
  const Twos: seq<Mnemonic> := [LI, LW, MV, OR, SW]

  /** The arity sets and `STOP` split the mnemonics into four disjoint classes. */
  lemma TableIsPartitioned(m: Mnemonic)
    ensures ThreeArgs !! TwoArgs && ThreeArgs !! OneArgs && TwoArgs !! OneArgs
    ensures STOP !in ThreeArgs && STOP !in TwoArgs && STOP !in OneArgs
    ensures m in ThreeArgs || m in TwoArgs || m in OneArgs || m == STOP
  {
    ArityClassesAreDisjoint();
  }

  /** Every template except that of `STOP` has a field to fill. */
  lemma OnlyStopIsLiteral(m: Mnemonic)
    ensures '{' in Template(m) <==> m != STOP
  {
    if m != STOP {
      assert Template(m)[0] == '{' || Template(m)[|Template(m)| - 2] == '{';
    }
  }

  lemma ArityClassesAreDisjoint()
    ensures ThreeArgs !! TwoArgs && ThreeArgs !! OneArgs && TwoArgs !! OneArgs
  {
  }

  /** Distinct mnemonics are spelled differently, so the table has one key per mnemonic. */
  lemma NamesAreDistinct(m: Mnemonic, n: Mnemonic)
    ensures Name(m) == Name(n) ==> m == n
  {
    if Name(m) == Name(n) {
      assert Name(m)[0] == Name(n)[0];
      assert |Name(m)| == |Name(n)|;
      if |Name(m)| >= 2 { assert Name(m)[1] == Name(n)[1]; }
      if |Name(m)| >= 3 { assert Name(m)[2] == Name(n)[2]; }
      if |Name(m)| >= 4 { assert Name(m)[3] == Name(n)[3]; }
    }
  }

  /** The position of each mnemonic among the pattern's alternatives. */
  function Index(m: Mnemonic): (k: nat)
    ensures k < |Modes| && Modes[k] == m
  {
    match m
    case ADDI => 0 case BRNZ => 1 case SLLI => 2 case SLTI => 3 case SRAI => 4 case SRLI => 5
    case STOP => 6 case ADD => 7 case AND => 8 case BRA => 9 case BRC => 10 case BRN => 11
    case BRV => 12 case BRZ => 13 case NOT => 14 case SLL => 15 case SLT => 16 case SRA => 17
    case SRL => 18 case SUB => 19 case XOR => 20 case LI => 21 case LW => 22 case MV => 23
    case OR => 24 case SW => 25
  }

  /** Every mnemonic is spelled with two to four capital letters. */
  lemma NameIsWord(m: Mnemonic)
    ensures 2 <= |Name(m)| <= 4 && IsWord(Name(m))
    ensures forall k :: 0 <= k < |Name(m)| ==> 'A' <= Name(m)[k] <= 'Z'
  {
    NameIsCapitals(m);
  }

  lemma NameIsCapitals(m: Mnemonic)
    ensures 2 <= |Name(m)| <= 4
    ensures forall k :: 0 <= k < |Name(m)| ==> 'A' <= Name(m)[k] <= 'Z'
  {
  }

  /** The alternatives are sorted longest first. */
  lemma ModesAreSorted()
    ensures forall i :: 0 <= i < |Modes| ==> Name(Modes[i]) != []
    ensures forall i, j :: 0 <= i < j < |Modes| ==> |Name(Modes[i])| >= |Name(Modes[j])|
  {
    forall i | 0 <= i < |Modes| ensures Name(Modes[i]) != [] {
      WidthAt(i);
    }
    forall i, j | 0 <= i < j < |Modes| ensures |Name(Modes[i])| >= |Name(Modes[j])| {
      WidthAt(i);
      WidthAt(j);
    }
  }

  lemma WidthAt(i: nat)
    requires i < |Modes|
    ensures |Name(Modes[i])| == if i < 7 then 4 else if i < 21 then 3 else 2
  {
    if i < 7 {
      assert Modes[i] == Fours[i] && Fours[i] in Fours;
      FoursWidth(Fours[i]);
    } else if i < 21 {
      assert Modes[i] == Threes[i - 7] && Threes[i - 7] in Threes;
      ThreesWidth(Threes[i - 7]);
    } else {
      assert Modes[i] == Twos[i - 21] && Twos[i - 21] in Twos;
      TwosWidth(Twos[i - 21]);
    }
  }

  lemma FoursWidth(m: Mnemonic)
    requires m in Fours
    ensures |Name(m)| == 4
  {
  }

  lemma ThreesWidth(m: Mnemonic)
    requires m in Threes
    ensures |Name(m)| == 3
  {
  }

  lemma TwosWidth(m: Mnemonic)
    requires m in Twos
    ensures |Name(m)| == 2
  {
  }

  /** The names of the alternatives, in order. */
  function Names(): (r: seq<string>)
    ensures |r| == |Modes| && forall j :: 0 <= j < |Modes| ==> r[j] == Name(Modes[j])
  {
    seq(|Modes|, j requires 0 <= j < |Modes| => Name(Modes[j]))
  }

  /** The pattern's alternatives are the 26 keys of the table, longest first. */
  lemma NamesSortedAndComplete()
    ensures |Names()| == 26
    ensures Sorted(Names())
    ensures forall m: Mnemonic :: Name(m) in Names()
  {
    ModesAreSorted();
    assert forall m: Mnemonic :: Names()[Index(m)] == Name(m);
  }

  // ---------------------------------------------------------------------------------------
  // The matcher, for any list of alternatives; `Search` instantiates it with `Names()`.

  /** Word `w` occurs in `s` at column `i`. */
  predicate OccursAt(s: string, i: int, w: string) {
    0 <= i && i + |w| <= |s| && s[i..i + |w|] == w
  }

  /** Alternatives, none empty, listed so that a longer one always comes before a shorter one. */
  ghost predicate Sorted(words: seq<string>) {
    && (forall i :: 0 <= i < |words| ==> words[i] != [])
    && (forall i, j :: 0 <= i < j < |words| ==> |words[i]| >= |words[j]|)
  }

  /** The first alternative, from the `k`-th on, that occurs at column `i`. */
  function FirstAt(words: seq<string>, s: string, i: nat, k: nat): (r: Option<nat>)
    requires k <= |words|
    ensures r.Some? ==> k <= r.value < |words| && OccursAt(s, i, words[r.value])
    ensures r.Some? ==> forall j :: k <= j < r.value ==> !OccursAt(s, i, words[j])
    ensures r.None? ==> forall j :: k <= j < |words| ==> !OccursAt(s, i, words[j])
    decreases |words| - k
  {
    if k == |words| then None
    else if OccursAt(s, i, words[k]) then Some(k)
    else FirstAt(words, s, i, k + 1)
  }

  /** With the alternatives longest first, the one chosen at column `i` is the longest
      occurring there. */
  lemma FirstIsLongest(words: seq<string>, s: string, i: nat)
    requires Sorted(words)
    requires FirstAt(words, s, i, 0).Some?
    ensures forall j :: 0 <= j < |words| && OccursAt(s, i, words[j]) ==>
      |words[j]| <= |words[FirstAt(words, s, i, 0).value]|
  {
  }

  /** `re.search` of the alternation of `words`, started at column `i`: try every column from
      `i` rightwards and, at each, the alternatives in order. The result is the column and
      the index of the alternative. */
  function SearchFrom(words: seq<string>, s: string, i: nat): (r: Option<(nat, nat)>)
    ensures r.Some? ==> i <= r.value.0 && r.value.1 < |words| && OccursAt(s, r.value.0, words[r.value.1])
    decreases |s| - i
  {
    if i >= |s| then None
    else match FirstAt(words, s, i, 0)
      case Some(j) => Some((i, j))
      case None => SearchFrom(words, s, i + 1)
  }

  /** The search from column `i` finds the leftmost column at or after `i` where an
      alternative occurs and, there, the longest alternative. */
  lemma {:induction false} SearchFromIsLeftmost(words: seq<string>, s: string, i: nat)
    requires Sorted(words)
    ensures var r := SearchFrom(words, s, i);
      && (r.Some? ==> forall p, j :: i <= p < r.value.0 && 0 <= j < |words| ==> !OccursAt(s, p, words[j]))
      && (r.Some? ==> forall j :: 0 <= j < |words| && OccursAt(s, r.value.0, words[j]) ==>
            |words[j]| <= |words[r.value.1]|)
      && (r.None? ==> forall p, j :: i <= p && 0 <= j < |words| ==> !OccursAt(s, p, words[j]))
    decreases |s| - i
  {
    if i < |s| {
      match FirstAt(words, s, i, 0)
      case Some(j) =>
        FirstIsLongest(words, s, i);
      case None =>
        SearchFromIsLeftmost(words, s, i + 1);
    }
  }

  /** A match in a line: the start and end columns and the mnemonic spelled between them. */
  datatype Match = Match(start: nat, end: nat, op: Mnemonic)

  /** No mnemonic occurs anywhere in `s`. */
  ghost predicate NoneOccurs(s: string) {
    forall i, m :: !OccursAt(s, i, Name(m))
  }

  /** The declarative meaning of a search result: `r` covers an occurrence of its mnemonic,
      no mnemonic starts further left, and none starting at the same column is longer. */
  ghost predicate Leftmost(s: string, r: Match) {
    && OccursAt(s, r.start, Name(r.op))
    && r.end == r.start + |Name(r.op)|
    && (forall i, m :: i < r.start ==> !OccursAt(s, i, Name(m)))
    && (forall m :: OccursAt(s, r.start, Name(m)) ==> |Name(m)| <= |Name(r.op)|)
  }

  /** `re.search(modes, s)`: the leftmost mnemonic of `s`, longest first, or `None`. */
  function Search(s: string): (r: Option<Match>)
    ensures r.Some? ==> r.value.start < r.value.end <= |s|
    ensures r.Some? ==> r.value.end == r.value.start + |Name(r.value.op)|
  {
    match SearchFrom(Names(), s, 0)
    case None => None
    case Some((c, j)) => Some(Match(c, c + |Name(Modes[j])|, Modes[j]))
  }

  /** `re.search` of every line of a list, as the list comprehensions compute it. */
  function Matches(ls: seq<string>): (r: seq<Option<Match>>)
    ensures |r| == |ls|
  {
    seq(|ls|, k requires 0 <= k < |ls| => Search(ls[k]))
  }

  /** A match found is the leftmost, longest occurrence; no match means no occurrence. */
  lemma SearchMeaning(s: string)
    ensures Search(s).None? <==> NoneOccurs(s)
    ensures Search(s).Some? ==> Leftmost(s, Search(s).value)
  {
    ModesAreSorted();
    var names := Names();
    assert Sorted(names);
    SearchFromIsLeftmost(names, s, 0);
    assert forall m :: names[Index(m)] == Name(m);
  }

  /** The search result satisfies `Leftmost`. */
  lemma SearchLeftmost(s: string, r: Match)
    requires Search(s) == Some(r)
    ensures Leftmost(s, r)
  {
    SearchMeaning(s);
  }

  /** The search finds nothing exactly when no mnemonic occurs. */
  lemma SearchNone(s: string)
    ensures Search(s).None? <==> NoneOccurs(s)
  {
    SearchMeaning(s);
  }

  /** `Leftmost` singles out one match. */
  lemma LeftmostIsUnique(s: string, q: Match, r: Match)
    requires Leftmost(s, q) && Leftmost(s, r)
    ensures q == r
  {
    assert q.start == r.start;
    assert |Name(q.op)| == |Name(r.op)|;
    assert Name(q.op) == s[q.start..q.end] == Name(r.op);
    NamesAreDistinct(q.op, r.op);
  }

  /** So the search result is exactly the match meeting `Leftmost`. */
  lemma SearchIsLeftmost(s: string, r: Match)
    ensures Search(s) == Some(r) <==> Leftmost(s, r)
  {
    if Search(s) == Some(r) {
      SearchLeftmost(s, r);
    }
    if Leftmost(s, r) {
      SearchNone(s);
      assert !NoneOccurs(s);
      var q := Search(s).value;
      SearchLeftmost(s, q);
      LeftmostIsUnique(s, q, r);
    }
  }

  /** A mnemonic occurring at column `i` is found, at `i` or further left. */
  lemma SearchFindsOccurrence(s: string, i: int, m: Mnemonic)
    requires OccursAt(s, i, Name(m))
    ensures Search(s).Some? && Search(s).value.start <= i
  {
    SearchMeaning(s);
  }

  /** `ADDI R1 R2 5` matches `ADDI`, not its prefix `ADD`. */
  lemma LongestWinsExample()
    ensures Search("ADDI R1 R2 5") == Some(Match(0, 4, ADDI))
  {
    var s := "ADDI R1 R2 5";
    assert OccursAt(s, 0, Name(ADDI));
    forall m | OccursAt(s, 0, Name(m)) ensures |Name(m)| <= 4 { NameIsWord(m); }
    SearchIsLeftmost(s, Match(0, 4, ADDI));
  }

  /** A mnemonic spells only capital letters, so a line holding one is not blank. */
  lemma MatchIsNotBlank(s: string)
    requires Search(s).Some?
    ensures !IsBlank(s)
  {
    var r := Search(s).value;
    NameIsCapitals(r.op);
    assert s[r.start] == Name(r.op)[0];
    assert s[r.start] in s;
  }

  /** Text in front of a line that holds no mnemonic and ends in whitespace moves every
      occurrence right by its length and adds none. */
  lemma OccursShifted(p: string, s: string, i: int, m: Mnemonic)
    requires NoneOccurs(p) && (p == [] || IsSpace(p[|p| - 1]))
    ensures OccursAt(p + s, i, Name(m)) <==> i >= |p| && OccursAt(s, i - |p|, Name(m))
  {
    if i < |p| {
      NoneInPrefix(p, s, i, m);
    } else {
      OccursAfterPrefix(p, s, i, m);
    }
  }

  lemma OccursAfterPrefix(p: string, s: string, i: int, m: Mnemonic)
    requires i >= |p|
    ensures OccursAt(p + s, i, Name(m)) <==> OccursAt(s, i - |p|, Name(m))
  {
    var n := |Name(m)|;
    if i + n <= |p + s| {
      assert (p + s)[i..i + n] == s[i - |p|..i - |p| + n];
    }
  }

  lemma NoneInPrefix(p: string, s: string, i: int, m: Mnemonic)
    requires NoneOccurs(p) && (p == [] || IsSpace(p[|p| - 1]))
    requires i < |p|
    ensures !OccursAt(p + s, i, Name(m))
  {
    var n := |Name(m)|;
    if 0 <= i && i + n <= |p| {
      assert (p + s)[i..i + n] == p[i..i + n];
      assert !OccursAt(p, i, Name(m));
    } else if 0 <= i && i + n <= |p + s| {
      SpaceBlocksOccurrence(p + s, i, m, |p| - 1);
    }
  }

  /** A window holding a whitespace character is no occurrence of a mnemonic. */
  lemma SpaceBlocksOccurrence(s: string, i: int, m: Mnemonic, k: int)
    requires 0 <= i <= k < i + |Name(m)| <= |s| && IsSpace(s[k])
    ensures !OccursAt(s, i, Name(m))
  {
    NameIsCapitals(m);
    assert s[i..i + |Name(m)|][k - i] == s[k];
  }

  /** The match moves right with the prefix: `Search(p + s)` is `Search(s)` shifted by `|p|`. */
  lemma SearchShift(p: string, s: string, r: Match)
    requires NoneOccurs(p) && (p == [] || IsSpace(p[|p| - 1]))
    requires Search(s) == Some(r)
    ensures Search(p + s) == Some(Match(r.start + |p|, r.end + |p|, r.op))
  {
    SearchIsLeftmost(s, r);
    ShiftedMatch(p, s, r);
    SearchIsLeftmost(p + s, Match(r.start + |p|, r.end + |p|, r.op));
  }

  /** Such a prefix adds no match to a line that has none. */
  lemma NoneShift(p: string, s: string)
    requires NoneOccurs(p) && (p == [] || IsSpace(p[|p| - 1]))
    requires Search(s).None?
    ensures Search(p + s).None?
  {
    SearchNone(s);
    SearchNone(p + s);
    forall i, m ensures !OccursAt(p + s, i, Name(m)) {
      OccursShifted(p, s, i, m);
    }
  }

  lemma ShiftedMatch(p: string, s: string, r: Match)
    requires NoneOccurs(p) && (p == [] || IsSpace(p[|p| - 1]))
    requires Leftmost(s, r)
    ensures Leftmost(p + s, Match(r.start + |p|, r.end + |p|, r.op))
  {
    var q := Match(r.start + |p|, r.end + |p|, r.op);
    OccursShifted(p, s, q.start, q.op);
    forall i, m | i < q.start ensures !OccursAt(p + s, i, Name(m)) {
      OccursShifted(p, s, i, m);
    }
    forall m | OccursAt(p + s, q.start, Name(m)) ensures |Name(m)| <= |Name(q.op)| {
      OccursShifted(p, s, q.start, m);
    }
  }

  /** Whitespace after a line that holds no mnemonic does not create one. */
  lemma NoneOccursPadded(c: string, q: string)
    requires NoneOccurs(c) && IsBlank(q)
    ensures NoneOccurs(c + q)
  {
    forall i, m ensures !OccursAt(c + q, i, Name(m)) {
      var n := |Name(m)|;
      if 0 <= i && i + n <= |c| {
        assert (c + q)[i..i + n] == c[i..i + n];
        assert !OccursAt(c, i, Name(m));
      } else if 0 <= i && i + n <= |c + q| {
        var k := if i >= |c| then i else |c|;
        assert (c + q)[k] == q[k - |c|] && q[k - |c|] in q;
        SpaceBlocksOccurrence(c + q, i, m, k);
      }
    }
  }

  /** A line that starts with a mnemonic is matched at column 0. */
  lemma SearchAtStart(s: string, m: Mnemonic)
    requires OccursAt(s, 0, Name(m))
    ensures Search(s).Some? && Search(s).value.start == 0
  {
    SearchFindsOccurrence(s, 0, m);
  }

  /** An occurrence at the start of `a` is one at the start of `a + b`. */
  lemma OccursInExtension(a: string, b: string, w: string)
    requires OccursAt(a, 0, w)
    ensures OccursAt(a + b, 0, w)
  {
    assert (a + b)[0..|w|] == a[0..|w|];
  }

  /** After a prefix holding no mnemonic and ending in whitespace, a text starting with a
      mnemonic is matched right where it begins. */
  lemma SearchAfterPrefix(p: string, t: string, op: Mnemonic)
    requires NoneOccurs(p) && p != [] && IsSpace(p[|p| - 1])
    requires OccursAt(t, 0, Name(op))
    ensures Search(p + t).Some? && Search(p + t).value.start == |p|
  {
    SearchAtStart(t, op);
    SearchShift(p, t, Search(t).value);
  }

  /** Whitespace holds no mnemonic. */
  lemma NoneOccursBlank(q: string)
    requires IsBlank(q)
    ensures NoneOccurs(q)
  {
    NoneOccursPadded([], q);
    assert [] + q == q;
  }

  /** Whitespace after a line neither adds nor removes an occurrence. */
  lemma OccursWithBlankTail(c: string, q: string, i: int, m: Mnemonic)
    requires IsBlank(q)
    ensures OccursAt(c + q, i, Name(m)) <==> OccursAt(c, i, Name(m))
  {
    var n := |Name(m)|;
    if 0 <= i && i + n <= |c| {
      assert (c + q)[i..i + n] == c[i..i + n];
    } else if 0 <= i && i + n <= |c + q| {
      var k := if i >= |c| then i else |c|;
      assert (c + q)[k] == q[k - |c|] && q[k - |c|] in q;
      SpaceBlocksOccurrence(c + q, i, m, k);
    }
  }

  /** So `re.search` finds the same match with or without trailing whitespace. */
  lemma SearchWithBlankTail(c: string, q: string)
    requires IsBlank(q)
    ensures Search(c + q) == Search(c)
  {
    SearchNone(c);
    if Search(c).None? {
      NoneOccursPadded(c, q);
      SearchNone(c + q);
    } else {
      var r := Search(c).value;
      SearchLeftmost(c, r);
      forall i, m ensures OccursAt(c + q, i, Name(m)) <==> OccursAt(c, i, Name(m)) {
        OccursWithBlankTail(c, q, i, m);
      }
      assert Leftmost(c + q, r);
      SearchIsLeftmost(c + q, r);
    }
  }

  /** `line.rstrip()` keeps the match of `line`. */
  lemma SearchRStrip(s: string)
    ensures Search(RStrip(s)) == Search(s)
  {
    var c := RStrip(s);
    var q := s[|c|..];
    assert s == c + q;
    forall x | x in q ensures IsSpace(x) {
      var k :| 0 <= k < |q| && q[k] == x;
      assert q[k] == s[|c| + k];
    }
    SearchWithBlankTail(c, q);
  }
}
