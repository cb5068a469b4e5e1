/** Rendering of RTL templates: positional `str.format`, and the RTL text each instruction
    is meant to produce. */
module Render {

  import opened Wrappers
  import opened Isa

  /** Puts `p` in front of a successful result; an error is passed on unchanged. */
  function Prepend(p: string, r: Result<string, Error>): (q: Result<string, Error>)
    ensures q.Ok? <==> r.Ok?
    ensures q.Ok? ==> q.value == p + r.value
    ensures q.Err? ==> q.error == r.error
  {
    match r
    case Ok(v) => Ok(p + v)
    case Err(e) => Err(e)
  }

  lemma PrependTwice(p: string, q: string, r: Result<string, Error>)
    ensures Prepend(p, Prepend(q, r)) == Prepend(p + q, r)
  {
    if r.Ok? {
      assert p + (q + r.value) == (p + q) + r.value;
    }
  }

  lemma PrependNothing(r: Result<string, Error>)
    ensures Prepend([], r) == r
  {
    if r.Ok? {
      assert [] + r.value == r.value;
    }
  }

  /** A piece of template text with no brace in it. */
  predicate Literal(p: string) {
    '{' !in p && '}' !in p
  }

  /** `t.format(*args)`: `{}` takes the next positional argument (IndexError when none is
      left), `{{` and `}}` stand for single braces, a field with a name inside the braces is
      looked up among keyword arguments, of which there are none (KeyError), and a brace left
      unmatched is a ValueError. */
  function Format(t: string, args: seq<string>): Result<string, Error>
    decreases |t|
  {
    if t == [] then Ok([])
    else if t[0] == '{' then
      if |t| >= 2 && t[1] == '{' then Prepend("{", Format(t[2..], args))
      else if |t| >= 2 && t[1] == '}' then
        if args == [] then Err(IndexOut) else Prepend(args[0], Format(t[2..], args[1..]))
      else if '}' in t[1..] then Err(MissingKey)
      else Err(StrayBrace)
    else if t[0] == '}' then
      if |t| >= 2 && t[1] == '}' then Prepend("}", Format(t[2..], args)) else Err(StrayBrace)
    else Prepend([t[0]], Format(t[1..], args))
  }

  /** Literal text is copied through. */
  lemma {:induction false} FormatLiteral(p: string, rest: string, args: seq<string>)
    requires Literal(p)
    ensures Format(p + rest, args) == Prepend(p, Format(rest, args))
    decreases |p|
  {
    if p == [] {
      assert p + rest == rest;
      PrependNothing(Format(rest, args));
    } else {
      assert (p + rest)[0] == p[0];
      assert (p + rest)[1..] == p[1..] + rest;
      FormatLiteral(p[1..], rest, args);
      PrependTwice([p[0]], p[1..], Format(rest, args));
      assert [p[0]] + p[1..] == p;
    }
  }

  /** A template without braces renders as itself. */
  lemma FormatPlain(p: string, args: seq<string>)
    requires Literal(p)
    ensures Format(p, args) == Ok(p)
  {
    FormatLiteral(p, [], args);
    assert p + [] == p;
  }

  /** A placeholder takes the next argument. */
  lemma FormatHole(p: string, rest: string, a: string, args: seq<string>)
    requires Literal(p)
    ensures Format(p + "{}" + rest, [a] + args) == Prepend(p + a, Format(rest, args))
  {
    FormatLiteral(p, "{}" + rest, [a] + args);
    assert p + "{}" + rest == p + ("{}" + rest);
    assert ("{}" + rest)[2..] == rest;
    assert ([a] + args)[1..] == args;
    PrependTwice(p, a, Format(rest, args));
  }

  /** A template of one placeholder between literal pieces. */
  lemma Format1(p0: string, p1: string, a: string)
    requires Literal(p0) && Literal(p1)
    ensures Format(p0 + "{}" + p1, [a]) == Ok(p0 + a + p1)
  {
    FormatHole(p0, p1, a, []);
    assert [a] + [] == [a];
    FormatLiteral(p1, [], []);
    assert p1 + [] == p1;
    assert Format(p1, []) == Ok(p1);
  }

  /** A template of two placeholders between literal pieces. */
  lemma Format2(p0: string, p1: string, p2: string, a: string, b: string)
    requires Literal(p0) && Literal(p1) && Literal(p2)
    ensures Format(p0 + "{}" + (p1 + "{}" + p2), [a, b]) == Ok(p0 + a + (p1 + b + p2))
  {
    var t := p1 + "{}" + p2;
    assert [a, b] == [a] + [b];
    FormatHole(p0, t, a, [b]);
    Format1(p1, p2, b);
  }

  /** A template of three placeholders between literal pieces. */
  lemma Format3(p0: string, p1: string, p2: string, p3: string, a: string, b: string, c: string)
    requires Literal(p0) && Literal(p1) && Literal(p2) && Literal(p3)
    ensures Format(p0 + "{}" + (p1 + "{}" + (p2 + "{}" + p3)), [a, b, c])
         == Ok(p0 + a + (p1 + b + (p2 + c + p3)))
  {
    var t := p1 + "{}" + (p2 + "{}" + p3);
    assert [a, b, c] == [a] + [b, c];
    FormatHole(p0, t, a, [b, c]);
    Format2(p1, p2, p3, b, c);
  }

  /** A named field after a placeholder fails with KeyError once the placeholder is filled. */
  lemma FormatNamedField(p0: string, name: string, rest: string, a: string, args: seq<string>)
    requires Literal(p0) && Literal(name) && name != []
    ensures Format(p0 + "{}" + " <- {" + name + "}" + rest, [a] + args) == Err(MissingKey)
  {
    var t := " <- {" + name + "}" + rest;
    assert p0 + "{}" + " <- {" + name + "}" + rest == p0 + "{}" + t;
    FormatHole(p0, t, a, args);
    FormatLiteral(" <- ", "{" + name + "}" + rest, args);
    assert t == " <- " + ("{" + name + "}" + rest);
    var u := "{" + name + "}" + rest;
    assert u[1] == name[0] && name[0] != '{' && name[0] != '}';
    assert u[1..][|name|] == '}';
  }

  /** Filling three operands into `p0{}p1{}p2{}p3`. */
  lemma Fill3(t: string, p0: string, p1: string, p2: string, p3: string, a: seq<string>)
    requires |a| == 3
    requires Literal(p0) && Literal(p1) && Literal(p2) && Literal(p3)
    requires t == p0 + "{}" + (p1 + "{}" + (p2 + "{}" + p3))
    ensures Format(t, a) == Ok(p0 + a[0] + p1 + a[1] + p2 + a[2] + p3)
  {
    assert a == [a[0], a[1], a[2]];
    Format3(p0, p1, p2, p3, a[0], a[1], a[2]);
    assert p0 + a[0] + (p1 + a[1] + (p2 + a[2] + p3)) == p0 + a[0] + p1 + a[1] + p2 + a[2] + p3;
  }

  /** Filling two operands into `p0{}p1{}p2`. */
  lemma Fill2(t: string, p0: string, p1: string, p2: string, a: seq<string>)
    requires |a| == 2
    requires Literal(p0) && Literal(p1) && Literal(p2)
    requires t == p0 + "{}" + (p1 + "{}" + p2)
    ensures Format(t, a) == Ok(p0 + a[0] + p1 + a[1] + p2)
  {
    assert a == [a[0], a[1]];
    Format2(p0, p1, p2, a[0], a[1]);
    assert p0 + a[0] + (p1 + a[1] + p2) == p0 + a[0] + p1 + a[1] + p2;
  }

  /** Filling one operand into `p0{}p1`. */
  lemma Fill1(t: string, p0: string, p1: string, a: seq<string>)
    requires |a| == 1
    requires Literal(p0) && Literal(p1)
    requires t == p0 + "{}" + p1
    ensures Format(t, a) == Ok(p0 + a[0] + p1)
  {
    assert a == [a[0]];
    Format1(p0, p1, a[0]);
  }

  // ---------------------------------------------------------------------------------------
  // The intended register-transfer text of every instruction, written out by hand.

  /** How many operands instruction `m` binds. */
  function Arity(m: Mnemonic): nat {
    if m in ThreeArgs then 3 else if m in TwoArgs then 2 else if m in OneArgs then 1 else 0
  }

  /** The RTL description of instruction `m` applied to operands `a`, as the templates intend
      it (`SLL`/`SLLI` shift their second operand; a branch names its target; `STOP` halts). */
  function Rtl(m: Mnemonic, a: seq<string>): string
    requires |a| == Arity(m)
  {
    match m
    case ADD => a[0] + " <- " + a[1] + " + " + a[2]
    case ADDI => a[0] + " <- " + a[1] + " + " + a[2]
    case AND => a[0] + " <- " + a[1] + " AND " + a[2]
    case LW => a[0] + " <- M[" + a[1] + " + " + a[2] + "]"
    case NOT => a[0] + " <- " + a[1] + " NOT " + a[2]
    case OR => a[0] + " <- " + a[1] + " OR " + a[2]
    case SLL => a[0] + " <- " + a[1] + " << " + a[2]
    case SLLI => a[0] + " <- " + a[1] + " << " + a[2]
    case SRA => a[0] + " <- " + a[1] + " >>> " + a[2]
    case SRAI => a[0] + " <- " + a[1] + " >>> " + a[2]
    case SRL => a[0] + " <- " + a[1] + " >> " + a[2]
    case SRLI => a[0] + " <- " + a[1] + " >> " + a[2]
    case SUB => a[0] + " <- " + a[1] + " - " + a[2]
    case SW => "M[" + a[0] + " + " + a[1] + "] <- " + a[2]
    case XOR => a[0] + " <- " + a[1] + " XOR " + a[2]
    case LI => a[0] + " <- " + a[1]
    case MV => a[0] + " <- " + a[1]
    case SLT => a[0] + " - " + a[1]
    case SLTI => a[0] + " - " + a[1]
    case BRA => "goto " + a[0]
    case BRC => "if carry, goto " + a[0]
    case BRN => "if negative, goto " + a[0]
    case BRNZ => "if negative or zero, goto " + a[0]
    case BRV => "if overflow, goto " + a[0]
    case BRZ => "if zero, goto " + a[0]
    case STOP => "all done"
  }

  lemma ShapeOfADD()
    ensures Template(ADD) == "" + "{}" + (" <- " + "{}" + (" + " + "{}" + ""))
    ensures Literal("") && Literal(" <- ") && Literal(" + ") && Literal("")
  {
  }

  lemma RtlOfADD(a: seq<string>)
    requires |a| == 3
    ensures Rtl(ADD, a) == "" + a[0] + " <- " + a[1] + " + " + a[2] + ""
  {
  }

  lemma RenderADD(a: seq<string>)
    requires |a| == 3
    ensures Format(Template(ADD), a) == Ok(Rtl(ADD, a))
  {
    ShapeOfADD();
    Fill3(Template(ADD), "", " <- ", " + ", "", a);
    RtlOfADD(a);
  }

  lemma ShapeOfADDI()
    ensures Template(ADDI) == "" + "{}" + (" <- " + "{}" + (" + " + "{}" + ""))
    ensures Literal("") && Literal(" <- ") && Literal(" + ") && Literal("")
  {
  }

  lemma RtlOfADDI(a: seq<string>)
    requires |a| == 3
    ensures Rtl(ADDI, a) == "" + a[0] + " <- " + a[1] + " + " + a[2] + ""
  {
  }

  lemma RenderADDI(a: seq<string>)
    requires |a| == 3
    ensures Format(Template(ADDI), a) == Ok(Rtl(ADDI, a))
  {
    ShapeOfADDI();
    Fill3(Template(ADDI), "", " <- ", " + ", "", a);
    RtlOfADDI(a);
  }

  lemma ShapeOfAND()
    ensures Template(AND) == "" + "{}" + (" <- " + "{}" + (" AND " + "{}" + ""))
    ensures Literal("") && Literal(" <- ") && Literal(" AND ") && Literal("")
  {
  }

  lemma RtlOfAND(a: seq<string>)
    requires |a| == 3
    ensures Rtl(AND, a) == "" + a[0] + " <- " + a[1] + " AND " + a[2] + ""
  {
  }

  lemma RenderAND(a: seq<string>)
    requires |a| == 3
    ensures Format(Template(AND), a) == Ok(Rtl(AND, a))
  {
    ShapeOfAND();
    Fill3(Template(AND), "", " <- ", " AND ", "", a);
    RtlOfAND(a);
  }

  lemma ShapeOfLW()
    ensures Template(LW) == "" + "{}" + (" <- M[" + "{}" + (" + " + "{}" + "]"))
    ensures Literal("") && Literal(" <- M[") && Literal(" + ") && Literal("]")
  {
  }

  lemma RtlOfLW(a: seq<string>)
    requires |a| == 3
    ensures Rtl(LW, a) == "" + a[0] + " <- M[" + a[1] + " + " + a[2] + "]"
  {
  }

  lemma RenderLW(a: seq<string>)
    requires |a| == 3
    ensures Format(Template(LW), a) == Ok(Rtl(LW, a))
  {
    ShapeOfLW();
    Fill3(Template(LW), "", " <- M[", " + ", "]", a);
    RtlOfLW(a);
  }

  lemma ShapeOfNOT()
    ensures Template(NOT) == "" + "{}" + (" <- " + "{}" + (" NOT " + "{}" + ""))
    ensures Literal("") && Literal(" <- ") && Literal(" NOT ") && Literal("")
  {
  }

  lemma RtlOfNOT(a: seq<string>)
    requires |a| == 3
    ensures Rtl(NOT, a) == "" + a[0] + " <- " + a[1] + " NOT " + a[2] + ""
  {
  }

  lemma RenderNOT(a: seq<string>)
    requires |a| == 3
    ensures Format(Template(NOT), a) == Ok(Rtl(NOT, a))
  {
    ShapeOfNOT();
    Fill3(Template(NOT), "", " <- ", " NOT ", "", a);
    RtlOfNOT(a);
  }

  lemma ShapeOfOR()
    ensures Template(OR) == "" + "{}" + (" <- " + "{}" + (" OR " + "{}" + ""))
    ensures Literal("") && Literal(" <- ") && Literal(" OR ") && Literal("")
  {
  }

  lemma RtlOfOR(a: seq<string>)
    requires |a| == 3
    ensures Rtl(OR, a) == "" + a[0] + " <- " + a[1] + " OR " + a[2] + ""
  {
  }

  lemma RenderOR(a: seq<string>)
    requires |a| == 3
    ensures Format(Template(OR), a) == Ok(Rtl(OR, a))
  {
    ShapeOfOR();
    Fill3(Template(OR), "", " <- ", " OR ", "", a);
    RtlOfOR(a);
  }

  lemma ShapeOfSRA()
    ensures Template(SRA) == "" + "{}" + (" <- " + "{}" + (" >>> " + "{}" + ""))
    ensures Literal("") && Literal(" <- ") && Literal(" >>> ") && Literal("")
  {
  }

  lemma RtlOfSRA(a: seq<string>)
    requires |a| == 3
    ensures Rtl(SRA, a) == "" + a[0] + " <- " + a[1] + " >>> " + a[2] + ""
  {
  }

  lemma RenderSRA(a: seq<string>)
    requires |a| == 3
    ensures Format(Template(SRA), a) == Ok(Rtl(SRA, a))
  {
    ShapeOfSRA();
    Fill3(Template(SRA), "", " <- ", " >>> ", "", a);
    RtlOfSRA(a);
  }

  lemma ShapeOfSRAI()
    ensures Template(SRAI) == "" + "{}" + (" <- " + "{}" + (" >>> " + "{}" + ""))
    ensures Literal("") && Literal(" <- ") && Literal(" >>> ") && Literal("")
  {
  }

  lemma RtlOfSRAI(a: seq<string>)
    requires |a| == 3
    ensures Rtl(SRAI, a) == "" + a[0] + " <- " + a[1] + " >>> " + a[2] + ""
  {
  }

  lemma RenderSRAI(a: seq<string>)
    requires |a| == 3
    ensures Format(Template(SRAI), a) == Ok(Rtl(SRAI, a))
  {
    ShapeOfSRAI();
    Fill3(Template(SRAI), "", " <- ", " >>> ", "", a);
    RtlOfSRAI(a);
  }

  lemma ShapeOfSRL()
    ensures Template(SRL) == "" + "{}" + (" <- " + "{}" + (" >> " + "{}" + ""))
    ensures Literal("") && Literal(" <- ") && Literal(" >> ") && Literal("")
  {
  }

  lemma RtlOfSRL(a: seq<string>)
    requires |a| == 3
    ensures Rtl(SRL, a) == "" + a[0] + " <- " + a[1] + " >> " + a[2] + ""
  {
  }

  lemma RenderSRL(a: seq<string>)
    requires |a| == 3
    ensures Format(Template(SRL), a) == Ok(Rtl(SRL, a))
  {
    ShapeOfSRL();
    Fill3(Template(SRL), "", " <- ", " >> ", "", a);
    RtlOfSRL(a);
  }

  lemma ShapeOfSRLI()
    ensures Template(SRLI) == "" + "{}" + (" <- " + "{}" + (" >> " + "{}" + ""))
    ensures Literal("") && Literal(" <- ") && Literal(" >> ") && Literal("")
  {
  }

  lemma RtlOfSRLI(a: seq<string>)
    requires |a| == 3
    ensures Rtl(SRLI, a) == "" + a[0] + " <- " + a[1] + " >> " + a[2] + ""
  {
  }

  lemma RenderSRLI(a: seq<string>)
    requires |a| == 3
    ensures Format(Template(SRLI), a) == Ok(Rtl(SRLI, a))
  {
    ShapeOfSRLI();
    Fill3(Template(SRLI), "", " <- ", " >> ", "", a);
    RtlOfSRLI(a);
  }

  lemma ShapeOfSUB()
    ensures Template(SUB) == "" + "{}" + (" <- " + "{}" + (" - " + "{}" + ""))
    ensures Literal("") && Literal(" <- ") && Literal(" - ") && Literal("")
  {
  }

  lemma RtlOfSUB(a: seq<string>)
    requires |a| == 3
    ensures Rtl(SUB, a) == "" + a[0] + " <- " + a[1] + " - " + a[2] + ""
  {
  }

  lemma RenderSUB(a: seq<string>)
    requires |a| == 3
    ensures Format(Template(SUB), a) == Ok(Rtl(SUB, a))
  {
    ShapeOfSUB();
    Fill3(Template(SUB), "", " <- ", " - ", "", a);
    RtlOfSUB(a);
  }

  lemma ShapeOfSW()
    ensures Template(SW) == "M[" + "{}" + (" + " + "{}" + ("] <- " + "{}" + ""))
    ensures Literal("M[") && Literal(" + ") && Literal("] <- ") && Literal("")
  {
  }

  lemma RtlOfSW(a: seq<string>)
    requires |a| == 3
    ensures Rtl(SW, a) == "M[" + a[0] + " + " + a[1] + "] <- " + a[2] + ""
  {
  }

  lemma RenderSW(a: seq<string>)
    requires |a| == 3
    ensures Format(Template(SW), a) == Ok(Rtl(SW, a))
  {
    ShapeOfSW();
    Fill3(Template(SW), "M[", " + ", "] <- ", "", a);
    RtlOfSW(a);
  }

  lemma ShapeOfXOR()
    ensures Template(XOR) == "" + "{}" + (" <- " + "{}" + (" XOR " + "{}" + ""))
    ensures Literal("") && Literal(" <- ") && Literal(" XOR ") && Literal("")
  {
  }

  lemma RtlOfXOR(a: seq<string>)
    requires |a| == 3
    ensures Rtl(XOR, a) == "" + a[0] + " <- " + a[1] + " XOR " + a[2] + ""
  {
  }

  lemma RenderXOR(a: seq<string>)
    requires |a| == 3
    ensures Format(Template(XOR), a) == Ok(Rtl(XOR, a))
  {
    ShapeOfXOR();
    Fill3(Template(XOR), "", " <- ", " XOR ", "", a);
    RtlOfXOR(a);
  }

  lemma ShapeOfLI()
    ensures Template(LI) == "" + "{}" + (" <- " + "{}" + "")
    ensures Literal("") && Literal(" <- ") && Literal("")
  {
  }

  lemma RtlOfLI(a: seq<string>)
    requires |a| == 2
    ensures Rtl(LI, a) == "" + a[0] + " <- " + a[1] + ""
  {
  }

  lemma RenderLI(a: seq<string>)
    requires |a| == 2
    ensures Format(Template(LI), a) == Ok(Rtl(LI, a))
  {
    ShapeOfLI();
    Fill2(Template(LI), "", " <- ", "", a);
    RtlOfLI(a);
  }

  lemma ShapeOfMV()
    ensures Template(MV) == "" + "{}" + (" <- " + "{}" + "")
    ensures Literal("") && Literal(" <- ") && Literal("")
  {
  }

  lemma RtlOfMV(a: seq<string>)
    requires |a| == 2
    ensures Rtl(MV, a) == "" + a[0] + " <- " + a[1] + ""
  {
  }

  lemma RenderMV(a: seq<string>)
    requires |a| == 2
    ensures Format(Template(MV), a) == Ok(Rtl(MV, a))
  {
    ShapeOfMV();
    Fill2(Template(MV), "", " <- ", "", a);
    RtlOfMV(a);
  }

  lemma ShapeOfSLT()
    ensures Template(SLT) == "" + "{}" + (" - " + "{}" + "")
    ensures Literal("") && Literal(" - ") && Literal("")
  {
  }

  lemma RtlOfSLT(a: seq<string>)
    requires |a| == 2
    ensures Rtl(SLT, a) == "" + a[0] + " - " + a[1] + ""
  {
  }

  lemma RenderSLT(a: seq<string>)
    requires |a| == 2
    ensures Format(Template(SLT), a) == Ok(Rtl(SLT, a))
  {
    ShapeOfSLT();
    Fill2(Template(SLT), "", " - ", "", a);
    RtlOfSLT(a);
  }

  lemma ShapeOfSLTI()
    ensures Template(SLTI) == "" + "{}" + (" - " + "{}" + "")
    ensures Literal("") && Literal(" - ") && Literal("")
  {
  }

  lemma RtlOfSLTI(a: seq<string>)
    requires |a| == 2
    ensures Rtl(SLTI, a) == "" + a[0] + " - " + a[1] + ""
  {
  }

  lemma RenderSLTI(a: seq<string>)
    requires |a| == 2
    ensures Format(Template(SLTI), a) == Ok(Rtl(SLTI, a))
  {
    ShapeOfSLTI();
    Fill2(Template(SLTI), "", " - ", "", a);
    RtlOfSLTI(a);
  }

  lemma ShapeOfBRA()
    ensures Template(BRA) == "goto " + "{}" + ""
    ensures Literal("goto ") && Literal("")
  {
  }

  lemma RtlOfBRA(a: seq<string>)
    requires |a| == 1
    ensures Rtl(BRA, a) == "goto " + a[0] + ""
  {
  }

  lemma RenderBRA(a: seq<string>)
    requires |a| == 1
    ensures Format(Template(BRA), a) == Ok(Rtl(BRA, a))
  {
    ShapeOfBRA();
    Fill1(Template(BRA), "goto ", "", a);
    RtlOfBRA(a);
  }

  lemma ShapeOfBRC()
    ensures Template(BRC) == "if carry, goto " + "{}" + ""
    ensures Literal("if carry, goto ") && Literal("")
  {
  }

  lemma RtlOfBRC(a: seq<string>)
    requires |a| == 1
    ensures Rtl(BRC, a) == "if carry, goto " + a[0] + ""
  {
  }

  lemma RenderBRC(a: seq<string>)
    requires |a| == 1
    ensures Format(Template(BRC), a) == Ok(Rtl(BRC, a))
  {
    ShapeOfBRC();
    Fill1(Template(BRC), "if carry, goto ", "", a);
    RtlOfBRC(a);
  }

  lemma ShapeOfBRN()
    ensures Template(BRN) == "if negative, goto " + "{}" + ""
    ensures Literal("if negative, goto ") && Literal("")
  {
  }

  lemma RtlOfBRN(a: seq<string>)
    requires |a| == 1
    ensures Rtl(BRN, a) == "if negative, goto " + a[0] + ""
  {
  }

  lemma RenderBRN(a: seq<string>)
    requires |a| == 1
    ensures Format(Template(BRN), a) == Ok(Rtl(BRN, a))
  {
    ShapeOfBRN();
    Fill1(Template(BRN), "if negative, goto ", "", a);
    RtlOfBRN(a);
  }

  lemma ShapeOfBRNZ()
    ensures Template(BRNZ) == "if negative or zero, goto " + "{}" + ""
    ensures Literal("if negative or zero, goto ") && Literal("")
  {
  }

  lemma RtlOfBRNZ(a: seq<string>)
    requires |a| == 1
    ensures Rtl(BRNZ, a) == "if negative or zero, goto " + a[0] + ""
  {
  }

  lemma RenderBRNZ(a: seq<string>)
    requires |a| == 1
    ensures Format(Template(BRNZ), a) == Ok(Rtl(BRNZ, a))
  {
    ShapeOfBRNZ();
    Fill1(Template(BRNZ), "if negative or zero, goto ", "", a);
    RtlOfBRNZ(a);
  }

  lemma ShapeOfBRV()
    ensures Template(BRV) == "if overflow, goto " + "{}" + ""
    ensures Literal("if overflow, goto ") && Literal("")
  {
  }

  lemma RtlOfBRV(a: seq<string>)
    requires |a| == 1
    ensures Rtl(BRV, a) == "if overflow, goto " + a[0] + ""
  {
  }

  lemma RenderBRV(a: seq<string>)
    requires |a| == 1
    ensures Format(Template(BRV), a) == Ok(Rtl(BRV, a))
  {
    ShapeOfBRV();
    Fill1(Template(BRV), "if overflow, goto ", "", a);
    RtlOfBRV(a);
  }

  lemma ShapeOfBRZ()
    ensures Template(BRZ) == "if zero, goto " + "{}" + ""
    ensures Literal("if zero, goto ") && Literal("")
  {
  }

  lemma RtlOfBRZ(a: seq<string>)
    requires |a| == 1
    ensures Rtl(BRZ, a) == "if zero, goto " + a[0] + ""
  {
  }

  lemma RenderBRZ(a: seq<string>)
    requires |a| == 1
    ensures Format(Template(BRZ), a) == Ok(Rtl(BRZ, a))
  {
    ShapeOfBRZ();
    Fill1(Template(BRZ), "if zero, goto ", "", a);
    RtlOfBRZ(a);
  }

  lemma RenderSTOP(a: seq<string>)
    requires |a| == 0
    ensures Format(Template(STOP), a) == Ok(Rtl(STOP, a))
  {
    assert Template(STOP) == "all done" && Literal("all done");
    FormatPlain("all done", a);
  }

  /** The shift templates name their second field `rs1`; with positional arguments only,
      formatting them always fails with KeyError once the first operand is placed. */
  lemma NamedFieldFails(m: Mnemonic, a: seq<string>)
    requires m == SLL || m == SLLI
    requires |a| >= 1
    ensures Format(Template(m), a) == Err(MissingKey)
  {
    ShiftShape(m);
    ShiftFails(Template(m), a);
  }

  lemma ShiftFails(t: string, a: seq<string>)
    requires t == "" + "{}" + " <- {" + "rs1" + "}" + " << {}"
    requires |a| >= 1
    ensures Format(t, a) == Err(MissingKey)
  {
    assert a == [a[0]] + a[1..];
    FormatNamedField("", "rs1", " << {}", a[0], a[1..]);
  }

  lemma ShiftShape(m: Mnemonic)
    requires m == SLL || m == SLLI
    ensures Template(m) == "" + "{}" + " <- {" + "rs1" + "}" + " << {}"
  {
  }

  /** Every template but the two with a named field renders as the intended RTL text. */
  lemma TemplateRendersRtl(m: Mnemonic, a: seq<string>)
    requires m != SLL && m != SLLI && |a| == Arity(m)
    ensures Format(Template(m), a) == Ok(Rtl(m, a))
  {
    if m in {ADD, ADDI, AND, LW, NOT, OR} {
      ArithmeticRendersRtl(m, a);
    } else if m in {SRA, SRAI, SRL, SRLI, SUB, SW, XOR} {
      ShiftRendersRtl(m, a);
    } else if m in TwoArgs {
      TwoArgsRenderRtl(m, a);
    } else if m in OneArgs {
      BranchesRenderRtl(m, a);
    } else {
      RenderSTOP(a);
    }
  }

  /** The arithmetic and memory templates render as the intended RTL text. */
  lemma ArithmeticRendersRtl(m: Mnemonic, a: seq<string>)
    requires m in {ADD, ADDI, AND, LW, NOT, OR} && |a| == Arity(m)
    ensures Format(Template(m), a) == Ok(Rtl(m, a))
  {
    if m == ADD {
      RenderADD(a);
    } else if m == ADDI {
      RenderADDI(a);
    } else if m == AND {
      RenderAND(a);
    } else if m == LW {
      RenderLW(a);
    } else if m == NOT {
      RenderNOT(a);
    } else {
      RenderOR(a);
    }
  }

  /** The right shifts, `SUB`, `SW` and `XOR` render as the intended RTL text. */
  lemma ShiftRendersRtl(m: Mnemonic, a: seq<string>)
    requires m in {SRA, SRAI, SRL, SRLI, SUB, SW, XOR} && |a| == Arity(m)
    ensures Format(Template(m), a) == Ok(Rtl(m, a))
  {
    if m == SRA {
      RenderSRA(a);
    } else if m == SRAI {
      RenderSRAI(a);
    } else if m == SRL {
      RenderSRL(a);
    } else if m == SRLI {
      RenderSRLI(a);
    } else if m == SUB {
      RenderSUB(a);
    } else if m == SW {
      RenderSW(a);
    } else {
      RenderXOR(a);
    }
  }

  /** The two-operand templates render as the intended RTL text. */
  lemma TwoArgsRenderRtl(m: Mnemonic, a: seq<string>)
    requires m in TwoArgs && |a| == Arity(m)
    ensures Format(Template(m), a) == Ok(Rtl(m, a))
  {
    if m == LI {
      RenderLI(a);
    } else if m == MV {
      RenderMV(a);
    } else if m == SLT {
      RenderSLT(a);
    } else {
      RenderSLTI(a);
    }
  }

  /** The branch templates render as the intended RTL text. */
  lemma BranchesRenderRtl(m: Mnemonic, a: seq<string>)
    requires m in OneArgs && |a| == Arity(m)
    ensures Format(Template(m), a) == Ok(Rtl(m, a))
  {
    if m == BRA {
      RenderBRA(a);
    } else if m == BRC {
      RenderBRC(a);
    } else if m == BRN {
      RenderBRN(a);
    } else if m == BRNZ {
      RenderBRNZ(a);
    } else if m == BRV {
      RenderBRV(a);
    } else {
      RenderBRZ(a);
    }
  }

  // ---------------------------------------------------------------------------------------
  // The shift templates as evidently intended: a positional field where `{rs1}` stands.

  /** The table with `SLL` and `SLLI` written like the other three-operand templates. */
  function CorrectedTemplate(m: Mnemonic): string {
    if m == SLL || m == SLLI then "{} <- {} << {}" else Template(m)
  }

  /** With the corrected table, every instruction renders as its intended RTL text. */
  lemma CorrectedTemplateRendersRtl(m: Mnemonic, a: seq<string>)
    requires |a| == Arity(m)
    ensures Format(CorrectedTemplate(m), a) == Ok(Rtl(m, a))
  {
    if m == SLL || m == SLLI {
      CorrectedShiftRendersRtl(m, a);
    } else {
      TemplateRendersRtl(m, a);
    }
  }

  lemma CorrectedShiftRendersRtl(m: Mnemonic, a: seq<string>)
    requires (m == SLL || m == SLLI) && |a| == 3
    ensures Format(CorrectedTemplate(m), a) == Ok(Rtl(m, a))
  {
    ShapeOfCorrectedShift(m);
    Fill3(CorrectedTemplate(m), "", " <- ", " << ", "", a);
    RtlOfShift(m, a);
  }

  lemma ShapeOfCorrectedShift(m: Mnemonic)
    requires m == SLL || m == SLLI
    ensures CorrectedTemplate(m) == "" + "{}" + (" <- " + "{}" + (" << " + "{}" + ""))
    ensures Literal("") && Literal(" <- ") && Literal(" << ")
  {
  }

  lemma RtlOfShift(m: Mnemonic, a: seq<string>)
    requires (m == SLL || m == SLLI) && |a| == 3
    ensures Rtl(m, a) == "" + a[0] + " <- " + a[1] + " << " + a[2] + ""
  {
  }
}
