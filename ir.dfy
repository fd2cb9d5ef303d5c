/**
 * The flat intermediate representation produced by lowering (src/fates.py, the IR
 * dataclasses and `ir_pretty`), together with facts about its block brackets.
 */
module Ir {

  /** `IRLiteral`: an integer with its type tag. */
  datatype Literal = Literal(value: int, typ: string)

  /** `IROperand`: a literal or a reference to a local. */
  datatype Operand =
    | LitOperand(lit: Literal)
    | VarRef(name: string, typ: string)
  {
    /** The type tag the operand carries. */
    function Typ(): string
    {
      match this
      case LitOperand(l) => l.typ
      case VarRef(_, t) => t
    }
  }

  /** The instruction vocabulary. */
  datatype Instr =
    | OwLiteral(target: string, lit: Literal)
    | MvVar(target: string, source: string, typ: string)
    | Assign(target: string, operand: Operand)
    | Return(operand: Operand)
    | Drop(target: string)
    | BlockStart
    | BlockEnd

  datatype IRFunction = IRFunction(name: string, returnType: string, locals: seq<string>, instrs: seq<Instr>)

  datatype IRProgram = IRProgram(functions: seq<IRFunction>)

  /** One `Drop` per name, in the given order. */
  function DropsOf(names: seq<string>): (r: seq<Instr>)
    ensures |r| == |names|
    ensures forall k :: 0 <= k < |names| ==> r[k] == Drop(names[k])
  {
    if names == [] then [] else [Drop(names[0])] + DropsOf(names[1..])
  }

  /** Extending the names by one appends one Drop. */
  lemma DropsOfSnoc(names: seq<string>, k: nat)
    requires k < |names|
    ensures DropsOf(names[..k + 1]) == DropsOf(names[..k]) + [Drop(names[k])]
  {
  }

  // ---------------------------------------------------------------------------
  // Rendering (ir_pretty)
  // ---------------------------------------------------------------------------

  function DigitChar(d: nat): char
    requires d < 10
  {
    "0123456789"[d]
  }

  /** The value of a string of decimal digits. */
  function DecimalValue(s: string): nat
    requires forall k :: 0 <= k < |s| ==> '0' <= s[k] <= '9'
  {
    if s == [] then 0
    else DecimalValue(s[..|s| - 1]) * 10 + (s[|s| - 1] as int - '0' as int)
  }

  /** Decimal rendering of a natural number, as Python's `str` gives it. */
  function NatToString(n: nat): (r: string)
    ensures |r| >= 1
    ensures forall k :: 0 <= k < |r| ==> '0' <= r[k] <= '9'
    ensures DecimalValue(r) == n
  {
    if n < 10 then [DigitChar(n)]
    else
      var prefix := NatToString(n / 10);
      var r := prefix + [DigitChar(n % 10)];
      assert r[..|r| - 1] == prefix;
      r
  }

  /** Decimal rendering of an integer: a minus sign for negative values, then the digits. */
  function IntToString(v: int): (r: string)
    ensures |r| >= 1
    ensures '\n' !in r
    ensures r[0] == '-' <==> v < 0
  {
    if v < 0 then "-" + NatToString(-v) else NatToString(v)
  }

  /** No name or type tag of the instruction contains a line break. */
  predicate Printable(i: Instr)
  {
    match i
    case OwLiteral(t, l) => '\n' !in t && '\n' !in l.typ
    case MvVar(t, s, ty) => '\n' !in t && '\n' !in s && '\n' !in ty
    case Assign(t, op) => '\n' !in t && '\n' !in op.Typ() && (op.VarRef? ==> '\n' !in op.name)
    case Return(op) => op.VarRef? ==> '\n' !in op.name
    case Drop(t) => '\n' !in t
    case BlockStart => true
    case BlockEnd => true
  }

  /** The text line of one instruction (one branch of the loop in `ir_pretty`). */
  function Render(i: Instr): (r: string)
    ensures r == "{" <==> i.BlockStart?
    ensures r == "}" <==> i.BlockEnd?
    ensures Printable(i) ==> '\n' !in r
  {
    match i
    case OwLiteral(t, l) => t + " = ow_literal(" + IntToString(l.value) + ":" + l.typ + ")"
    case MvVar(t, s, ty) => t + " = mv_var(" + s + ":" + ty + ")"
    case Assign(t, op) =>
      (match op
       case LitOperand(l) => t + " = " + IntToString(l.value) + " /*" + l.typ + "*/"
       case VarRef(n, ty) => t + " = " + n + " /*" + ty + "*/")
    case Return(op) =>
      (match op
       case LitOperand(l) => "return " + IntToString(l.value) + ";"
       case VarRef(n, _) => "return " + n + ";")
    case Drop(t) => "drop " + t
    case BlockStart => "{"
    case BlockEnd => "}"
  }

  /** The rendered line of each instruction, in order (the list `ir_pretty` builds). */
  function Lines(instrs: seq<Instr>): seq<string>
  {
    seq(|instrs|, k requires 0 <= k < |instrs| => Render(instrs[k]))
  }

  /** Python's `"\n".join(lines)`. */
  function Join(lines: seq<string>): string
  {
    if |lines| == 0 then ""
    else if |lines| == 1 then lines[0]
    else lines[0] + "\n" + Join(lines[1..])
  }

  /** `ir_pretty`. */
  function Pretty(instrs: seq<Instr>): string
  {
    Join(Lines(instrs))
  }

  /** Python's `str.split("\n")`. */
  function SplitLines(s: string): (r: seq<string>)
    ensures |r| >= 1
  {
    if |s| == 0 then [""]
    else
      var rest := SplitLines(s[1..]);
      if s[0] == '\n' then [""] + rest else [[s[0]] + rest[0]] + rest[1..]
  }

  lemma {:induction false} SplitWithoutBreak(a: string)
    requires '\n' !in a
    ensures SplitLines(a) == [a]
  {
    if |a| > 0 {
      SplitWithoutBreak(a[1..]);
      assert [a[0]] + a[1..] == a;
    }
  }

  lemma {:induction false} SplitAtFirstBreak(a: string, b: string)
    requires '\n' !in a
    ensures SplitLines(a + "\n" + b) == [a] + SplitLines(b)
  {
    var s := a + "\n" + b;
    if |a| == 0 {
      assert s[1..] == b;
    } else {
      assert s[1..] == a[1..] + "\n" + b;
      SplitAtFirstBreak(a[1..], b);
      assert [a[0]] + a[1..] == a;
    }
  }

  /** Splitting joined lines at the line breaks gives the lines back, if none holds a break. */
  lemma {:induction false} SplitJoin(lines: seq<string>)
    requires |lines| > 0
    requires forall k :: 0 <= k < |lines| ==> '\n' !in lines[k]
    ensures SplitLines(Join(lines)) == lines
  {
    if |lines| == 1 {
      SplitWithoutBreak(lines[0]);
    } else {
      SplitJoin(lines[1..]);
      SplitAtFirstBreak(lines[0], Join(lines[1..]));
      assert [lines[0]] + lines[1..] == lines;
    }
  }

  /**
   * Splitting the rendered text at line breaks gives back one line per instruction,
   * in order; in particular line k is "{" exactly when instruction k is a BlockStart,
   * "}" exactly when it is a BlockEnd.
   */
  lemma PrettyLines(instrs: seq<Instr>)
    requires |instrs| > 0
    requires forall k :: 0 <= k < |instrs| ==> Printable(instrs[k])
    ensures |SplitLines(Pretty(instrs))| == |instrs|
    ensures forall k :: 0 <= k < |instrs| ==> SplitLines(Pretty(instrs))[k] == Render(instrs[k])
    ensures forall k :: 0 <= k < |instrs| ==>
      (SplitLines(Pretty(instrs))[k] == "{" <==> instrs[k] == BlockStart) &&
      (SplitLines(Pretty(instrs))[k] == "}" <==> instrs[k] == BlockEnd)
  {
    var lines := Lines(instrs);
    forall k | 0 <= k < |lines|
      ensures '\n' !in lines[k]
    {
      assert Printable(instrs[k]);
    }
    SplitJoin(lines);
  }

  // ---------------------------------------------------------------------------
  // Block brackets: running nesting depth along an instruction sequence
  // ---------------------------------------------------------------------------

  /** How an instruction changes the nesting depth. */
  function Delta(i: Instr): int
  {
    if i.BlockStart? then 1 else if i.BlockEnd? then -1 else 0
  }

  /** Depth change over the whole sequence: opened minus closed brackets. */
  function Net(s: seq<Instr>): int
  {
    if s == [] then 0 else Delta(s[0]) + Net(s[1..])
  }

  /** The lowest depth reached by any prefix (never above 0: the empty prefix). */
  function Floor(s: seq<Instr>): (r: int)
    ensures r <= 0
  {
    if s == [] then 0 else Min(0, Delta(s[0]) + Floor(s[1..]))
  }

  /** The highest depth reached by any prefix. */
  function Peak(s: seq<Instr>): (r: int)
    ensures r >= 0
  {
    if s == [] then 0 else Max(0, Delta(s[0]) + Peak(s[1..]))
  }

  function Min(a: int, b: int): int { if a <= b then a else b }
  function Max(a: int, b: int): int { if a >= b then a else b }

  /** Every bracket that opens is closed later, and none closes before it opens. */
  predicate Balanced(s: seq<Instr>)
  {
    Net(s) == 0 && Floor(s) == 0
  }

  /** The targets of the Drops met while the running depth, starting at `d`, is 0. */
  function DropsAt(s: seq<Instr>, d: int): seq<string>
  {
    if s == [] then []
    else if s[0].Drop? && d == 0 then [s[0].target] + DropsAt(s[1..], d + Delta(s[0]))
    else DropsAt(s[1..], d + Delta(s[0]))
  }

  lemma {:induction false} NetConcat(a: seq<Instr>, b: seq<Instr>)
    ensures Net(a + b) == Net(a) + Net(b)
  {
    if a != [] {
      assert (a + b)[1..] == a[1..] + b;
      NetConcat(a[1..], b);
    } else {
      assert a + b == b;
    }
  }

  lemma {:induction false} FloorConcat(a: seq<Instr>, b: seq<Instr>)
    ensures Floor(a + b) == Min(Floor(a), Net(a) + Floor(b))
  {
    if a != [] {
      assert (a + b)[1..] == a[1..] + b;
      FloorConcat(a[1..], b);
    } else {
      assert a + b == b;
    }
  }

  lemma {:induction false} PeakConcat(a: seq<Instr>, b: seq<Instr>)
    ensures Peak(a + b) == Max(Peak(a), Net(a) + Peak(b))
  {
    if a != [] {
      assert (a + b)[1..] == a[1..] + b;
      PeakConcat(a[1..], b);
    } else {
      assert a + b == b;
    }
  }

  lemma {:induction false} DropsAtConcat(a: seq<Instr>, b: seq<Instr>, d: int)
    ensures DropsAt(a + b, d) == DropsAt(a, d) + DropsAt(b, d + Net(a))
  {
    if a != [] {
      var d1 := d + Delta(a[0]);
      DropsAtConcat(a[1..], b, d1);
      assert (a + b)[0] == a[0] && (a + b)[1..] == a[1..] + b;
      assert Net(a) == Delta(a[0]) + Net(a[1..]);
      if a[0].Drop? && d == 0 {
        var t := [a[0].target];
        assert t + (DropsAt(a[1..], d1) + DropsAt(b, d1 + Net(a[1..]))) == (t + DropsAt(a[1..], d1)) + DropsAt(b, d1 + Net(a[1..]));
      }
    } else {
      assert a + b == b;
    }
  }

  /** Drops met while the running depth stays above 0 are not collected. */
  lemma {:induction false} DropsAtAbove(s: seq<Instr>, d: int)
    requires d + Floor(s) >= 1
    ensures DropsAt(s, d) == []
  {
    if s != [] {
      DropsAtAbove(s[1..], d + Delta(s[0]));
    }
  }

  /** A sequence of Drops changes no depth and, met at depth 0, drops exactly its names in order. */
  lemma {:induction false} DropsOfShape(names: seq<string>, d: int)
    ensures Net(DropsOf(names)) == 0 && Floor(DropsOf(names)) == 0 && Peak(DropsOf(names)) == 0
    ensures DropsAt(DropsOf(names), d) == if d == 0 then names else []
  {
    if names != [] {
      assert DropsOf(names)[1..] == DropsOf(names[1..]);
      DropsOfShape(names[1..], d);
    }
  }
}
