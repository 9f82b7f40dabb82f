/** Generated code is closed: no label is marked twice, and every jump goes to a label that is marked. */
module CompilerLabels {
  import opened Isa
  import opened Wrappers
  import opened Ast
  import opened Assembly
  import opened AssemblerSpec
  import opened CodeGen
  import opened CompilerStatic
  import opened CompilerStmtStatic

  // ---- Labels of lines

  function Marked(line: Line): set<Symbol> { if line.mark.Some? then {line.mark.value} else {} }

  function OperandSymbols(o: Operand): set<Symbol> { if o.Sym? then {o.name} else {} }

  function Used(b: Body): set<Symbol> {
    match b
    case InsI(_, _, _, imm) => OperandSymbols(imm)
    case InsS(_, _, off, _) => OperandSymbols(off)
    case InsB(_, _, _, target) => OperandSymbols(target)
    case InsJ(_, dest) => OperandSymbols(dest)
    case InsU(_, _, imm) => OperandSymbols(imm)
    case _ => {}
  }

  function Defs(lines: seq<Line>): set<Symbol> {
    if lines == [] then {} else Marked(lines[0]) + Defs(lines[1..])
  }

  function Uses(lines: seq<Line>): set<Symbol> {
    if lines == [] then {} else Used(lines[0].body) + Uses(lines[1..])
  }

  predicate Unique(lines: seq<Line>) {
    lines != [] ==> Marked(lines[0]) !! Defs(lines[1..]) && Unique(lines[1..])
  }

  predicate NumberedIn(labels: set<Symbol>, lo: nat, hi: nat) {
    forall l :: l in labels ==> l.Numbered? && lo <= l.number < hi
  }

  /** Code whose labels are numbered from lo to hi, each marked once, and which uses no others but those of `outer`. */
  ghost predicate Tidy(lines: seq<Line>, lo: nat, hi: nat, outer: set<Symbol>) {
    lo <= hi && IsCode(lines) && Unique(lines) && NumberedIn(Defs(lines), lo, hi) && Uses(lines) <= Defs(lines) + outer
  }

  lemma {:induction false} LabelsConcat(x: seq<Line>, y: seq<Line>)
    ensures Defs(x + y) == Defs(x) + Defs(y) && Uses(x + y) == Uses(x) + Uses(y)
    ensures Unique(x + y) <==> Unique(x) && Unique(y) && Defs(x) !! Defs(y)
  {
    if x == [] {
      assert x + y == y;
    } else {
      assert (x + y)[1..] == x[1..] + y;
      LabelsConcat(x[1..], y);
    }
  }

  lemma CodeConcat(x: seq<Line>, y: seq<Line>)
    requires IsCode(x) && IsCode(y)
    ensures IsCode(x + y)
  {
    hide Encodable;
  }

  /** Pieces with separate label numbers. */
  lemma TidyJoin(x: seq<Line>, a: nat, b: nat, y: seq<Line>, c: nat, d: nat, lo: nat, hi: nat, outer: set<Symbol>)
    requires Tidy(x, a, b, outer) && Tidy(y, c, d, outer) && (b <= c || d <= a)
    requires lo <= a && lo <= c && b <= hi && d <= hi
    ensures Tidy(x + y, lo, hi, outer)
  {
    LabelsConcat(x, y);
    CodeConcat(x, y);
    hide IsCode, Unique, Defs, Uses;
  }

  lemma TidyMore(x: seq<Line>, a: nat, b: nat, outer: set<Symbol>, lo: nat, hi: nat, more: set<Symbol>)
    requires Tidy(x, a, b, outer) && lo <= a && b <= hi && outer <= more
    ensures Tidy(x, lo, hi, more)
  {
    hide IsCode, Unique, Defs, Uses;
  }

  /** Labels that the code marks itself need not be outside. */
  lemma TidyClose(x: seq<Line>, lo: nat, hi: nat, outer: set<Symbol>, own: set<Symbol>)
    requires Tidy(x, lo, hi, outer + own) && own <= Defs(x)
    ensures Tidy(x, lo, hi, outer)
  {
    hide IsCode, Unique, Defs, Uses;
  }

  /** An instruction without a label. */
  predicate Bare(line: Line, outer: set<Symbol>) {
    line.mark.None? && IsInstruction(line.body) && IsCodeLine(line.body) && Used(line.body) <= outer
  }

  lemma {:induction false} TidyBare(lines: seq<Line>, at: nat, outer: set<Symbol>)
    requires forall i :: 0 <= i < |lines| ==> Bare(lines[i], outer)
    ensures Tidy(lines, at, at, outer) && Defs(lines) == {}
  {
    hide Encodable;
    if lines != [] {
      assert forall i :: 0 <= i < |lines[1..]| ==> lines[1..][i] == lines[i + 1];
      TidyBare(lines[1..], at, outer);
    }
  }

  lemma TidyMark(l: Symbol, lo: nat, hi: nat, outer: set<Symbol>)
    requires l.Numbered? && lo <= l.number < hi
    ensures Tidy([Mark(l)], lo, hi, outer) && Defs([Mark(l)]) == {l}
  {
    assert Defs([]) == {} && Uses([]) == {};
    assert Defs([Mark(l)]) == {l} && Uses([Mark(l)]) == {};
  }

  // ---- Expressions

  lemma LoadImmTidy(rd: Reg, v: int, at: nat)
    ensures Tidy(LoadImm(rd, v), at, at, {})
  {
    TidyBare(LoadImm(rd, v), at, {});
  }

  /** Lines of one block of plain code behind another. */
  lemma TidyThen(x: seq<Line>, lo: nat, hi: nat, y: seq<Line>, outer: set<Symbol>)
    requires Tidy(x, lo, hi, outer) && forall i :: 0 <= i < |y| ==> Bare(y[i], outer)
    ensures Tidy(x + y, lo, hi, outer) && Defs(x + y) == Defs(x)
  {
    TidyBare(y, hi, outer);
    TidyJoin(x, lo, hi, y, hi, hi, lo, hi, outer);
    LabelsConcat(x, y);
  }

  lemma MoviBare(rd: Reg, v: int, l: Symbol, outer: set<Symbol>)
    requires l in outer
    ensures Bare(Movi(rd, v), outer) && Bare(JumpTo(l), outer)
  {
  }

  lemma FlagTailTidy(rd: Reg, taken: int, lt: Symbol, le: Symbol, lo: nat)
    requires lt.Numbered? && le.Numbered? && lt.number == lo && le.number == lo + 1
    ensures var tail := [Movi(rd, 1 - taken), JumpTo(le), Mark(lt), Movi(rd, taken), Mark(le)];
            Tidy(tail, lo, lo + 2, {}) && Defs(tail) == {lt, le}
  {
    var head, mid := [Movi(rd, 1 - taken), JumpTo(le)], [Movi(rd, taken)];
    var own := {lt, le};
    MoviBare(rd, 1 - taken, le, own);
    MoviBare(rd, taken, le, own);
    hide Bare, Tidy;
    TidyBare(head, lo, own);
    TidyMark(lt, lo, lo + 1, own);
    TidyThen([Mark(lt)], lo, lo + 1, mid, own);
    TidyMark(le, lo + 1, lo + 2, own);
    TidyJoin(head, lo, lo, [Mark(lt)] + mid, lo, lo + 1, lo, lo + 1, own);
    TidyJoin(head + ([Mark(lt)] + mid), lo, lo + 1, [Mark(le)], lo + 1, lo + 2, lo, lo + 2, own);
    var tail := [Movi(rd, 1 - taken), JumpTo(le), Mark(lt), Movi(rd, taken), Mark(le)];
    assert head + ([Mark(lt)] + mid) + [Mark(le)] == tail;
    LabelsConcat(head, [Mark(lt)] + mid);
    LabelsConcat(head + ([Mark(lt)] + mid), [Mark(le)]);
    TidyClose(tail, lo, lo + 2, {}, own);
  }

  /** A test that may jump to lt, and the flag lines behind it. */
  lemma FlagTidy(rd: Reg, test: seq<Line>, taken: int, lt: Symbol, le: Symbol, lo: nat, a: nat, b: nat)
    requires lt.Numbered? && le.Numbered? && lt.number == lo && le.number == lo + 1
    requires Tidy(test, a, b, {lt}) && (lo + 2 <= a || b <= lo)
    ensures Tidy(Flag(rd, test, taken, lt, le), if lo < a then lo else a, if lo + 2 > b then lo + 2 else b, {})
  {
    var tail := [Movi(rd, 1 - taken), JumpTo(le), Mark(lt), Movi(rd, taken), Mark(le)];
    FlagTailTidy(rd, taken, lt, le, lo);
    TidyMore(tail, lo, lo + 2, {}, lo, lo + 2, {lt});
    var low, high := if lo < a then lo else a, if lo + 2 > b then lo + 2 else b;
    TidyJoin(test, a, b, tail, lo, lo + 2, low, high, {lt});
    LabelsConcat(test, tail);
    assert {} + {lt} == {lt};
    TidyClose(test + tail, low, high, {}, {lt});
  }

  lemma CompareTidy(op: BinaryOp, rd: Reg, rl: Reg, rr: Reg, cx: Cx)
    requires !IsLogical(op)
    ensures var (code, cx') := Operate(op, rd, rl, rr, cx); Tidy(code, cx.labels, cx'.labels, {})
  {
    if op.Equal? || op.NotEqual? {
      var lt, le := Numbered("CMP_T", cx.labels), Numbered("CMP_E", cx.labels + 1);
      var test := [RegOp(SUB, FLAGS_TMP, rl, rr), BranchTo(if op.Equal? then BEQ else BNE, FLAGS_TMP, lt)];
      TidyBare(test, cx.labels + 2, {lt});
      FlagTidy(rd, test, 1, lt, le, cx.labels, cx.labels + 2, cx.labels + 2);
    } else {
      TidyBare(Operate(op, rd, rl, rr, cx).0, cx.labels, {});
    }
  }

  lemma GenVarTidy(cx: Cx, name: string)
    requires GenVar(cx, name).Some?
    ensures var g := GenVar(cx, name).value; Tidy(g.code, cx.labels, g.cx.labels, {})
  {
    if name in cx.layout.globals {
      var load := LoadImm(FLAGS_TMP, cx.layout.globals[name]);
      LoadImmTidy(FLAGS_TMP, cx.layout.globals[name], cx.labels);
      TidyThen(load, cx.labels, cx.labels, [LoadWord(AllocTemp(cx).value.0, FLAGS_TMP)], {});
    } else {
      TidyBare([], cx.labels, {});
    }
  }

  lemma BinaryTidy(cx: Cx, e: Expr, dest: Option<Reg>)
    requires e.Binary? && !IsLogical(e.op) && GenBinary(cx, e, dest).Some?
    ensures var g := GenBinary(cx, e, dest).value; Tidy(g.code, cx.labels, g.cx.labels, {})
    decreases e, 0
  {
    hide GenExpr, Tidy, Operate;
    var l := GenExpr(cx, e.left).value;
    var r := GenExpr(l.cx, e.right).value;
    ExprTidy(cx, e.left);
    ExprTidy(l.cx, e.right);
    TidyOrder(l.code, cx.labels, l.cx.labels);
    TidyOrder(r.code, l.cx.labels, r.cx.labels);
    TidyJoin(l.code, cx.labels, l.cx.labels, r.code, l.cx.labels, r.cx.labels, cx.labels, r.cx.labels, {});
    var (rd, cx1) := if dest.Some? then (dest.value, r.cx) else AllocTemp(r.cx).value;
    var (code, cx2) := Operate(e.op, rd, l.reg, r.reg, cx1);
    CompareTidy(e.op, rd, l.reg, r.reg, cx1);
    TidyOrder(code, cx1.labels, cx2.labels);
    TidyJoin(l.code + r.code, cx.labels, cx1.labels, code, cx1.labels, cx2.labels, cx.labels, cx2.labels, {});
  }

  lemma TidyOrder(x: seq<Line>, lo: nat, hi: nat)
    requires Tidy(x, lo, hi, {})
    ensures lo <= hi
  {
  }

  lemma ElementTidy(cx: Cx, name: string, index: Expr)
    requires GenElementAddr(cx, name, index).Some?
    ensures var g := GenElementAddr(cx, name, index).value; Tidy(g.code, cx.labels, g.cx.labels, {})
    decreases index, 2
  {
    hide GenExpr, LoadImm, FreeReg, Tidy;
    var base := cx.layout.arrays[name].0;
    var (ra, cx1) := AllocTemp(cx).value;
    if index.IntLiteral? {
      LoadImmTidy(ra, base + index.value, cx.labels);
    } else {
      var (rb, cx2) := AllocTemp(cx1).value;
      ExprTidy(cx2, index);
      OffsetTidy(GenExpr(cx2, index).value, ra, rb, base, cx.labels);
    }
  }

  lemma OffsetTidy(i: Gen, ra: Reg, rb: Reg, base: int, lo: nat)
    requires Tidy(i.code, lo, i.cx.labels, {})
    ensures Tidy(i.code + LoadImm(rb, base) + [RegOp(ADD, ra, rb, i.reg)], lo, i.cx.labels, {})
  {
    LoadImmTidy(rb, base, i.cx.labels);
    hide LoadImm;
    TidyJoin(i.code, lo, i.cx.labels, LoadImm(rb, base), i.cx.labels, i.cx.labels, lo, i.cx.labels, {});
    TidyThen(i.code + LoadImm(rb, base), lo, i.cx.labels, [RegOp(ADD, ra, rb, i.reg)], {});
  }

  lemma SlotTidy(cx: Cx, name: string, index: Expr)
    requires GenSlot(cx, name, index).Some?
    ensures var g := GenSlot(cx, name, index).value; Tidy(g.code, cx.labels, g.cx.labels, {})
    decreases index, 3
  {
    hide GenExpr, GenVar, GenElementAddr;
    if name in cx.layout.arrays {
      ElementTidy(cx, name, index);
    } else {
      var p := GenVar(cx, name).value;
      var i := GenExpr(p.cx, index).value;
      GenVarTidy(cx, name);
      ExprTidy(p.cx, index);
      TidyJoin(p.code, cx.labels, p.cx.labels, i.code, p.cx.labels, i.cx.labels, cx.labels, i.cx.labels, {});
      TidyThen(p.code + i.code, cx.labels, i.cx.labels, [RegOp(ADD, AllocTemp(i.cx).value.0, p.reg, i.reg)], {});
    }
  }

  /** Code and a conditional branch behind it. */
  lemma ThenBranch(x: seq<Line>, lo: nat, hi: nat, op: Opcode, r: Reg, l: Symbol)
    requires (Tidy(x, lo, hi, {}) || Tidy(x, lo, hi, {l})) && (op == BEQ || op == BNE)
    ensures Tidy(x + [BranchTo(op, r, l)], lo, hi, {l})
  {
    TidyMore(x, lo, hi, if Tidy(x, lo, hi, {}) then {} else {l}, lo, hi, {l});
    TidyThen(x, lo, hi, [BranchTo(op, r, l)], {l});
  }

  lemma LogicalTidy(cx: Cx, e: Expr)
    requires e.Binary? && IsLogical(e.op) && GenLogical(cx, e).Some?
    ensures var g := GenLogical(cx, e).value; Tidy(g.code, cx.labels, g.cx.labels, {})
    decreases e, 0
  {
    hide GenExpr, Tidy, Flag;
    var conj := e.op.LogicalAnd?;
    var (ls, cx1) := NewLabel(cx, if conj then "AND_FALSE" else "OR_TRUE");
    var (le, cx2) := NewLabel(cx1, if conj then "AND_END" else "OR_END");
    var (rd, cx3) := AllocTemp(cx2).value;
    var skip := if conj then BEQ else BNE;
    var l := GenExpr(cx3, e.left).value;
    var r := GenExpr(l.cx, e.right).value;
    ExprTidy(cx3, e.left);
    ExprTidy(l.cx, e.right);
    var a, m, b := cx3.labels, l.cx.labels, r.cx.labels;
    TidyOrder(l.code, a, m);
    TidyOrder(r.code, m, b);
    ThenBranch(l.code, a, m, skip, l.reg, ls);
    TidyMore(r.code, m, b, {}, m, b, {ls});
    TidyJoin(l.code + [BranchTo(skip, l.reg, ls)], a, m, r.code, m, b, a, b, {ls});
    ThenBranch(l.code + [BranchTo(skip, l.reg, ls)] + r.code, a, b, skip, r.reg, ls);
    var test := l.code + [BranchTo(skip, l.reg, ls)] + r.code + [BranchTo(skip, r.reg, ls)];
    FlagTidy(rd, test, if conj then 0 else 1, ls, le, cx.labels, a, b);
  }

  lemma UnaryTidy(cx: Cx, op: UnaryOp, operand: Expr)
    requires GenUnary(cx, op, operand).Some?
    ensures var g := GenUnary(cx, op, operand).value; Tidy(g.code, cx.labels, g.cx.labels, {})
    decreases operand, 2
  {
    hide GenExpr, Tidy, Flag;
    var e := GenExpr(cx, operand).value;
    ExprTidy(cx, operand);
    var (rd, cx1) := AllocTemp(e.cx).value;
    var lo, hi := cx.labels, e.cx.labels;
    TidyOrder(e.code, lo, hi);
    match op
    case Negate => TidyThen(e.code, lo, hi, [RegOp(NEG, rd, e.reg, 0)], {});
    case Complement => TidyThen(e.code, lo, hi, [RegOp(NOT, rd, e.reg, 0)], {});
    case LogicalNot =>
      var lt, le := Numbered("NOT_ONE", hi), Numbered("NOT_END", hi + 1);
      ThenBranch(e.code, lo, hi, BEQ, e.reg, lt);
      FlagTidy(rd, e.code + [BranchTo(BEQ, e.reg, lt)], 1, lt, le, hi, lo, hi);
  }

  /** Expression code marks each of its labels once and jumps nowhere else. */
  lemma {:induction false} ExprTidy(cx: Cx, e: Expr)
    requires GenExpr(cx, e).Some?
    ensures var g := GenExpr(cx, e).value; Tidy(g.code, cx.labels, g.cx.labels, {})
    decreases e, 1
  {
    hide GenBinary, GenLogical, GenUnary, GenSlot, GenElementAddr, GenVar, LoadImm, Tidy;
    match e
    case IntLiteral(v) => LoadImmTidy(AllocTemp(cx).value.0, v, cx.labels);
    case VarRef(n) => GenVarTidy(cx, n);
    case ArrayRef(n, index) =>
      var a := GenSlot(cx, n, index).value;
      SlotTidy(cx, n, index);
      TidyThen(a.code, cx.labels, a.cx.labels, [LoadWord(AllocTemp(a.cx).value.0, a.reg)], {});
    case AddrOf(n) => LoadImmTidy(AllocTemp(cx).value.0, cx.layout.globals[n], cx.labels);
    case AddrOfElement(n, index) => ElementTidy(cx, n, index);
    case Deref(ptr) =>
      var p := GenExpr(cx, ptr).value;
      ExprTidy(cx, ptr);
      TidyThen(p.code, cx.labels, p.cx.labels, [LoadWord(AllocTemp(p.cx).value.0, p.reg)], {});
    case Binary(op, _, _) => if IsLogical(op) { LogicalTidy(cx, e); } else { BinaryTidy(cx, e, None); }
    case Unary(op, operand) => UnaryTidy(cx, op, operand);
  }

  // ---- Statements

  /** The labels that break and continue may name. */
  function LoopLabels(cx: Cx): set<Symbol> {
    if cx.loops == [] then {} else {cx.loops[|cx.loops| - 1].0, cx.loops[|cx.loops| - 1].1}
  }

  ghost predicate TidyOut(cx: Cx, o: Out, outer: set<Symbol>) { Tidy(o.code, cx.labels, o.cx.labels, outer) }

  lemma StoreBare(op: BinaryOp, rc: Reg, ra: Reg, v: Reg)
    requires IsArithmetic(op)
    ensures Bare(LoadWord(rc, ra), {}) && Bare(RegOp(ArithmeticOpcode(op), rc, rc, v), {})
            && Bare(StoreWord(rc, ra), {})
  {
  }

  lemma PlainStoreBare(v: Reg, ra: Reg)
    ensures Bare(StoreWord(v, ra), {})
  {
  }

  lemma StoreTidy(cx: Cx, ra: Reg, aop: AssignOp, value: Expr)
    requires GenStore(cx, ra, aop, value).Some?
    ensures TidyOut(cx, GenStore(cx, ra, aop, value).value, {})
  {
    hide GenExpr, Bare, Tidy;
    var v := GenExpr(cx, value).value;
    ExprTidy(cx, value);
    if aop.Set? {
      PlainStoreBare(v.reg, ra);
      TidyThen(v.code, cx.labels, v.cx.labels, [StoreWord(v.reg, ra)], {});
    } else {
      var rc := AllocTemp(v.cx).value.0;
      StoreBare(aop.op, rc, ra, v.reg);
      TidyThen(v.code, cx.labels, v.cx.labels,
               [LoadWord(rc, ra), RegOp(ArithmeticOpcode(aop.op), rc, rc, v.reg), StoreWord(rc, ra)], {});
    }
  }

  lemma GlobalTidy(cx: Cx, name: string, aop: AssignOp, value: Expr)
    requires name in cx.layout.globals && GenAssign(cx, name, aop, value).Some?
    ensures TidyOut(cx, GenAssign(cx, name, aop, value).value, {})
  {
    hide GenExpr, LoadImm, Bare, Tidy;
    var load := LoadImm(FLAGS_TMP, cx.layout.globals[name]);
    var v := GenExpr(cx, value).value;
    LoadImmTidy(FLAGS_TMP, cx.layout.globals[name], cx.labels);
    ExprTidy(cx, value);
    TidyOrder(v.code, cx.labels, v.cx.labels);
    TidyJoin(load, cx.labels, cx.labels, v.code, cx.labels, v.cx.labels, cx.labels, v.cx.labels, {});
    if aop.Set? {
      PlainStoreBare(v.reg, FLAGS_TMP);
      TidyThen(load + v.code, cx.labels, v.cx.labels, [StoreWord(v.reg, FLAGS_TMP)], {});
    } else {
      var rc := AllocTemp(v.cx).value.0;
      StoreBare(aop.op, rc, FLAGS_TMP, v.reg);
      TidyThen(load + v.code, cx.labels, v.cx.labels,
               [LoadWord(rc, FLAGS_TMP), RegOp(ArithmeticOpcode(aop.op), rc, rc, v.reg), StoreWord(rc, FLAGS_TMP)], {});
    }
  }

  lemma AssignTidy(cx: Cx, name: string, aop: AssignOp, value: Expr)
    requires GenAssign(cx, name, aop, value).Some?
    ensures TidyOut(cx, GenAssign(cx, name, aop, value).value, {})
  {
    hide GenExpr, GenBinary, LoadImm, Tidy;
    if name in cx.layout.globals {
      GlobalTidy(cx, name, aop, value);
    } else {
      var (reg, cx1) := AllocVar(cx, name).value;
      if aop.Set? && value.Binary? && !IsLogical(value.op) {
        BinaryTidy(cx1, value, Some(reg));
      } else {
        var v := GenExpr(cx1, value).value;
        ExprTidy(cx1, value);
        if aop.Set? {
          TidyThen(v.code, cx.labels, v.cx.labels, if v.reg != reg then [RegOp(MOV, reg, v.reg, 0)] else [], {});
        } else {
          TidyThen(v.code, cx.labels, v.cx.labels, [RegOp(ArithmeticOpcode(aop.op), reg, reg, v.reg)], {});
        }
      }
    }
  }

  lemma {:induction false} InitsTidy(cx: Cx, base: int, inits: seq<Expr>, i: nat)
    requires i <= |inits| && GenInits(cx, base, inits, i).Some?
    ensures TidyOut(cx, GenInits(cx, base, inits, i).value, {})
    decreases |inits| - i
  {
    hide GenExpr, LoadImm, Tidy;
    if i == |inits| {
      TidyBare([], cx.labels, {});
    } else {
      var v := GenExpr(cx, inits[i]).value;
      var rest := GenInits(v.cx, base, inits, i + 1).value;
      var load := LoadImm(FLAGS_TMP, base + i);
      var lo, mid, hi := cx.labels, v.cx.labels, rest.cx.labels;
      ExprTidy(cx, inits[i]);
      LoadImmTidy(FLAGS_TMP, base + i, mid);
      InitsTidy(v.cx, base, inits, i + 1);
      TidyOrder(v.code, lo, mid);
      TidyOrder(rest.code, mid, hi);
      TidyJoin(v.code, lo, mid, load, mid, mid, lo, mid, {});
      TidyThen(v.code + load, lo, mid, [StoreWord(v.reg, FLAGS_TMP)], {});
      TidyJoin(v.code + load + [StoreWord(v.reg, FLAGS_TMP)], lo, mid, rest.code, mid, hi, lo, hi, {});
    }
  }

  lemma ReturnTidy(cx: Cx, result: Option<Expr>)
    requires GenReturn(cx, result).Some?
    ensures TidyOut(cx, GenReturn(cx, result).value, {})
  {
    hide GenExpr;
    if result.None? {
      TidyBare([Ending(cx)], cx.labels, {});
    } else {
      var v := GenExpr(cx, result.value).value;
      var move := if v.reg != 1 then [RegOp(MOV, 1, v.reg, 0)] else [];
      ExprTidy(cx, result.value);
      TidyThen(v.code, cx.labels, v.cx.labels, move, {});
      TidyThen(v.code + move, cx.labels, v.cx.labels, [Ending(cx)], {});
    }
  }

  lemma TestTidy(cx: Cx, cond: Option<Expr>, le: Symbol)
    requires GenTest(cx, cond, le).Some?
    ensures TidyOut(cx, GenTest(cx, cond, le).value, {le})
  {
    hide GenExpr;
    if cond.None? {
      TidyBare([], cx.labels, {le});
    } else {
      var c := GenExpr(cx, cond.value).value;
      ExprTidy(cx, cond.value);
      ThenBranch(c.code, cx.labels, c.cx.labels, BEQ, c.reg, le);
    }
  }

  lemma JumpTidy(l: Symbol, at: nat, outer: set<Symbol>)
    requires l in outer
    ensures Tidy([JumpTo(l)], at, at, outer)
  {
    TidyBare([JumpTo(l)], at, outer);
  }

  lemma TidyLe(x: seq<Line>, lo: nat, hi: nat, outer: set<Symbol>)
    requires Tidy(x, lo, hi, outer)
    ensures lo <= hi
  {
  }

  /** Code of a construct that has its own labels, numbered below `floor`, around pieces numbered from lo to hi. */
  ghost predicate Around(x: seq<Line>, floor: nat, lo: nat, hi: nat, own: set<Symbol>, outer: set<Symbol>) {
    && floor <= lo <= hi && IsCode(x) && Unique(x) && own <= Defs(x) && NumberedIn(Defs(x) - own, lo, hi)
    && Uses(x) <= Defs(x) + outer && NumberedIn(own, 0, floor)
  }

  lemma PieceAround(x: seq<Line>, floor: nat, lo: nat, hi: nat, some: set<Symbol>, outer: set<Symbol>)
    requires Tidy(x, lo, hi, some) && floor <= lo && some <= outer
    ensures Around(x, floor, lo, hi, {}, outer)
  {
    hide IsCode, Unique, Defs, Uses;
  }

  lemma MarkAround(l: Symbol, floor: nat, at: nat, outer: set<Symbol>)
    requires l.Numbered? && l.number < floor <= at
    ensures Around([Mark(l)], floor, at, at, {l}, outer)
  {
    TidyMark(l, l.number, l.number + 1, outer);
  }

  lemma BareAround(lines: seq<Line>, floor: nat, at: nat, outer: set<Symbol>)
    requires floor <= at && forall i :: 0 <= i < |lines| ==> Bare(lines[i], outer)
    ensures Around(lines, floor, at, at, {}, outer)
  {
    TidyBare(lines, at, outer);
    PieceAround(lines, floor, at, at, outer, outer);
  }

  lemma JoinAround(x: seq<Line>, floor: nat, lo: nat, mid: nat, own: set<Symbol>, y: seq<Line>, hi: nat,
      more: set<Symbol>, outer: set<Symbol>)
    requires Around(x, floor, lo, mid, own, outer) && Around(y, floor, mid, hi, more, outer) && own !! more
    ensures Around(x + y, floor, lo, hi, own + more, outer)
  {
    LabelsConcat(x, y);
    CodeConcat(x, y);
    hide IsCode, Unique, Defs, Uses;
    assert Defs(x) !! Defs(y) by {
      forall l | l in Defs(x) ensures l !in Defs(y) {
        assert l in own || l in Defs(x) - own;
        assert l in Defs(y) ==> l in more || l in Defs(y) - more;
      }
    }
  }

  lemma AroundTidy(x: seq<Line>, floor: nat, lo: nat, hi: nat, own: set<Symbol>, outer: set<Symbol>, from: nat)
    requires Around(x, floor, lo, hi, own, outer + own) && NumberedIn(own, from, floor) && from <= floor
    ensures Tidy(x, from, hi, outer)
  {
    hide IsCode, Unique, Defs, Uses;
    forall l | l in Defs(x) ensures l.Numbered? && from <= l.number < hi {
      if l in own { assert from <= l.number < floor; } else { assert l in Defs(x) - own; }
    }
  }

  lemma IfTidy(cx: Cx, cond: Expr, thenBody: seq<Stmt>, elseBody: seq<Stmt>)
    requires Sound(cx) && GenIf(cx, cond, thenBody, elseBody).Some?
    ensures TidyOut(cx, GenIf(cx, cond, thenBody, elseBody).value, LoopLabels(cx))
    decreases If(cond, thenBody, elseBody), 0
  {
    hide GenTest, GenSeq, Extends, Tidy;
    var (le, cx1) := NewLabel(cx, "ELSE");
    var (ln, cx2) := NewLabel(cx1, "ENDIF");
    SoundSame(cx, cx2);
    assert GenBranches(cx2, cond, thenBody, elseBody, le, ln).Some?;
    var c := GenTest(cx2, Some(cond), le).value;
    TestFacts(cx2, Some(cond), le);
    ExtendsGrown(cx2, c.cx);
    TestTidy(cx2, Some(cond), le);
    var p := GenSeq(c.cx, thenBody).value;
    SeqFacts(c.cx, thenBody);
    SeqTidy(c.cx, thenBody);
    var q := GenSeq(p.cx, elseBody).value;
    SeqTidy(p.cx, elseBody);
    var skip := if elseBody != [] then [JumpTo(ln)] else [];
    BranchesTidy(cx.labels, c.code, c.cx.labels, p.code, p.cx.labels, skip, le, q.code, q.cx.labels, ln,
        LoopLabels(cx));
  }

  lemma BranchesTidy(lo: nat, c: seq<Line>, m1: nat, x: seq<Line>, m2: nat, skip: seq<Line>, le: Symbol, y: seq<Line>,
      hi: nat, ln: Symbol,
                     outer: set<Symbol>)
    requires Tidy(c, lo + 2, m1, {le}) && Tidy(x, m1, m2, outer) && Tidy(y, m2, hi, outer)
    requires le == Numbered("ELSE", lo) && ln == Numbered("ENDIF", lo + 1) && (skip == [] || skip == [JumpTo(ln)])
    ensures Tidy(c + x + skip + [Mark(le)] + y + [Mark(ln)], lo, hi, outer)
  {
    hide Tidy, Around, Bare, IsCode, Unique, Defs, Uses;
    var base := lo + 2;
    var own := {le, ln};
    var more := outer + own;
    TidyLe(c, base, m1, {le});
    TidyLe(x, m1, m2, outer);
    TidyLe(y, m2, hi, outer);
    PieceAround(c, base, base, m1, {le}, more);
    PieceAround(x, base, m1, m2, outer, more);
    if skip == [] { BareAround(skip, base, m2, more); } else { JumpAround(ln, base, m2, more); }
    MarkAround(le, base, m2, more);
    PieceAround(y, base, m2, hi, outer, more);
    MarkAround(ln, base, hi, more);
    BranchPieces(base, c, m1, x, m2, skip, le, y, hi, ln, more);
    AroundTidy(c + x + skip + [Mark(le)] + y + [Mark(ln)], base, base, hi, own, outer, lo);
  }

  lemma BranchPieces(base: nat, c: seq<Line>, m1: nat, x: seq<Line>, m2: nat, skip: seq<Line>, le: Symbol,
      y: seq<Line>, hi: nat, ln: Symbol,
                     more: set<Symbol>)
    requires Around(c, base, base, m1, {}, more) && Around(x, base, m1, m2, {}, more)
             && Around(skip, base, m2, m2, {}, more)
    requires Around([Mark(le)], base, m2, m2, {le}, more) && Around(y, base, m2, hi, {}, more)
    requires Around([Mark(ln)], base, hi, hi, {ln}, more) && le != ln
    ensures Around(c + x + skip + [Mark(le)] + y + [Mark(ln)], base, base, hi, {le, ln}, more)
  {
    hide Around;
    var none: set<Symbol> := {};
    assert none + none == none && none + {le} == {le} && {le} + none == {le} && {le} + {ln} == {le, ln};
    JoinAround(c, base, base, m1, {}, x, m2, {}, more);
    JoinAround(c + x, base, base, m2, {}, skip, m2, {}, more);
    JoinAround(c + x + skip, base, base, m2, {}, [Mark(le)], m2, {le}, more);
    JoinAround(c + x + skip + [Mark(le)], base, base, m2, {le}, y, hi, {}, more);
    JoinAround(c + x + skip + [Mark(le)] + y, base, base, hi, {le}, [Mark(ln)], hi, {ln}, more);
  }

  lemma WhileTidy(cx: Cx, cond: Expr, body: seq<Stmt>)
    requires Sound(cx) && GenWhile(cx, cond, body).Some?
    ensures TidyOut(cx, GenWhile(cx, cond, body).value, LoopLabels(cx))
    decreases While(cond, body), 0
  {
    hide GenTest, GenSeq, Extends, Tidy;
    var (lt, cx1) := NewLabel(cx, "WHILE_TEST");
    var (le, cx2) := NewLabel(cx1, "WHILE_END");
    var cx3 := cx2.(loops := cx.loops + [(lt, le)]);
    SoundSame(cx, cx3);
    assert GenWhileLoop(cx3, cond, body, lt, le).Some?;
    var c := GenTest(cx3, Some(cond), le).value;
    TestFacts(cx3, Some(cond), le);
    ExtendsGrown(cx3, c.cx);
    TestTidy(cx3, Some(cond), le);
    var b := GenSeq(c.cx, body).value;
    SeqTidy(c.cx, body);
    assert LoopLabels(c.cx) == {lt, le};
    var base, own := cx.labels + 2, {lt, lt, le};
    LoopAround(base, base, lt, lt, le, c.code, c.cx.labels, b.code, b.cx.labels, [], [], b.cx.labels, LoopLabels(cx));
    var code := [Mark(lt)] + c.code + b.code + [JumpTo(lt), Mark(le)];
    assert [Mark(lt)] + c.code + b.code + [] + [] + [JumpTo(lt), Mark(le)] == code;
    AroundTidy(code, base, base, b.cx.labels, own, LoopLabels(cx), cx.labels);
  }

  /** A loop: its own labels are the test, the end and, for a for loop, the update (lu). */
  lemma LoopAround(floor: nat, base: nat, lt: Symbol, lu: Symbol, le: Symbol, c: seq<Line>, m1: nat, b: seq<Line>,
      m2: nat,
                   mid: seq<Line>, u: seq<Line>, hi: nat, outer: set<Symbol>)
    requires floor <= base && Tidy(c, base, m1, {le}) && Tidy(b, m1, m2, {lu, le})
             && (Tidy(u, m2, hi, {lu, le}) || (u == [] && hi == m2))
    requires NumberedIn({lt, lu, le}, 0, floor) && lt != le && lu != le
    requires (mid == [] && lu == lt) || (mid == [Mark(lu)] && lu != lt)
    ensures Around([Mark(lt)] + c + b + mid + u + [JumpTo(lt), Mark(le)], floor, base, hi, {lt, lu, le},
            outer + {lt, lu, le})
  {
    hide Tidy, Around, Bare, IsCode, Unique, Defs, Uses;
    assert NumberedIn({lt, lu, le}, 0, floor);
    assert lt.Numbered? && lt.number < floor && lu.Numbered? && lu.number < floor && le.Numbered? && le.number < floor;
    var own := {lt, lu, le};
    var more := outer + own;
    var middle := if mid == [] then {} else {lu};
    TidyLe(c, base, m1, {le});
    TidyLe(b, m1, m2, {lu, le});
    if Tidy(u, m2, hi, {lu, le}) {
      TidyLe(u, m2, hi, {lu, le});
      PieceAround(u, floor, m2, hi, {lu, le}, more);
    } else {
      BareAround(u, floor, m2, more);
    }
    MarkAround(lt, floor, base, more);
    PieceAround(c, floor, base, m1, {le}, more);
    PieceAround(b, floor, m1, m2, {lu, le}, more);
    if mid == [] { BareAround(mid, floor, m2, more); } else { MarkAround(lu, floor, m2, more); }
    JumpAround(lt, floor, hi, more);
    MarkAround(le, floor, hi, more);
    LoopPieces(floor, base, lt, lu, le, c, m1, b, m2, mid, middle, u, hi, more);
  }

  lemma JumpAround(l: Symbol, floor: nat, at: nat, outer: set<Symbol>)
    requires l in outer && floor <= at
    ensures Around([JumpTo(l)], floor, at, at, {}, outer)
  {
    BareAround([JumpTo(l)], floor, at, outer);
  }

  lemma LoopPieces(floor: nat, base: nat, lt: Symbol, lu: Symbol, le: Symbol, c: seq<Line>, m1: nat, b: seq<Line>,
      m2: nat,
                   mid: seq<Line>, middle: set<Symbol>, u: seq<Line>, hi: nat, more: set<Symbol>)
    requires Around([Mark(lt)], floor, base, base, {lt}, more) && Around(c, floor, base, m1, {}, more)
             && Around(b, floor, m1, m2, {}, more)
    requires Around(mid, floor, m2, m2, middle, more) && Around(u, floor, m2, hi, {}, more)
    requires Around([JumpTo(lt)], floor, hi, hi, {}, more) && Around([Mark(le)], floor, hi, hi, {le}, more)
    requires lt != le && lu != le && middle == (if lu == lt then {} else {lu})
    ensures Around([Mark(lt)] + c + b + mid + u + [JumpTo(lt), Mark(le)], floor, base, hi, {lt, lu, le}, more)
  {
    hide Around;
    var x1 := [Mark(lt)] + c;
    JoinAround([Mark(lt)], floor, base, base, {lt}, c, m1, {}, more);
    assert {lt} + {} == {lt};
    JoinAround(x1, floor, base, m1, {lt}, b, m2, {}, more);
    JoinAround(x1 + b, floor, base, m2, {lt}, mid, m2, middle, more);
    assert {lt} + middle == {lt, lu};
    JoinAround(x1 + b + mid, floor, base, m2, {lt, lu}, u, hi, {}, more);
    assert {lt, lu} + {} == {lt, lu};
    var x2 := x1 + b + mid + u;
    JoinAround(x2, floor, base, hi, {lt, lu}, [JumpTo(lt)], hi, {}, more);
    JoinAround(x2 + [JumpTo(lt)], floor, base, hi, {lt, lu}, [Mark(le)], hi, {le}, more);
    assert {lt, lu} + {le} == {lt, lu, le};
    assert x2 + [JumpTo(lt)] + [Mark(le)] == x2 + [JumpTo(lt), Mark(le)];
  }

  lemma ForTidy(cx: Cx, x: Stmt)
    requires Sound(cx) && x.For? && GenFor(cx, x).Some?
    ensures TidyOut(cx, GenFor(cx, x).value, LoopLabels(cx))
    decreases x, 0
  {
    hide GenTest, GenSeq, GenStmt, Extends, Tidy, Sound;
    var lt, lu, le := Numbered("FOR_TEST", cx.labels), Numbered("FOR_UPD", cx.labels + 1),
        Numbered("FOR_END", cx.labels + 2);
    var base := cx.labels + 3;
    var cx3 := cx.(labels := base);
    SoundSame(cx, cx3);
    var i := GenOptional(cx3, x.forInit).value;
    OptionalTidy(cx3, x.forInit);
    var cx4 := i.cx.(loops := cx.loops + [(lu, le)]);
    SoundSame(i.cx, cx4);
    var l := GenForLoop(cx4, x, lt, lu, le).value;
    var c := GenTest(cx4, x.forCond, le).value;
    TestFacts(cx4, x.forCond, le);
    ExtendsGrown(cx4, c.cx);
    TestTidy(cx4, x.forCond, le);
    var b := GenSeq(c.cx, x.body).value;
    SeqFacts(c.cx, x.body);
    SeqTidy(c.cx, x.body);
    var u := GenOptional(b.cx, x.update).value;
    OptionalTidy(b.cx, x.update);
    var outer, own := LoopLabels(cx), {lt, lu, le};
    TidyLe(i.code, base, i.cx.labels, LoopLabels(cx3));
    LoopAround(base, i.cx.labels, lt, lu, le, c.code, c.cx.labels, b.code, b.cx.labels, [Mark(lu)], u.code,
        u.cx.labels, outer);
    PieceAround(i.code, base, base, i.cx.labels, outer, outer + own);
    JoinAround(i.code, base, base, i.cx.labels, {}, l.code, u.cx.labels, own, outer + own);
    assert {} + own == own;
    AroundTidy(i.code + l.code, base, base, u.cx.labels, own, outer, cx.labels);
  }

  lemma OptionalTidy(cx: Cx, x: Option<Stmt>)
    requires Sound(cx) && GenOptional(cx, x).Some?
    ensures TidyOut(cx, GenOptional(cx, x).value, LoopLabels(cx)) && Grown(cx, GenOptional(cx, x).value.cx)
    decreases x, 1
  {
    if x.None? {
      TidyBare([], cx.labels, LoopLabels(cx));
    } else {
      StmtTidy(cx, x.value);
      StmtFacts(cx, x.value);
    }
  }

  /** Statement code marks each of its labels once, and jumps only to them and to the labels of the loop around it. */
  lemma {:induction false} StmtTidy(cx: Cx, st: Stmt)
    requires Sound(cx) && GenStmt(cx, st).Some?
    ensures TidyOut(cx, GenStmt(cx, st).value, LoopLabels(cx))
    decreases st, 2
  {
    hide GenExpr, GenSlot, GenAssign, GenStore, GenInits, GenReturn, GenIf, GenWhile, GenFor, GenSeq, FreeTemps,
      AllocVar, Tidy;
    var outer := LoopLabels(cx);
    match st
    case VarDecl(name, init) => DeclTidy(cx, name, init);
    case ArrayDecl(name, size, inits) =>
      var cx1 := cx.(layout := Declare(cx.layout, name, size));
      InitsTidy(cx1, cx.layout.next, inits, 0);
      OutTidy(cx, GenInits(cx1, cx.layout.next, inits, 0).value, outer);
    case Assign(name, aop, value) =>
      AssignTidy(cx, name, aop, value);
      OutTidy(cx, GenAssign(cx, name, aop, value).value, outer);
    case ArrayAssign(name, index, aop, value) =>
      var a := GenSlot(cx, name, index).value;
      SlotTidy(cx, name, index);
      StoreTidy(a.cx, a.reg, aop, value);
      ThenTidy(cx, a, GenStore(a.cx, a.reg, aop, value).value, outer);
    case DerefAssign(ptr, aop, value) =>
      var p := GenExpr(cx, ptr).value;
      ExprTidy(cx, ptr);
      StoreTidy(p.cx, p.reg, aop, value);
      ThenTidy(cx, p, GenStore(p.cx, p.reg, aop, value).value, outer);
    case If(cond, thenBody, elseBody) => IfTidy(cx, cond, thenBody, elseBody);
    case While(cond, body) => WhileTidy(cx, cond, body);
    case For(_, _, _, _) => ForTidy(cx, st);
    case Return(result) =>
      ReturnTidy(cx, result);
      OutTidy(cx, GenReturn(cx, result).value, outer);
    case Break => JumpTidy(cx.loops[|cx.loops| - 1].1, cx.labels, outer);
    case Continue => JumpTidy(cx.loops[|cx.loops| - 1].0, cx.labels, outer);
    case ExprStmt(e) =>
      ExprTidy(cx, e);
      var v := GenExpr(cx, e).value;
      OutTidy(cx, Out(v.code, v.cx), outer);
    case Block(stmts) => SeqTidy(cx, stmts);
  }

  lemma OutTidy(cx: Cx, o: Out, outer: set<Symbol>)
    requires TidyOut(cx, o, {})
    ensures Tidy(o.code, cx.labels, FreeTemps(o.cx).labels, outer)
  {
    TidyMore(o.code, cx.labels, o.cx.labels, {}, cx.labels, o.cx.labels, outer);
  }

  lemma ThenTidy(cx: Cx, g: Gen, o: Out, outer: set<Symbol>)
    requires Tidy(g.code, cx.labels, g.cx.labels, {}) && TidyOut(g.cx, o, {})
    ensures Tidy(g.code + o.code, cx.labels, FreeTemps(o.cx).labels, outer)
  {
    TidyJoin(g.code, cx.labels, g.cx.labels, o.code, g.cx.labels, o.cx.labels, cx.labels, o.cx.labels, {});
    TidyMore(g.code + o.code, cx.labels, o.cx.labels, {}, cx.labels, o.cx.labels, outer);
  }

  lemma DeclTidy(cx: Cx, name: string, init: Option<Expr>)
    requires GenStmt(cx, VarDecl(name, init)).Some?
    ensures TidyOut(cx, GenStmt(cx, VarDecl(name, init)).value, LoopLabels(cx))
  {
    hide GenExpr;
    var (reg, cx1) := AllocVar(cx, name).value;
    if init.None? {
      TidyBare([], cx.labels, LoopLabels(cx));
    } else {
      var v := GenExpr(cx1, init.value).value;
      ExprTidy(cx1, init.value);
      TidyThen(v.code, cx.labels, v.cx.labels, if v.reg != reg then [RegOp(MOV, reg, v.reg, 0)] else [], {});
      OutTidy(cx, Out(v.code + if v.reg != reg then [RegOp(MOV, reg, v.reg, 0)] else [], v.cx), LoopLabels(cx));
    }
  }

  lemma {:induction false} SeqTidy(cx: Cx, stmts: seq<Stmt>)
    requires Sound(cx) && GenSeq(cx, stmts).Some?
    ensures TidyOut(cx, GenSeq(cx, stmts).value, LoopLabels(cx))
    decreases stmts, 0
  {
    hide GenStmt, Tidy;
    if stmts == [] {
      TidyBare([], cx.labels, LoopLabels(cx));
    } else {
      var first := GenStmt(cx, stmts[0]).value;
      StmtFacts(cx, stmts[0]);
      StmtTidy(cx, stmts[0]);
      var rest := GenSeq(first.cx, stmts[1..]).value;
      SeqTidy(first.cx, stmts[1..]);
      TidyLe(first.code, cx.labels, first.cx.labels, LoopLabels(cx));
      TidyLe(rest.code, first.cx.labels, rest.cx.labels, LoopLabels(cx));
      TidyJoin(first.code, cx.labels, first.cx.labels, rest.code, first.cx.labels, rest.cx.labels, cx.labels,
          rest.cx.labels, LoopLabels(cx));
    }
  }
}
