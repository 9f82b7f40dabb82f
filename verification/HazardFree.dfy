/** Source programs whose code keeps clear of the pipeline's gaps: no memory read stands directly where its value is
    tested or stored. */
module HazardFree {
  import opened Words
  import opened Isa
  import opened Memory
  import opened Wrappers
  import opened Ast
  import opened Assembly
  import opened CodeGen
  import opened CompilerStatic
  import opened CompilerStmtStatic
  import opened Semantics
  import opened GlobalData
  import opened Definedness
  import opened AssemblerSpec
  import opened Programs
  import opened Pipeline
  import opened Sequential
  import opened EndToEnd

  // ---- The programs

  /** The value is a word that the code loads last: a global, an element, or what a pointer points to. */
  predicate IsRead(gs: set<string>, e: Expr) { (e.VarRef? && e.name in gs) || e.ArrayRef? || e.Deref? }

  /** No operand of &&, || or ! is a mere memory read. */
  predicate CalmExpr(gs: set<string>, e: Expr)
    decreases e
  {
    match e
    case Binary(op, x, y) =>
      CalmExpr(gs, x) && CalmExpr(gs, y) && (IsLogical(op) ==> !IsRead(gs, x) && !IsRead(gs, y))
    case Unary(op, x) => CalmExpr(gs, x) && (op.LogicalNot? ==> !IsRead(gs, x))
    case ArrayRef(_, index) => CalmExpr(gs, index)
    case AddrOfElement(_, index) => CalmExpr(gs, index)
    case Deref(ptr) => CalmExpr(gs, ptr)
    case _ => true
  }

  predicate CalmOption(gs: set<string>, e: Option<Expr>) { e.Some? ==> CalmExpr(gs, e.value) }

  /** A value that is stored or tested, or an expression on its own: not a mere memory read. */
  predicate CalmValue(gs: set<string>, e: Expr) { CalmExpr(gs, e) && !IsRead(gs, e) }

  predicate IsLocal(gs: set<string>, e: Expr) { e.VarRef? && e.name !in gs }

  /** Conditions, values that are stored with `=` and expressions on their own are calm values, and no statement
      begins with its store, as `*p = x` with two local variables does. */
  predicate CalmStmt(gs: set<string>, s: Stmt)
    decreases s, 0
  {
    match s
    case VarDecl(_, init) => CalmOption(gs, init)
    case ArrayDecl(_, _, inits) => forall k :: 0 <= k < |inits| ==> CalmExpr(gs, inits[k])
    case Assign(name, aop, value) => CalmExpr(gs, value) && (name in gs && aop.Set? ==> !IsRead(gs, value))
    case ArrayAssign(_, index, aop, value) =>
      CalmExpr(gs, index) && CalmExpr(gs, value) && (aop.Set? ==> !IsRead(gs, value))
    case DerefAssign(ptr, aop, value) =>
      && CalmExpr(gs, ptr) && CalmExpr(gs, value)
      && (aop.Set? ==> !IsRead(gs, value) && !(IsLocal(gs, ptr) && IsLocal(gs, value)))
    case If(cond, thenBody, elseBody) => CalmValue(gs, cond) && CalmSeq(gs, thenBody) && CalmSeq(gs, elseBody)
    case While(cond, body) => CalmValue(gs, cond) && CalmSeq(gs, body)
    case For(init, cond, update, body) =>
      && (init.Some? ==> CalmStmt(gs, init.value)) && (cond.Some? ==> CalmValue(gs, cond.value))
      && (update.Some? ==> CalmStmt(gs, update.value)) && CalmSeq(gs, body)
    case Return(result) => CalmOption(gs, result)
    case ExprStmt(e) => CalmValue(gs, e)
    case Block(stmts) => CalmSeq(gs, stmts)
    case _ => true
  }

  predicate CalmSeq(gs: set<string>, stmts: seq<Stmt>)
    decreases stmts, 0
  {
    stmts == [] || (CalmStmt(gs, stmts[0]) && CalmSeq(gs, stmts[1..]))
  }

  // ---- Instruction sequences

  /** The instructions among the lines. */
  function Instrs(lines: seq<Line>): seq<Body> {
    if lines == [] then []
    else if IsInstruction(lines[0].body) then [lines[0].body] + Instrs(lines[1..])
    else Instrs(lines[1..])
  }

  lemma {:induction false} InstrsConcat(x: seq<Line>, y: seq<Line>)
    ensures Instrs(x + y) == Instrs(x) + Instrs(y)
    decreases x
  {
    if x == [] {
      assert x + y == y;
    } else {
      assert (x + y)[1..] == x[1..] + y;
      InstrsConcat(x[1..], y);
    }
  }

  lemma InstrsOne(l: Line)
    ensures Instrs([l]) == if IsInstruction(l.body) then [l.body] else []
    ensures Instrs([]) == []
  {
    assert [l][1..] == [];
  }

  predicate IsHalt(b: Body) { b.InsJ? && b.op == HLT }

  predicate IsLoadWord(b: Body) { b.InsI? && b.op == LW }

  /** The instructions that the compiler emits for these programs. */
  predicate Emitted(b: Body) {
    match b
    case InsR(op, _, _, _, _) => IsRegisterAlu(op) && !IsShiftImmediate(op)
    case InsI(op, _, _, _) => IsImmediateAlu(op) || op == LW
    case InsS(op, _, _, _) => op == SW
    case InsB(op, _, rs2, _) => IsBranch(op) && rs2 == 0
    case InsJ(op, _) => op == JMP || op == HLT
    case InsU(op, _, _) => op == MOVHI
    case _ => false
  }

  /** A load is not followed by a branch on its register or a store of it, and HLT not by a store. */
  predicate Pair(b: Body, next: Body) {
    && (IsLoadWord(b) ==> !(next.InsB? && next.rs1 == b.rd) && !(next.InsS? && next.rs2 == b.rd))
    && (IsHalt(b) ==> !next.InsS?)
  }

  ghost predicate Chained(bs: seq<Body>) {
    && (forall i :: 0 <= i < |bs| ==> Emitted(bs[i]))
    && forall i :: 0 < i < |bs| ==> Pair(bs[i - 1], bs[i])
  }

  predicate EndsInLoad(bs: seq<Body>) { bs != [] && IsLoadWord(bs[|bs| - 1]) }

  lemma ChainedJoin(x: seq<Body>, y: seq<Body>)
    requires Chained(x) && Chained(y) && (x != [] && y != [] ==> Pair(x[|x| - 1], y[0]))
    ensures Chained(x + y)
  {
    hide Emitted, Pair;
    forall i | 0 < i < |x + y| ensures Pair((x + y)[i - 1], (x + y)[i]) {
      if i < |x| { assert (x + y)[i] == x[i]; } else if i > |x| { assert (x + y)[i - 1] == y[i - |x| - 1]; }
    }
  }

  // ---- Code of expressions

  predicate Computes(b: Body) { Emitted(b) && !b.InsS? && !IsHalt(b) }

  /** Expression code: a branch at its beginning tests a variable, and a load at its end is to a register that is not a
      variable's. */
  ghost predicate Code(bs: seq<Body>, cx: Cx) {
    && Chained(bs) && (forall i :: 0 <= i < |bs| ==> Computes(bs[i]))
    && (bs != [] && bs[0].InsB? ==> bs[0].rs1 in cx.vars.Values)
    && (EndsInLoad(bs) ==> bs[|bs| - 1].rd < cx.nextReg && bs[|bs| - 1].rd !in cx.vars.Values)
  }

  lemma CodeExtends(bs: seq<Body>, cx: Cx, cx': Cx)
    requires Code(bs, cx) && Extends(cx, cx')
    ensures Code(bs, cx')
  {
    hide Chained, Emitted, Pair, Sound;
    forall x | x in cx.vars ensures cx.vars[x] in cx'.vars.Values { assert cx'.vars[x] == cx.vars[x]; }
  }

  lemma CodeJoin(x: seq<Body>, y: seq<Body>, cx: Cx)
    requires Code(x, cx) && Code(y, cx)
    ensures Code(x + y, cx)
  {
    if x != [] && y != [] { assert Computes(x[|x| - 1]) && Computes(y[0]); }
    ChainedJoin(x, y);
    hide Chained, Emitted, Pair;
  }

  /** Instructions that neither read memory nor begin with a branch. */
  ghost predicate Plain(bs: seq<Body>) {
    (forall i :: 0 <= i < |bs| ==> Computes(bs[i]) && !IsLoadWord(bs[i])) && (bs != [] ==> !bs[0].InsB?)
  }

  lemma PlainCode(bs: seq<Body>, cx: Cx)
    requires Plain(bs)
    ensures Code(bs, cx) && !EndsInLoad(bs)
  {
    hide Emitted;
    forall i | 0 < i < |bs| ensures Pair(bs[i - 1], bs[i]) { assert Computes(bs[i - 1]); }
  }

  /** Plain instructions behind any expression code. */
  lemma CodeThenPlain(x: seq<Body>, y: seq<Body>, cx: Cx)
    requires Code(x, cx) && Plain(y)
    ensures Code(x + y, cx) && (y != [] ==> !EndsInLoad(x + y))
  {
    PlainCode(y, cx);
    CodeJoin(x, y, cx);
    hide Code, Plain, Emitted;
    if y != [] { assert (x + y)[|x + y| - 1] == y[|y| - 1]; }
  }

  /** A test of the value that x has computed. */
  lemma CodeThenBranch(x: seq<Body>, b: Body, cx: Cx)
    requires Code(x, cx) && !EndsInLoad(x) && Emitted(b) && b.InsB? && (x == [] ==> b.rs1 in cx.vars.Values)
    ensures Code(x + [b], cx) && !EndsInLoad(x + [b])
  {
    if x != [] { assert Computes(x[|x| - 1]); }
    assert Chained([b]);
    ChainedJoin(x, [b]);
    hide Chained, Emitted, Pair;
  }

  /** A load into a fresh register. */
  lemma CodeThenLoad(x: seq<Body>, b: Body, cx: Cx)
    requires Code(x, cx) && IsLoadWord(b) && b.rd < cx.nextReg && b.rd !in cx.vars.Values
    ensures Code(x + [b], cx)
  {
    assert Chained([b]);
    assert Code([b], cx);
    CodeJoin(x, [b], cx);
  }

  // ---- What the generator emits for an expression

  lemma InstrsTwo(a: Line, b: Line)
    requires IsInstruction(a.body) && IsInstruction(b.body)
    ensures Instrs([a, b]) == [a.body, b.body]
  {
    assert [a, b] == [a] + [b];
    InstrsConcat([a], [b]);
    InstrsOne(a);
    InstrsOne(b);
  }

  lemma ImmediateCode(rd: Reg, value: int)
    ensures Plain(Instrs(LoadImm(rd, value))) && Instrs(LoadImm(rd, value)) != []
  {
    if -0x8000 <= value <= 0x7FFF {
      InstrsOne(Movi(rd, value));
    } else {
      var high := Ins(InsU(MOVHI, rd, Num(value / 0x800 % 0x20_0000)));
      var low := Ins(InsI(ORI, rd, rd, Num(value % 0x1_0000)));
      InstrsOne(high);
      InstrsTwo(high, low);
      assert [high] + [low] == [high, low] && [high] + [] == [high];
    }
  }

  /** The end of code for a truth value. */
  lemma FlagCode(rd: Reg, test: seq<Line>, taken: int, lt: Symbol, le: Symbol)
    ensures var tail := [Movi(rd, 1 - taken).body, JumpTo(le).body, Movi(rd, taken).body];
            Instrs(Flag(rd, test, taken, lt, le)) == Instrs(test) + tail && Plain(tail)
  {
    var a, b := [Movi(rd, 1 - taken), JumpTo(le)], [Mark(lt), Movi(rd, taken), Mark(le)];
    assert Flag(rd, test, taken, lt, le) == test + (a + b);
    assert Plain([Movi(rd, 1 - taken).body, JumpTo(le).body, Movi(rd, taken).body]);
    hide Instrs, Flag, Plain;
    InstrsTwo(Movi(rd, 1 - taken), JumpTo(le));
    MarkedMove(rd, taken, lt, le);
    InstrsConcat(a, b);
    InstrsConcat(test, a + b);
  }

  lemma MarkedMove(rd: Reg, value: int, lt: Symbol, le: Symbol)
    ensures Instrs([Mark(lt), Movi(rd, value), Mark(le)]) == [Movi(rd, value).body]
  {
    hide Instrs;
    assert [Mark(lt), Movi(rd, value), Mark(le)] == [Mark(lt)] + ([Movi(rd, value)] + [Mark(le)]);
    InstrsConcat([Movi(rd, value)], [Mark(le)]);
    InstrsConcat([Mark(lt)], [Movi(rd, value)] + [Mark(le)]);
    InstrsOne(Mark(lt));
    InstrsOne(Mark(le));
    InstrsOne(Movi(rd, value));
  }

  lemma EqualityCode(op: BinaryOp, rd: Reg, rl: Reg, rr: Reg, cx: Cx)
    requires op.Equal? || op.NotEqual?
    ensures Plain(Instrs(Compare(op, rd, rl, rr, cx).0)) && Instrs(Compare(op, rd, rl, rr, cx).0) != []
  {
    var lt, le := Numbered("CMP_T", cx.labels), Numbered("CMP_E", cx.labels + 1);
    var sub, branch := RegOp(SUB, FLAGS_TMP, rl, rr), BranchTo(if op.Equal? then BEQ else BNE, FLAGS_TMP, lt);
    assert Compare(op, rd, rl, rr, cx).0 == Flag(rd, [sub, branch], 1, lt, le);
    InstrsTwo(sub, branch);
    FlagCode(rd, [sub, branch], 1, lt, le);
    assert Computes(sub.body) && Computes(branch.body);
    hide Flag, Emitted, Compare;
  }

  lemma OperateCode(op: BinaryOp, rd: Reg, rl: Reg, rr: Reg, cx: Cx)
    requires !IsLogical(op)
    ensures Plain(Instrs(Operate(op, rd, rl, rr, cx).0)) && Instrs(Operate(op, rd, rl, rr, cx).0) != []
  {
    hide Instrs, Flag;
    if IsArithmetic(op) {
      InstrsOne(RegOp(ArithmeticOpcode(op), rd, rl, rr));
    } else if op.Equal? || op.NotEqual? {
      EqualityCode(op, rd, rl, rr, cx);
    } else {
      var flip := Ins(InsI(XORI, rd, rd, Num(1)));
      InstrsOne(RegOp(SLT, rd, rl, rr));
      InstrsOne(RegOp(SLT, rd, rr, rl));
      InstrsTwo(RegOp(SLT, rd, rl, rr), flip);
      InstrsTwo(RegOp(SLT, rd, rr, rl), flip);
    }
  }

  /** A temporary register is no variable's. */
  lemma TempIsFresh(cx: Cx)
    requires Sound(cx) && AllocTemp(cx).Some?
    ensures var (r, cx1) := AllocTemp(cx).value;
            Extends(cx, cx1) && r < cx1.nextReg && r !in cx1.vars.Values && r !in cx.vars.Values
  {
    TempFacts(cx);
  }

  ghost predicate Yields(gs: set<string>, e: Expr, g: Gen) {
    var bs := Instrs(g.code);
    && Code(bs, g.cx) && (!IsRead(gs, e) ==> !EndsInLoad(bs)) && (IsRead(gs, e) ==> g.reg !in g.cx.vars.Values)
    && (bs == [] ==> IsLocal(gs, e) && g.reg in g.cx.vars.Values)
  }

  lemma NameYields(cx: Cx, gs: set<string>, name: string)
    requires Sound(cx) && gs == cx.layout.globals.Keys && GenVar(cx, name).Some?
    ensures Yields(gs, VarRef(name), GenVar(cx, name).value)
  {
    var g := GenVar(cx, name).value;
    if name in cx.layout.globals {
      TempIsFresh(cx);
      var load := LoadImm(FLAGS_TMP, cx.layout.globals[name]);
      ImmediateCode(FLAGS_TMP, cx.layout.globals[name]);
      InstrsConcat(load, [LoadWord(g.reg, FLAGS_TMP)]);
      InstrsOne(LoadWord(g.reg, FLAGS_TMP));
      PlainCode(Instrs(load), g.cx);
      CodeThenLoad(Instrs(load), LoadWord(g.reg, FLAGS_TMP).body, g.cx);
    } else {
      VarFacts(cx, name);
      assert Instrs([]) == [];
      PlainCode([], g.cx);
      assert g.reg == g.cx.vars[name];
    }
  }

  lemma LiteralYields(cx: Cx, gs: set<string>, e: Expr, value: int)
    requires Sound(cx) && AllocTemp(cx).Some? && !IsRead(gs, e)
    ensures var (r, cx1) := AllocTemp(cx).value; Yields(gs, e, Gen(LoadImm(r, value), r, cx1))
  {
    var (r, cx1) := AllocTemp(cx).value;
    ImmediateCode(r, value);
    PlainCode(Instrs(LoadImm(r, value)), cx1);
    hide LoadImm, Code, Plain, FreeReg;
  }

  /** Code for two operands, one behind the other, and plain instructions behind them. */
  lemma OperandsThen(gs: set<string>, l: Gen, e: Expr, r: Gen, op: seq<Line>)
    requires Yields(gs, e, r) && Code(Instrs(l.code), l.cx) && Extends(l.cx, r.cx)
    requires Plain(Instrs(op)) && Instrs(op) != []
    ensures Code(Instrs(l.code + r.code + op), r.cx) && !EndsInLoad(Instrs(l.code + r.code + op))
    ensures Instrs(l.code + r.code + op) != []
  {
    hide Code, Plain, Extends, IsRead, IsLocal;
    InstrsConcat(l.code, r.code);
    InstrsConcat(l.code + r.code, op);
    CodeExtends(Instrs(l.code), l.cx, r.cx);
    CodeJoin(Instrs(l.code), Instrs(r.code), r.cx);
    CodeThenPlain(Instrs(l.code) + Instrs(r.code), Instrs(op), r.cx);
  }

  /** Contexts that differ in their labels only. */
  lemma CodeSame(bs: seq<Body>, cx: Cx, cx': Cx)
    requires Code(bs, cx) && cx'.vars == cx.vars && cx'.nextReg >= cx.nextReg
    ensures Code(bs, cx')
  {
    hide Chained, Emitted;
  }

  lemma BinaryYields(cx: Cx, gs: set<string>, e: Expr, dest: Option<Reg>)
    requires Sound(cx) && gs == cx.layout.globals.Keys && e.Binary? && !IsLogical(e.op) && CalmExpr(gs, e)
    requires GenBinary(cx, e, dest).Some? && (dest.Some? ==> dest.value in cx.vars.Values)
    ensures Yields(gs, e, GenBinary(cx, e, dest).value) && Instrs(GenBinary(cx, e, dest).value.code) != []
    decreases e, 0
  {
    hide Sound, Code, Extends, Plain, Instrs, FreeReg, Operate;
    ExprFacts(cx, e.left);
    ExprYields(cx, gs, e.left);
    var l := GenExpr(cx, e.left).value;
    SoundAfter(cx, l.cx);
    SameLayout(cx, l.cx);
    ExprFacts(l.cx, e.right);
    ExprYields(l.cx, gs, e.right);
    var r := GenExpr(l.cx, e.right).value;
    SoundAfter(l.cx, r.cx);
    if dest.None? {
      TempIsFresh(r.cx);
      SameVars(r.cx);
    }
    var (rd, cx1) := if dest.Some? then (dest.value, r.cx) else AllocTemp(r.cx).value;
    OperateCode(e.op, rd, l.reg, r.reg, cx1);
    OperateFacts(e.op, rd, l.reg, r.reg, cx1);
    OperandsThen(gs, l, e.right, r, Operate(e.op, rd, l.reg, r.reg, cx1).0);
    CodeSame(Instrs(GenBinary(cx, e, dest).value.code), r.cx, GenBinary(cx, e, dest).value.cx);
  }

  /** Code of an address in a register of its own. */
  ghost predicate YieldsAddress(g: Gen) {
    Code(Instrs(g.code), g.cx) && !EndsInLoad(Instrs(g.code)) && Instrs(g.code) != []
  }

  lemma ElementYields(cx: Cx, gs: set<string>, name: string, index: Expr)
    requires Sound(cx) && gs == cx.layout.globals.Keys && CalmExpr(gs, index) && GenElementAddr(cx, name, index).Some?
    ensures YieldsAddress(GenElementAddr(cx, name, index).value)
    decreases index, 2
  {
    var base := cx.layout.arrays[name].0;
    TempFacts(cx);
    var (ra, cx1) := AllocTemp(cx).value;
    if index.IntLiteral? {
      ImmediateCode(ra, base + index.value);
      PlainCode(Instrs(LoadImm(ra, base + index.value)), cx1);
    } else {
      TempFacts(cx1);
      var (rb, cx2) := AllocTemp(cx1).value;
      ExprYields(cx2, gs, index);
      var i := GenExpr(cx2, index).value;
      hide Code, GenExpr, LoadImm, Extends, Sound, CalmExpr, Emitted;
      var load, add := LoadImm(rb, base), [RegOp(ADD, ra, rb, i.reg)];
      ImmediateCode(rb, base);
      InstrsOne(RegOp(ADD, ra, rb, i.reg));
      InstrsConcat(i.code, load);
      InstrsConcat(i.code + load, add);
      CodeThenPlain(Instrs(i.code), Instrs(load), i.cx);
      AddIsPlain(ra, rb, i.reg);
      CodeThenPlain(Instrs(i.code) + Instrs(load), Instrs(add), i.cx);
    }
  }

  lemma AddIsPlain(rd: Reg, rs1: Reg, rs2: Reg)
    ensures Plain([RegOp(ADD, rd, rs1, rs2).body]) && Plain([RegOp(MOV, rd, rs1, rs2).body])
  {
  }

  lemma SlotYields(cx: Cx, gs: set<string>, name: string, index: Expr)
    requires Sound(cx) && gs == cx.layout.globals.Keys && CalmExpr(gs, index) && GenSlot(cx, name, index).Some?
    ensures YieldsAddress(GenSlot(cx, name, index).value)
    decreases index, 3
  {
    if name in cx.layout.arrays {
      ElementYields(cx, gs, name, index);
    } else {
      GenVarFacts(cx, name);
      NameYields(cx, gs, name);
      var p := GenVar(cx, name).value;
      ExprFacts(p.cx, index);
      ExprYields(p.cx, gs, index);
      var i := GenExpr(p.cx, index).value;
      TempIsFresh(i.cx);
      var (ra, cx1) := AllocTemp(i.cx).value;
      InstrsOne(RegOp(ADD, ra, p.reg, i.reg));
      AddIsPlain(ra, p.reg, i.reg);
      hide Code, Plain, GenExpr, GenVar, Extends, Sound, CalmExpr, Instrs;
      OperandsThen(gs, p, index, i, [RegOp(ADD, ra, p.reg, i.reg)]);
      CodeSame(Instrs(GenSlot(cx, name, index).value.code), i.cx, cx1);
    }
  }

  /** A load from the address that x has computed. */
  lemma LoadYields(gs: set<string>, e: Expr, x: Gen, r: Reg, cx: Cx)
    requires Code(Instrs(x.code), x.cx) && IsRead(gs, e)
    requires Sound(x.cx) && Extends(x.cx, cx) && r < cx.nextReg && r !in cx.vars.Values
    ensures Yields(gs, e, Gen(x.code + [LoadWord(r, x.reg)], r, cx))
  {
    var load := LoadWord(r, x.reg);
    InstrsOne(load);
    InstrsConcat(x.code, [load]);
    hide Code, Extends, Sound;
    CodeExtends(Instrs(x.code), x.cx, cx);
    CodeThenLoad(Instrs(x.code), load.body, cx);
  }

  lemma SameVars(cx: Cx)
    requires AllocTemp(cx).Some?
    ensures AllocTemp(cx).value.1.vars == cx.vars
  {
  }

  lemma UnaryYields(cx: Cx, gs: set<string>, e: Expr)
    requires Sound(cx) && gs == cx.layout.globals.Keys && e.Unary? && CalmExpr(gs, e) && GenExpr(cx, e).Some?
    ensures Yields(gs, e, GenExpr(cx, e).value)
    decreases e, 0
  {
    hide Code, Extends, Sound, Instrs, AllocTemp, Flag;
    var g := GenExpr(cx, e).value;
    ExprFacts(cx, e.operand);
    ExprYields(cx, gs, e.operand);
    var x := GenExpr(cx, e.operand).value;
    SoundAfter(cx, x.cx);
    TempFacts(x.cx);
    var (rd, cx1) := AllocTemp(x.cx).value;
    SoundAfter(x.cx, cx1);
    SameVars(x.cx);
    if e.uop.LogicalNot? {
      NotCode(gs, e.operand, x, rd, Numbered("NOT_ONE", cx1.labels), Numbered("NOT_END", cx1.labels + 1));
    } else {
      SignCode(gs, e.operand, x, if e.uop.Negate? then NEG else NOT, rd);
    }
    CodeSame(Instrs(g.code), x.cx, g.cx);
  }

  lemma SignCode(gs: set<string>, e: Expr, x: Gen, op: Opcode, rd: Reg)
    requires Yields(gs, e, x) && (op == NEG || op == NOT)
    ensures var bs := Instrs(x.code + [RegOp(op, rd, x.reg, 0)]); Code(bs, x.cx) && !EndsInLoad(bs) && bs != []
  {
    var line := RegOp(op, rd, x.reg, 0);
    InstrsOne(line);
    InstrsConcat(x.code, [line]);
    assert Plain([line.body]);
    hide Code, Plain, Emitted;
    CodeThenPlain(Instrs(x.code), [line.body], x.cx);
  }

  /** A branch on a computed value. */
  lemma TestCode(gs: set<string>, e: Expr, x: Gen, op: Opcode, l: Symbol)
    requires Yields(gs, e, x) && !IsRead(gs, e) && IsBranch(op)
    ensures var bs := Instrs(x.code + [BranchTo(op, x.reg, l)]); Code(bs, x.cx) && !EndsInLoad(bs) && bs != []
  {
    var line := BranchTo(op, x.reg, l);
    InstrsOne(line);
    InstrsConcat(x.code, [line]);
    hide Code;
    CodeThenBranch(Instrs(x.code), line.body, x.cx);
  }

  lemma NotCode(gs: set<string>, e: Expr, x: Gen, rd: Reg, lt: Symbol, le: Symbol)
    requires Yields(gs, e, x) && !IsRead(gs, e)
    ensures var bs := Instrs(Flag(rd, x.code + [BranchTo(BEQ, x.reg, lt)], 1, lt, le));
            Code(bs, x.cx) && !EndsInLoad(bs) && bs != []
  {
    var test := x.code + [BranchTo(BEQ, x.reg, lt)];
    TestCode(gs, e, x, BEQ, lt);
    FlagCode(rd, test, 1, lt, le);
    hide Code, Plain, Flag;
    CodeThenPlain(Instrs(test), [Movi(rd, 0).body, JumpTo(le).body, Movi(rd, 1).body], x.cx);
  }

  lemma SameLayout(cx: Cx, cx': Cx)
    requires Extends(cx, cx')
    ensures cx'.layout == cx.layout
  {
  }

  lemma LogicalYields(cx: Cx, gs: set<string>, e: Expr)
    requires Sound(cx) && gs == cx.layout.globals.Keys && e.Binary? && IsLogical(e.op) && CalmExpr(gs, e)
    requires GenLogical(cx, e).Some?
    ensures Yields(gs, e, GenLogical(cx, e).value)
    decreases e, 0
  {
    hide Sound, Code, Extends, Flag, Instrs, AllocTemp, GenLogical, GenExpr, LogicalParts;
    var cx2 := cx.(labels := cx.labels + 2);
    SoundSame(cx, cx2);
    LogicalIs(cx, e);
    TempFacts(cx2);
    var (rd, cx3) := AllocTemp(cx2).value;
    SoundAfter(cx2, cx3);
    SameLayout(cx2, cx3);
    ExprFacts(cx3, e.left);
    ExprYields(cx3, gs, e.left);
    var l := GenExpr(cx3, e.left).value;
    SoundAfter(cx3, l.cx);
    SameLayout(cx3, l.cx);
    ExprFacts(l.cx, e.right);
    ExprYields(l.cx, gs, e.right);
    LogicalMade(cx, gs, e, rd, l, GenExpr(l.cx, e.right).value);
  }

  /** Code for && and ||, from the operands' code. */
  function LogicalParts(cx: Cx, e: Expr, rd: Reg, l: Gen, r: Gen): Gen
    requires e.Binary?
  {
    var conj := e.op.LogicalAnd?;
    var ls := Numbered(if conj then "AND_FALSE" else "OR_TRUE", cx.labels);
    var le := Numbered(if conj then "AND_END" else "OR_END", cx.labels + 1);
    var skip := if conj then BEQ else BNE;
    Gen(Flag(rd, l.code + [BranchTo(skip, l.reg, ls)] + r.code + [BranchTo(skip, r.reg, ls)],
             if conj then 0 else 1, ls, le), rd, r.cx)
  }

  lemma LogicalIs(cx: Cx, e: Expr)
    requires e.Binary? && IsLogical(e.op) && GenLogical(cx, e).Some?
    ensures var t := AllocTemp(cx.(labels := cx.labels + 2));
            && t.Some? && GenExpr(t.value.1, e.left).Some?
            && var l := GenExpr(t.value.1, e.left).value;
               GenExpr(l.cx, e.right).Some?
               && GenLogical(cx, e).value == LogicalParts(cx, e, t.value.0, l, GenExpr(l.cx, e.right).value)
  {
    hide GenExpr, AllocTemp, Flag;
  }

  lemma LogicalMade(cx: Cx, gs: set<string>, e: Expr, rd: Reg, l: Gen, r: Gen)
    requires e.Binary? && Yields(gs, e.left, l) && Yields(gs, e.right, r) && Extends(l.cx, r.cx)
    requires !IsRead(gs, e.left) && !IsRead(gs, e.right)
    ensures Yields(gs, e, LogicalParts(cx, e, rd, l, r))
  {
    var conj := e.op.LogicalAnd?;
    var ls := Numbered(if conj then "AND_FALSE" else "OR_TRUE", cx.labels);
    var le := Numbered(if conj then "AND_END" else "OR_END", cx.labels + 1);
    hide Code, Extends, Flag, Instrs;
    LogicalCode(gs, e, l, r, if conj then BEQ else BNE, rd, if conj then 0 else 1, ls, le);
  }

  lemma LogicalCode(gs: set<string>, e: Expr, l: Gen, r: Gen, skip: Opcode, rd: Reg, taken: int, ls: Symbol, le: Symbol)
    requires e.Binary? && Yields(gs, e.left, l) && Yields(gs, e.right, r) && Extends(l.cx, r.cx) && IsBranch(skip)
    requires !IsRead(gs, e.left) && !IsRead(gs, e.right)
    ensures var test := l.code + [BranchTo(skip, l.reg, ls)] + r.code + [BranchTo(skip, r.reg, ls)];
            var bs := Instrs(Flag(rd, test, taken, ls, le));
            Code(bs, r.cx) && !EndsInLoad(bs) && bs != []
  {
    var first, second := l.code + [BranchTo(skip, l.reg, ls)], r.code + [BranchTo(skip, r.reg, ls)];
    var test := l.code + [BranchTo(skip, l.reg, ls)] + r.code + [BranchTo(skip, r.reg, ls)];
    TestCode(gs, e.left, l, skip, ls);
    TestCode(gs, e.right, r, skip, ls);
    FlagCode(rd, test, taken, ls, le);
    assert test == first + second;
    InstrsConcat(first, second);
    hide Code, Plain, Flag, Extends, IsRead;
    CodeExtends(Instrs(first), l.cx, r.cx);
    CodeJoin(Instrs(first), Instrs(second), r.cx);
    CodeThenPlain(Instrs(test), [Movi(rd, 1 - taken).body, JumpTo(le).body, Movi(rd, taken).body], r.cx);
  }

  lemma {:induction false} ExprYields(cx: Cx, gs: set<string>, e: Expr)
    requires Sound(cx) && gs == cx.layout.globals.Keys && CalmExpr(gs, e) && GenExpr(cx, e).Some?
    ensures Yields(gs, e, GenExpr(cx, e).value)
    decreases e, 1
  {
    hide Sound, Code, Extends, GenBinary, GenLogical, GenSlot, GenElementAddr, GenVar, FreeReg, LoadImm, Instrs;
    match e
    case IntLiteral(v) => LiteralYields(cx, gs, e, v);
    case VarRef(n) => NameYields(cx, gs, n);
    case ArrayRef(n, index) =>
      SlotFacts(cx, n, index);
      SlotYields(cx, gs, n, index);
      var a := GenSlot(cx, n, index).value;
      SoundAfter(cx, a.cx);
      TempIsFresh(a.cx);
      LoadYields(gs, e, a, AllocTemp(a.cx).value.0, AllocTemp(a.cx).value.1);
    case AddrOf(n) => LiteralYields(cx, gs, e, cx.layout.globals[n]);
    case AddrOfElement(n, index) => ElementYields(cx, gs, n, index);
    case Deref(ptr) =>
      ExprFacts(cx, ptr);
      ExprYields(cx, gs, ptr);
      var p := GenExpr(cx, ptr).value;
      SoundAfter(cx, p.cx);
      TempIsFresh(p.cx);
      LoadYields(gs, e, p, AllocTemp(p.cx).value.0, AllocTemp(p.cx).value.1);
    case Binary(op, _, _) => if IsLogical(op) { LogicalYields(cx, gs, e); } else { BinaryYields(cx, gs, e, None); }
    case Unary(_, _) => UnaryYields(cx, gs, e);
    case FuncCall(_, _) =>
    case StringLit(_) =>
  }

  // ---- What the generator emits for a statement

  /** Statement code neither begins with a store nor ends with a load. */
  ghost predicate Emits(bs: seq<Body>) { Chained(bs) && !EndsInLoad(bs) && (bs != [] ==> !bs[0].InsS?) }

  lemma EmitsJoin(x: seq<Body>, y: seq<Body>)
    requires Emits(x) && Emits(y)
    ensures Emits(x + y)
  {
    ChainedJoin(x, y);
    hide Chained;
    if y != [] { assert (x + y)[|x + y| - 1] == y[|y| - 1]; }
  }

  lemma EmitsLines(x: seq<Line>, y: seq<Line>)
    requires Emits(Instrs(x)) && Emits(Instrs(y))
    ensures Emits(Instrs(x + y))
  {
    hide Emits;
    InstrsConcat(x, y);
    EmitsJoin(Instrs(x), Instrs(y));
  }

  lemma CodeEmits(bs: seq<Body>, cx: Cx)
    requires Code(bs, cx) && !EndsInLoad(bs)
    ensures Emits(bs)
  {
    hide Chained;
    if bs != [] { assert Computes(bs[0]); }
  }

  lemma PlainEmits(bs: seq<Body>, cx: Cx)
    requires Plain(bs)
    ensures Emits(bs)
  {
    PlainCode(bs, cx);
    hide Code, Plain;
    CodeEmits(bs, cx);
  }

  lemma JumpEmits(l: Symbol)
    ensures Emits(Instrs([JumpTo(l)])) && Emits(Instrs([Mark(l)])) && Emits(Instrs([]))
  {
    InstrsOne(JumpTo(l));
    InstrsOne(Mark(l));
  }

  /** Expression code, then plain instructions that use its result. */
  lemma UseEmits(x: seq<Line>, y: seq<Line>, cx: Cx)
    requires Code(Instrs(x), cx) && Plain(Instrs(y)) && Instrs(y) != []
    ensures Emits(Instrs(x + y))
  {
    hide Code, Plain, Emits;
    InstrsConcat(x, y);
    CodeThenPlain(Instrs(x), Instrs(y), cx);
    CodeEmits(Instrs(x) + Instrs(y), cx);
  }

  /** A value moved to its destination, unless it is there already. */
  lemma MoveEmits(gs: set<string>, e: Expr, v: Gen, reg: Reg)
    requires Yields(gs, e, v) && (v.reg != reg || reg in v.cx.vars.Values)
    ensures Emits(Instrs(v.code + (if v.reg != reg then [RegOp(MOV, reg, v.reg, 0)] else [])))
  {
    hide Code, Emits, Plain;
    if v.reg != reg {
      InstrsOne(RegOp(MOV, reg, v.reg, 0));
      AddIsPlain(reg, v.reg, 0);
      UseEmits(v.code, [RegOp(MOV, reg, v.reg, 0)], v.cx);
    } else {
      assert v.code + [] == v.code;
      CodeEmits(Instrs(v.code), v.cx);
    }
  }

  /** A store behind expression code: of a variable's register, or of a value that was not just loaded. */
  lemma StoreEmits(x: seq<Line>, r: Reg, ra: Reg, cx: Cx)
    requires Code(Instrs(x), cx) && Instrs(x) != [] && (!EndsInLoad(Instrs(x)) || r in cx.vars.Values)
    ensures Emits(Instrs(x + [StoreWord(r, ra)]))
  {
    var bs, store := Instrs(x), StoreWord(r, ra).body;
    InstrsConcat(x, [StoreWord(r, ra)]);
    InstrsOne(StoreWord(r, ra));
    assert Computes(bs[|bs| - 1]) && Computes(bs[0]);
    assert Chained([store]);
    ChainedJoin(bs, [store]);
    assert (bs + [store])[|bs + [store]| - 1] == store;
    hide Chained, Emitted;
  }

  /** Load, operate, store back. */
  lemma UpdateEmits(x: seq<Line>, rc: Reg, ra: Reg, rv: Reg, op: BinaryOp, cx: Cx)
    requires Code(Instrs(x), cx) && IsArithmetic(op)
    ensures Emits(Instrs(x + [LoadWord(rc, ra), RegOp(ArithmeticOpcode(op), rc, rc, rv), StoreWord(rc, ra)]))
  {
    var load, work, store := LoadWord(rc, ra), RegOp(ArithmeticOpcode(op), rc, rc, rv), StoreWord(rc, ra);
    var bs, y := Instrs(x), [load.body, work.body, store.body];
    InstrsTwo(load, work);
    InstrsOne(store);
    InstrsConcat([load, work], [store]);
    assert [load, work] + [store] == [load, work, store];
    InstrsConcat(x, [load, work, store]);
    assert Instrs([load, work, store]) == y;
    UpdateChain(bs, y, cx);
  }

  lemma UpdateChain(bs: seq<Body>, y: seq<Body>, cx: Cx)
    requires Code(bs, cx) && |y| == 3 && IsLoadWord(y[0]) && y[1].InsR? && Emitted(y[1]) && y[2].InsS? && Emitted(y[2])
    ensures Emits(bs + y)
  {
    assert Chained(y);
    if bs != [] { assert Computes(bs[|bs| - 1]) && Computes(bs[0]); }
    ChainedJoin(bs, y);
    assert (bs + y)[|bs + y| - 1] == y[2];
    hide Chained, Emitted;
  }

  lemma StoreCalm(cx: Cx, gs: set<string>, a: Gen, aop: AssignOp, value: Expr)
    requires Sound(a.cx) && gs == a.cx.layout.globals.Keys && CalmExpr(gs, value) && Code(Instrs(a.code), a.cx)
    requires aop.Set? ==> !IsRead(gs, value) && (Instrs(a.code) == [] ==> !IsLocal(gs, value))
    requires GenStore(a.cx, a.reg, aop, value).Some?
    ensures Emits(Instrs(a.code + GenStore(a.cx, a.reg, aop, value).value.code))
  {
    hide Sound, Code, Extends, Emits, Instrs, FreeReg;
    ExprFacts(a.cx, value);
    ExprYields(a.cx, gs, value);
    var v := GenExpr(a.cx, value).value;
    CodeExtends(Instrs(a.code), a.cx, v.cx);
    CodeJoin(Instrs(a.code), Instrs(v.code), v.cx);
    InstrsConcat(a.code, v.code);
    var o := GenStore(a.cx, a.reg, aop, value).value;
    if aop.Set? {
      assert a.code + o.code == a.code + v.code + [StoreWord(v.reg, a.reg)];
      LastOf(Instrs(a.code), Instrs(v.code));
      StoreEmits(a.code + v.code, v.reg, a.reg, v.cx);
    } else {
      var rc := AllocTemp(v.cx).value.0;
      UpdateEmits(a.code + v.code, rc, a.reg, v.reg, aop.op, v.cx);
      assert a.code + o.code == a.code + v.code
          + [LoadWord(rc, a.reg), RegOp(ArithmeticOpcode(aop.op), rc, rc, v.reg), StoreWord(rc, a.reg)];
    }
  }

  lemma LastOf(x: seq<Body>, y: seq<Body>)
    ensures EndsInLoad(x + y) <==> if y == [] then EndsInLoad(x) else EndsInLoad(y)
  {
    if y == [] { assert x + y == x; }
  }

  lemma GlobalCalm(cx: Cx, gs: set<string>, name: string, aop: AssignOp, value: Expr)
    requires Sound(cx) && gs == cx.layout.globals.Keys && CalmStmt(gs, Assign(name, aop, value)) && name in gs
    requires GenAssign(cx, name, aop, value).Some?
    ensures Emits(Instrs(GenAssign(cx, name, aop, value).value.code))
  {
    var load := LoadImm(FLAGS_TMP, cx.layout.globals[name]);
    var a := Gen(load, FLAGS_TMP, cx);
    ImmediateCode(FLAGS_TMP, cx.layout.globals[name]);
    PlainCode(Instrs(load), cx);
    hide Sound, Code, Emits, Instrs, FreeReg, LoadImm, GenExpr, AllocTemp;
    StoreCalm(cx, gs, a, aop, value);
    var v, o := GenExpr(cx, value).value, GenStore(cx, FLAGS_TMP, aop, value).value;
    var g := GenAssign(cx, name, aop, value).value;
    if aop.Set? {
      assert g.code == load + v.code + [StoreWord(v.reg, FLAGS_TMP)] == load + o.code;
    } else {
      var rc := AllocTemp(v.cx).value.0;
      var tail := [LoadWord(rc, FLAGS_TMP), RegOp(ArithmeticOpcode(aop.op), rc, rc, v.reg), StoreWord(rc, FLAGS_TMP)];
      assert g.code == load + v.code + tail == load + o.code;
    }
  }

  lemma LocalCalm(cx: Cx, gs: set<string>, name: string, aop: AssignOp, value: Expr)
    requires Sound(cx) && gs == cx.layout.globals.Keys && CalmExpr(gs, value) && name !in gs
    requires GenAssign(cx, name, aop, value).Some?
    ensures Emits(Instrs(GenAssign(cx, name, aop, value).value.code))
  {
    hide Sound, Code, Emits, Instrs, FreeReg, GenExpr, GenBinary, AllocVar, Extends, Emitted;
    VarFacts(cx, name);
    var (reg, cx1) := AllocVar(cx, name).value;
    SoundAfter(cx, cx1);
    SameLayout(cx, cx1);
    if aop.Set? && value.Binary? && !IsLogical(value.op) {
      BinaryYields(cx1, gs, value, Some(reg));
      CodeEmits(Instrs(GenBinary(cx1, value, Some(reg)).value.code), GenBinary(cx1, value, Some(reg)).value.cx);
    } else {
      ExprFacts(cx1, value);
      ExprYields(cx1, gs, value);
      var v := GenExpr(cx1, value).value;
      VariableKept(cx1, v.cx, name);
      if aop.Set? {
        MoveEmits(gs, value, v, reg);
      } else {
        var op := RegOp(ArithmeticOpcode(aop.op), reg, reg, v.reg);
        InstrsOne(op);
        ArithmeticIsPlain(aop.op, reg, v.reg);
        UseEmits(v.code, [op], v.cx);
      }
    }
  }

  lemma VariableKept(cx: Cx, cx': Cx, name: string)
    requires Extends(cx, cx') && name in cx.vars
    ensures cx.vars[name] in cx'.vars.Values
  {
    assert cx'.vars[name] == cx.vars[name];
  }

  lemma ArithmeticIsPlain(op: BinaryOp, reg: Reg, r: Reg)
    requires IsArithmetic(op)
    ensures Plain([RegOp(ArithmeticOpcode(op), reg, reg, r).body])
  {
  }

  lemma DeclarationCalm(cx: Cx, gs: set<string>, name: string, init: Option<Expr>)
    requires Sound(cx) && gs == cx.layout.globals.Keys && CalmOption(gs, init) && GenStmt(cx, VarDecl(name, init)).Some?
    ensures Emits(Instrs(GenStmt(cx, VarDecl(name, init)).value.code))
  {
    hide Sound, Code, Emits, Instrs, FreeReg, GenExpr, AllocVar, FreeTemps, Extends;
    VarFacts(cx, name);
    var (reg, cx1) := AllocVar(cx, name).value;
    SoundAfter(cx, cx1);
    SameLayout(cx, cx1);
    if init.Some? {
      ExprFacts(cx1, init.value);
      ExprYields(cx1, gs, init.value);
      var v := GenExpr(cx1, init.value).value;
      VariableKept(cx1, v.cx, name);
      MoveEmits(gs, init.value, v, reg);
    } else {
      JumpEmits(Named(""));
    }
  }

  lemma {:induction false} InitsCalm(cx: Cx, gs: set<string>, base: int, inits: seq<Expr>, i: nat)
    requires Sound(cx) && gs == cx.layout.globals.Keys && i <= |inits| && GenInits(cx, base, inits, i).Some?
    requires forall k :: 0 <= k < |inits| ==> CalmExpr(gs, inits[k])
    ensures Emits(Instrs(GenInits(cx, base, inits, i).value.code))
    decreases |inits| - i
  {
    hide Sound, Code, Emits, Instrs, GenExpr, LoadImm, Extends, CalmExpr;
    JumpEmits(Named(""));
    if i < |inits| {
      ExprFacts(cx, inits[i]);
      ExprYields(cx, gs, inits[i]);
      var v := GenExpr(cx, inits[i]).value;
      SoundAfter(cx, v.cx);
      SameLayout(cx, v.cx);
      InitsCalm(v.cx, gs, base, inits, i + 1);
      var load, rest := LoadImm(FLAGS_TMP, base + i), GenInits(v.cx, base, inits, i + 1).value;
      ElementStored(gs, inits[i], v, base + i);
      EmitsLines(v.code + load + [StoreWord(v.reg, FLAGS_TMP)], rest.code);
    }
  }

  lemma ElementStored(gs: set<string>, e: Expr, v: Gen, address: int)
    requires Yields(gs, e, v)
    ensures Emits(Instrs(v.code + LoadImm(FLAGS_TMP, address) + [StoreWord(v.reg, FLAGS_TMP)]))
  {
    var load := LoadImm(FLAGS_TMP, address);
    ImmediateCode(FLAGS_TMP, address);
    InstrsConcat(v.code, load);
    hide Code, Plain, Emits, Instrs, LoadImm;
    CodeThenPlain(Instrs(v.code), Instrs(load), v.cx);
    StoreEmits(v.code + load, v.reg, FLAGS_TMP, v.cx);
  }

  lemma TestCalm(cx: Cx, gs: set<string>, cond: Option<Expr>, le: Symbol)
    requires Sound(cx) && gs == cx.layout.globals.Keys && (cond.Some? ==> CalmValue(gs, cond.value))
    requires GenTest(cx, cond, le).Some?
    ensures Emits(Instrs(GenTest(cx, cond, le).value.code)) && Extends(cx, GenTest(cx, cond, le).value.cx)
  {
    TestFacts(cx, cond, le);
    hide Sound, Code, Emits, Instrs, GenExpr, Extends;
    JumpEmits(le);
    if cond.Some? {
      ExprYields(cx, gs, cond.value);
      var c := GenExpr(cx, cond.value).value;
      TestCode(gs, cond.value, c, BEQ, le);
      CodeEmits(Instrs(c.code + [BranchTo(BEQ, c.reg, le)]), c.cx);
    }
  }

  lemma EndingEmits(cx: Cx)
    requires cx.main
    ensures Instrs([Ending(cx)]) == [Ending(cx).body] && Emits(Instrs([Ending(cx)]))
  {
    InstrsOne(Ending(cx));
  }

  lemma HaltEmits(cx: Cx, x: seq<Line>, cx': Cx)
    requires cx.main && Code(Instrs(x), cx')
    ensures Emits(Instrs(x + [Ending(cx)]))
  {
    var bs, halt := Instrs(x), Ending(cx).body;
    InstrsOne(Ending(cx));
    InstrsConcat(x, [Ending(cx)]);
    if bs != [] { assert Computes(bs[|bs| - 1]) && Computes(bs[0]); }
    assert Chained([halt]);
    ChainedJoin(bs, [halt]);
    assert (bs + [halt])[|bs + [halt]| - 1] == halt;
    hide Chained, Emitted;
  }

  lemma ReturnCalm(cx: Cx, gs: set<string>, result: Option<Expr>)
    requires Sound(cx) && gs == cx.layout.globals.Keys && CalmOption(gs, result) && cx.main
    requires GenReturn(cx, result).Some?
    ensures Emits(Instrs(GenReturn(cx, result).value.code))
  {
    hide Sound, Code, Emits, Instrs, GenExpr, Plain, Ending;
    EndingEmits(cx);
    if result.Some? {
      ExprYields(cx, gs, result.value);
      var v := GenExpr(cx, result.value).value;
      var move := RegOp(MOV, 1, v.reg, 0);
      InstrsOne(move);
      AddIsPlain(1, v.reg, 0);
      InstrsConcat(v.code, [move]);
      CodeThenPlain(Instrs(v.code), [move.body], v.cx);
      HaltEmits(cx, v.code + [move], v.cx);
      HaltEmits(cx, v.code, v.cx);
      assert v.code + [] == v.code;
    }
  }

  lemma IfCalm(cx: Cx, gs: set<string>, s: Stmt)
    requires Sound(cx) && gs == cx.layout.globals.Keys && cx.main && s.If? && CalmStmt(gs, s)
    requires GenIf(cx, s.cond, s.thenBody, s.elseBody).Some?
    ensures Emits(Instrs(GenIf(cx, s.cond, s.thenBody, s.elseBody).value.code))
    decreases s, 0
  {
    hide Sound, Emits, Instrs, GenTest, GenSeq, Extends, CalmSeq, AfterSeq;
    var (le, cx1) := NewLabel(cx, "ELSE");
    var (ln, cx2) := NewLabel(cx1, "ENDIF");
    SoundSame(cx, cx2);
    TestCalm(cx2, gs, Some(s.cond), le);
    var c := GenTest(cx2, Some(s.cond), le).value;
    ExtendsGrown(cx2, c.cx);
    SoundAfter(cx2, c.cx);
    SeqCalm(c.cx, gs, s.thenBody);
    var t := GenSeq(c.cx, s.thenBody).value;
    SeqCalm(t.cx, gs, s.elseBody);
    var e := GenSeq(t.cx, s.elseBody).value;
    var jump := if s.elseBody != [] then [JumpTo(ln)] else [];
    JumpEmits(le);
    JumpEmits(ln);
    EmitsLines(c.code, t.code);
    EmitsLines(c.code + t.code, jump);
    EmitsLines(c.code + t.code + jump, [Mark(le)]);
    EmitsLines(c.code + t.code + jump + [Mark(le)], e.code);
    EmitsLines(c.code + t.code + jump + [Mark(le)] + e.code, [Mark(ln)]);
  }

  lemma WhileCalm(cx: Cx, gs: set<string>, s: Stmt)
    requires Sound(cx) && gs == cx.layout.globals.Keys && cx.main && s.While? && CalmStmt(gs, s)
    requires GenWhile(cx, s.cond, s.body).Some?
    ensures Emits(Instrs(GenWhile(cx, s.cond, s.body).value.code))
    decreases s, 0
  {
    hide Sound, Emits, Instrs, GenTest, GenSeq, Extends, CalmSeq, AfterSeq;
    var (lt, cx1) := NewLabel(cx, "WHILE_TEST");
    var (le, cx2) := NewLabel(cx1, "WHILE_END");
    var cx3 := cx2.(loops := cx.loops + [(lt, le)]);
    SoundSame(cx, cx3);
    TestCalm(cx3, gs, Some(s.cond), le);
    var c := GenTest(cx3, Some(s.cond), le).value;
    ExtendsGrown(cx3, c.cx);
    SoundAfter(cx3, c.cx);
    SeqCalm(c.cx, gs, s.body);
    var b := GenSeq(c.cx, s.body).value;
    JumpEmits(le);
    LoopEmits(lt, le, c.code, b.code, []);
    assert [Mark(lt)] + c.code + b.code + [] == [Mark(lt)] + c.code + b.code;
  }

  lemma LoopEmits(lt: Symbol, le: Symbol, test: seq<Line>, body: seq<Line>, update: seq<Line>)
    requires Emits(Instrs(test)) && Emits(Instrs(body)) && Emits(Instrs(update))
    ensures Emits(Instrs([Mark(lt)] + test + body + update + [JumpTo(lt), Mark(le)]))
  {
    hide Emits;
    JumpEmits(lt);
    JumpEmits(le);
    EmitsLines([Mark(lt)], test);
    EmitsLines([Mark(lt)] + test, body);
    EmitsLines([Mark(lt)] + test + body, update);
    EmitsLines([JumpTo(lt)], [Mark(le)]);
    assert [JumpTo(lt)] + [Mark(le)] == [JumpTo(lt), Mark(le)];
    EmitsLines([Mark(lt)] + test + body + update, [JumpTo(lt), Mark(le)]);
  }

  /** The initialiser or update of a for loop, with the context behind it. */
  lemma OptionalCalm(cx: Cx, gs: set<string>, s: Option<Stmt>)
    requires Sound(cx) && gs == cx.layout.globals.Keys && cx.main && (s.Some? ==> CalmStmt(gs, s.value))
    requires GenOptional(cx, s).Some?
    ensures var o := GenOptional(cx, s).value; Emits(Instrs(o.code)) && SameNames(cx, o.cx)
    decreases s, 0
  {
    hide Emits, Instrs, GenStmt, CalmStmt;
    JumpEmits(Named(""));
    if s.Some? { StmtCalm(cx, gs, s.value); }
  }

  ghost predicate SameNames(cx: Cx, cx': Cx) {
    Sound(cx') && cx'.layout.globals == cx.layout.globals && cx'.main == cx.main
  }

  lemma ForCalm(cx: Cx, gs: set<string>, s: Stmt)
    requires Sound(cx) && gs == cx.layout.globals.Keys && cx.main && s.For? && CalmStmt(gs, s) && GenFor(cx, s).Some?
    ensures Emits(Instrs(GenFor(cx, s).value.code))
    decreases s, 0
  {
    hide Sound, Emits, Instrs, GenTest, GenSeq, GenOptional, GenForLoop, Extends, CalmSeq;
    var (lt, cx1) := NewLabel(cx, "FOR_TEST");
    var (lu, cx2) := NewLabel(cx1, "FOR_UPD");
    var (le, cx3) := NewLabel(cx2, "FOR_END");
    SoundSame(cx, cx3);
    OptionalCalm(cx3, gs, s.forInit);
    var i := GenOptional(cx3, s.forInit).value;
    var cx4 := i.cx.(loops := cx.loops + [(lu, le)]);
    SoundSame(i.cx, cx4);
    ForLoopCalm(cx4, gs, s, lt, lu, le);
    EmitsLines(i.code, GenForLoop(cx4, s, lt, lu, le).value.code);
  }

  lemma ForLoopCalm(cx: Cx, gs: set<string>, s: Stmt, lt: Symbol, lu: Symbol, le: Symbol)
    requires Sound(cx) && gs == cx.layout.globals.Keys && cx.main && s.For? && CalmStmt(gs, s)
    requires GenForLoop(cx, s, lt, lu, le).Some?
    ensures Emits(Instrs(GenForLoop(cx, s, lt, lu, le).value.code))
    decreases s, 0, 0
  {
    hide Sound, Emits, Instrs, GenTest, GenSeq, GenOptional, Extends, CalmSeq;
    TestCalm(cx, gs, s.forCond, le);
    var c := GenTest(cx, s.forCond, le).value;
    ExtendsGrown(cx, c.cx);
    SoundAfter(cx, c.cx);
    SeqCalm(c.cx, gs, s.body);
    var b := GenSeq(c.cx, s.body).value;
    OptionalCalm(b.cx, gs, s.update);
    var u := GenOptional(b.cx, s.update).value;
    JumpEmits(lu);
    EmitsLines([Mark(lu)], u.code);
    LoopEmits(lt, le, c.code, b.code, [Mark(lu)] + u.code);
    assert [Mark(lt)] + c.code + b.code + ([Mark(lu)] + u.code) == [Mark(lt)] + c.code + b.code + [Mark(lu)] + u.code;
  }

  lemma {:induction false} StmtCalm(cx: Cx, gs: set<string>, s: Stmt)
    requires Sound(cx) && gs == cx.layout.globals.Keys && cx.main && CalmStmt(gs, s) && GenStmt(cx, s).Some?
    ensures var o := GenStmt(cx, s).value; Emits(Instrs(o.code)) && SameNames(cx, o.cx)
    decreases s, 1
  {
    StmtFacts(cx, s);
    ScalarStays(cx.layout, s);
    hide Sound, Code, Emits, Instrs, GenExpr, GenSlot, GenStore, GenAssign, GenInits, GenReturn, GenIf, GenWhile,
      GenFor, GenSeq, FreeTemps, AllocVar, CalmExpr, After, CalmSeq;
    match s
    case VarDecl(name, init) => DeclarationCalm(cx, gs, name, init);
    case ArrayDecl(name, size, inits) =>
      var cx1 := cx.(layout := Declare(cx.layout, name, size));
      SoundSame(cx, cx1);
      InitsCalm(cx1, gs, cx.layout.next, inits, 0);
    case Assign(name, aop, value) =>
      if name in gs { GlobalCalm(cx, gs, name, aop, value); } else { LocalCalm(cx, gs, name, aop, value); }
    case ArrayAssign(name, index, aop, value) =>
      SlotFacts(cx, name, index);
      SlotYields(cx, gs, name, index);
      var a := GenSlot(cx, name, index).value;
      SoundAfter(cx, a.cx);
      SameLayout(cx, a.cx);
      StoreCalm(cx, gs, a, aop, value);
    case DerefAssign(ptr, aop, value) =>
      ExprFacts(cx, ptr);
      ExprYields(cx, gs, ptr);
      var p := GenExpr(cx, ptr).value;
      SoundAfter(cx, p.cx);
      SameLayout(cx, p.cx);
      StoreCalm(cx, gs, p, aop, value);
    case If(_, _, _) => IfCalm(cx, gs, s);
    case While(_, _) => WhileCalm(cx, gs, s);
    case For(_, _, _, _) => ForCalm(cx, gs, s);
    case Return(result) => ReturnCalm(cx, gs, result);
    case Break => JumpEmits(cx.loops[|cx.loops| - 1].1);
    case Continue => JumpEmits(cx.loops[|cx.loops| - 1].0);
    case ExprStmt(e) =>
      ExprYields(cx, gs, e);
      CodeEmits(Instrs(GenExpr(cx, e).value.code), GenExpr(cx, e).value.cx);
    case Block(stmts) => SeqCalm(cx, gs, stmts);
  }

  lemma {:induction false} SeqCalm(cx: Cx, gs: set<string>, stmts: seq<Stmt>)
    requires Sound(cx) && gs == cx.layout.globals.Keys && cx.main && CalmSeq(gs, stmts) && GenSeq(cx, stmts).Some?
    ensures var o := GenSeq(cx, stmts).value; Emits(Instrs(o.code)) && SameNames(cx, o.cx)
    decreases stmts, 0
  {
    hide Sound, Emits, Instrs, GenStmt, CalmStmt;
    JumpEmits(Named(""));
    if stmts != [] {
      StmtCalm(cx, gs, stmts[0]);
      var first := GenStmt(cx, stmts[0]).value;
      SeqCalm(first.cx, gs, stmts[1..]);
      EmitsLines(first.code, GenSeq(first.cx, stmts[1..]).value.code);
    }
  }

  // ---- Its words

  /** Word w is the machine code of b at some address. */
  ghost predicate IsWordOf(w: Word, b: Body) {
    exists t: Symbols, a: int :: IsInstruction(b) && BodyResolvable(t, b) && Isa.Decode(w) == Assembled(t, b, a)
  }

  lemma {:induction false} CodeWords(m: Mem, t: Symbols, a: nat, lines: seq<Line>)
    requires CodeAt(m, t, a, lines)
    ensures |Instrs(lines)| == Size(lines) && (Size(lines) > 0 ==> a + Size(lines) <= CODE_TOP)
    ensures forall i :: 0 <= i < Size(lines) ==> IsWordOf(m[a + i], Instrs(lines)[i])
    decreases lines
  {
    hide Assembled, Isa.Decode;
    if lines != [] {
      var rest := lines[1..];
      if IsInstruction(lines[0].body) {
        CodeWords(m, t, a + 1, rest);
        forall i | 0 <= i < Size(lines) ensures IsWordOf(m[a + i], Instrs(lines)[i]) {
          if i > 0 { assert a + i == a + 1 + (i - 1) && Instrs(lines)[i] == Instrs(rest)[i - 1]; }
        }
      } else {
        CodeWords(m, t, a, rest);
      }
    }
  }

  /** What the word shows of its instruction. */
  lemma EmittedWord(w: Word, b: Body)
    requires IsWordOf(w, b) && Emitted(b)
    ensures var op := OpField(w);
            && !ActsEarly(op) && !IsShiftImmediate(op) && op != RET
            && (IsStore(op) <==> b.InsS?) && (op == HLT <==> IsHalt(b))
            && (IsLoad(op) ==> IsLoadWord(b) && Writes(w) == b.rd == Field25(w))
  {
    hide Sext16;
  }

  /** The hazard unit sees every register that the word reads, but for the first of a branch and a stored one. */
  lemma EmittedReads(w: Word, b: Body, r: Reg)
    requires IsWordOf(w, b) && Emitted(b) && Reads(w, r) && r != 0
    ensures Field20(w) == r || Field15(w) == r || (b.InsB? && b.rs1 == r) || (b.InsS? && b.rs2 == r)
  {
    hide Sext16, Field20, Field15, Field25, Field10;
  }

  /** Two such instructions, one behind the other, are a safe pair of words. */
  lemma PairIsSafe(w: Word, next: Word, b: Body, b': Body)
    requires IsWordOf(w, b) && IsWordOf(next, b') && Emitted(b) && Emitted(b') && Pair(b, b')
    ensures PairSafe(w, next)
  {
    EmittedWord(w, b);
    EmittedWord(next, b');
    var r := Writes(w);
    if r != 0 && Reads(next, r) { EmittedReads(next, b', r); }
    hide IsWordOf, Emitted, Reads, Writes, OpField, Field20, Field15, Field25;
  }

  /** What memory holds where nothing is assembled: ADD R0, R0, R0. */
  const ZERO_WORD := InsR(ADD, 0, 0, 0, 0)

  lemma ZeroWord()
    ensures IsWordOf(0, ZERO_WORD) && Emitted(ZERO_WORD)
    ensures forall b :: Pair(b, ZERO_WORD)
  {
    var t: Symbols := map[];
    assert Isa.Decode(0) == Assembled(t, ZERO_WORD, 0);
  }

  /** Between the code and the data nothing is assembled. */
  lemma NothingBetween(p: Program, t: Symbols, out: Output, k: int)
    requires GenProgram(p).Some? && Pass2(GenProgram(p).value, t, 0, map[]) == Some(out)
    requires Size(MainCode(p).value) <= k < CODE_TOP
    ensures k !in out
  {
    hide GenSeq, MainCode, AfterSeq, DataLines, Pass2, Avoids, Counter;
    var code, data, org := MainCode(p).value, DataLines(p.globals, FinalLayout(p)), [Ins(Org(0))];
    MainTidy(p);
    AddressesAbove(p);
    Pass2Concat(org, code + data, t, 0, map[]);
    OrgCounter();
    OrgAvoids(k);
    var out0 := Pass2(org, t, 0, map[]).value;
    Pass2Avoids(org, t, 0, map[], k, k + 1, k);
    Pass2Concat(code, data, t, 0, out0);
    CodeCounter(code, 0);
    CodeAvoids(code, 0, Size(code), CODE_TOP);
    Pass2Avoids(code, t, 0, out0, Size(code), CODE_TOP, k);
    DataAvoidsCode(p.globals, FinalLayout(p), Size(code), CODE_TOP);
    Pass2Avoids(data, t, Size(code), Pass2(code, t, 0, out0).value, 0, CODE_TOP, k);
  }

  lemma OrgAvoids(k: int)
    ensures Avoids([Ins(Org(0))], 0, k, k + 1)
  {
  }

  /** Memory holds the words, and zeros behind them as far as programs reach. */
  ghost predicate LoadedClean(m: Mem, words: seq<Word>) {
    Holds(m, words) && forall a :: |words| <= a < CODE_TOP ==> m[a] == 0
  }

  lemma MainEmits(p: Program)
    requires MainCode(p).Some? && CalmSeq(StartLayout(p).globals.Keys, p.body)
    ensures Emits(Instrs(MainCode(p).value))
  {
    var cx := StartContext(p);
    StartSound(p);
    hide Sound, Emits, Instrs, GenSeq, CalmSeq, StartLayout, Ending;
    SeqCalm(cx, cx.layout.globals.Keys, p.body);
    var o := GenSeq(cx, p.body).value;
    JumpEmits(MAIN);
    EndingEmits(cx);
    EmitsLines([JumpTo(MAIN)], [Mark(MAIN)]);
    assert [JumpTo(MAIN)] + [Mark(MAIN)] == [JumpTo(MAIN), Mark(MAIN)];
    EmitsLines([JumpTo(MAIN), Mark(MAIN)], o.code);
    EmitsLines([JumpTo(MAIN), Mark(MAIN)] + o.code, [Ending(cx)]);
  }

  /** The check on neighbouring words succeeds for every program of this kind. */
  lemma CalmIsSheltered(p: Program, words: seq<Word>, m: Mem)
    requires AssemblesTo(p, words) && LoadedClean(m, words) && Size(MainCode(p).value) + 2 <= CODE_TOP
    requires CalmSeq(StartLayout(p).globals.Keys, p.body)
    ensures Sheltered(m)
  {
    hide GenSeq, MainCode, AfterSeq, StartLayout, Pass1, Pass2, CalmSeq, CodeAt, PairSafe, Emitted, IsWordOf, ZERO_WORD;
    var t, out := ProgramAssembles(p);
    var code := MainCode(p).value;
    ImageHolds(words, out, m, Size(code));
    MainEmits(p);
    CodeWords(m, t, 0, code);
    ZeroWord();
    var bs := Instrs(code);
    forall a: nat | Size(code) <= a < CODE_TOP ensures m[a] == 0 { NothingBetween(p, t, out, a); }
    forall a: nat | a + 1 < CODE_TOP ensures PairSafe(m[a], m[a + 1]) {
      if a + 1 < Size(code) {
        assert IsWordOf(m[0 + a], bs[a]) && IsWordOf(m[0 + (a + 1)], bs[a + 1]);
        assert Pair(bs[a + 1 - 1], bs[a + 1]);
        PairIsSafe(m[a], m[a + 1], bs[a], bs[a + 1]);
      } else if a < Size(code) {
        assert IsWordOf(m[0 + a], bs[a]);
        PairIsSafe(m[a], m[a + 1], bs[a], ZERO_WORD);
      } else {
        PairIsSafe(m[a], m[a + 1], ZERO_WORD, ZERO_WORD);
      }
    }
  }

  /** Every program of this kind, compiled, assembled and loaded, halts on the pipelined machine with the memory and
      the result that the meaning of main prescribes. */
  lemma CalmOnPipeline(p: Program, words: seq<Word>, m: Mem, fuel: nat) returns (n: nat)
    requires AssemblesTo(p, words) && LoadedClean(m, words) && Size(MainCode(p).value) + 2 <= CODE_TOP
    requires CalmSeq(StartLayout(p).globals.Keys, p.body) && Defines(Meaning(p, m, fuel))
    ensures var o, c := Meaning(p, m, fuel), Cycles(Reset(m, 0), n);
            && (o.Normal? || o.Returned?) && c.halted && c.mem == o.st.mem
            && (o.Returned? && o.result.Some? ==> c.rf[1] == o.result.value)
  {
    hide AssemblesTo, Holds, MainCode, CalmSeq, Meaning, Sheltered;
    CalmIsSheltered(p, words, m);
    n := CompiledOnPipeline(p, words, m, fuel);
  }

  /** With the static check on meanings, too, only termination is left to ask for. */
  lemma CheckedOnPipeline(p: Program, words: seq<Word>, m: Mem, fuel: nat) returns (n: nat)
    requires AssemblesTo(p, words) && LoadedClean(m, words) && Size(MainCode(p).value) + 2 <= CODE_TOP
    requires CalmSeq(StartLayout(p).globals.Keys, p.body) && SafeSeq(StartLayout(p), CODE_TOP, {}, p.body)
    requires !Meaning(p, m, fuel).OutOfFuel?
    ensures var o, c := Meaning(p, m, fuel), Cycles(Reset(m, 0), n);
            && (o.Normal? || o.Returned?) && c.halted && c.mem == o.st.mem
            && (o.Returned? && o.result.Some? ==> c.rf[1] == o.result.value)
  {
    hide AssemblesTo, LoadedClean, MainCode, CalmSeq, SafeSeq, Meaning;
    NeverUndefined(p, m, fuel);
    n := CalmOnPipeline(p, words, m, fuel);
  }
}
