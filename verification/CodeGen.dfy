/** What the code generator emits, as functions from a generator context. */
module CodeGen {
  import opened Isa
  import opened Wrappers
  import opened Ast
  import opened Assembly

  /** Where globals and arrays live: name to address, name to base and size. */
  datatype Layout = Layout(globals: map<string, int>, arrays: map<string, (int, nat)>, next: int)

  /** The generator's state: `_var_reg`, `_next_reg`, `_label_cnt`, the data layout, the stack of
      (continue, break) labels and whether the function is main. */
  datatype Cx = Cx(
    vars: map<string, Reg>, nextReg: nat, labels: nat, layout: Layout, loops: seq<(Symbol, Symbol)>, main: bool)

  /** Emitted lines, the register that holds the value, and the context afterwards. */
  datatype Gen = Gen(code: seq<Line>, reg: Reg, cx: Cx)

  const MAX_REGS := 29
  const FIRST_REG := 2
  const FLAGS_TMP: Reg := 26
  const GLOBAL_BASE_ADDR := 0x4000

  // ---- Registers and labels

  /** The register that the next allocation takes: the scratch register is skipped. */
  function FreeReg(cx: Cx): Option<Reg> {
    if cx.nextReg > MAX_REGS then None else if cx.nextReg == 26 then Some(27) else Some(cx.nextReg)
  }

  function AllocTemp(cx: Cx): Option<(Reg, Cx)> {
    var r :- FreeReg(cx);
    Some((r, cx.(nextReg := r + 1)))
  }

  function AllocVar(cx: Cx, name: string): Option<(Reg, Cx)> {
    if name in cx.vars then Some((cx.vars[name], cx))
    else
      var r :- FreeReg(cx);
      Some((r, cx.(nextReg := r + 1, vars := cx.vars[name := r])))
  }

  /** The largest register of a variable, given that all are below `bound`. */
  function MaxReg(vars: map<string, Reg>, bound: nat): (m: int)
    requires bound <= NUM_REGISTERS && forall x | x in vars :: vars[x] < bound
    ensures vars != map[] ==> 0 <= m < bound && exists x :: x in vars && vars[x] == m
    ensures forall x | x in vars :: vars[x] <= m
  {
    if bound == 0 then 0
    else if exists x :: x in vars && vars[x] == bound - 1 then bound - 1
    else MaxReg(vars, bound - 1)
  }

  function FreeTemps(cx: Cx): Cx {
    cx.(nextReg := if cx.vars == map[] then FIRST_REG else MaxReg(cx.vars, NUM_REGISTERS) + 1)
  }

  function NewLabel(cx: Cx, prefix: string): (Symbol, Cx) {
    (Numbered(prefix, cx.labels), cx.(labels := cx.labels + 1))
  }

  // ---- Expressions

  function LoadImm(rd: Reg, value: int): seq<Line> {
    if -0x8000 <= value <= 0x7FFF then [Ins(InsI(MOVI, rd, 0, Num(value)))]
    else
      [Ins(InsU(MOVHI, rd, Num(value / 0x800 % 0x20_0000)))]
      + if value % 0x1_0000 != 0 then [Ins(InsI(ORI, rd, rd, Num(value % 0x1_0000)))] else []
  }

  function ArithmeticOpcode(op: BinaryOp): Opcode
    requires IsArithmetic(op)
  {
    match op
    case Plus => ADD
    case Minus => SUB
    case Times => MUL
    case Divide => DIV
    case Modulo => REM
    case ShiftLeft => SHL
    case ShiftRight => SHR
    case BitAnd => AND
    case BitOr => OR
    case BitXor => XOR
  }

  function RegOp(op: Opcode, rd: Reg, rs1: Reg, rs2: Reg): Line { Ins(InsR(op, rd, rs1, rs2, 0)) }
  function Movi(rd: Reg, v: int): Line { Ins(InsI(MOVI, rd, 0, Num(v))) }
  function LoadWord(rd: Reg, rs1: Reg): Line { Ins(InsI(LW, rd, rs1, Num(0))) }
  function StoreWord(rs2: Reg, rs1: Reg): Line { Ins(InsS(SW, rs2, Num(0), rs1)) }
  function BranchTo(op: Opcode, r: Reg, l: Symbol): Line { Ins(InsB(op, r, 0, Sym(l))) }
  function JumpTo(l: Symbol): Line { Ins(InsJ(JMP, Sym(l))) }

  /** Code that leaves `taken` in rd when `test` jumps to lt, and 1 - taken when it falls through. */
  function Flag(rd: Reg, test: seq<Line>, taken: int, lt: Symbol, le: Symbol): seq<Line> {
    test + [Movi(rd, 1 - taken), JumpTo(le), Mark(lt), Movi(rd, taken), Mark(le)]
  }

  /** The instructions of a comparison, after both operands. */
  function Compare(op: BinaryOp, rd: Reg, rl: Reg, rr: Reg, cx: Cx): (seq<Line>, Cx)
    requires IsComparison(op)
  {
    match op
    case Less => ([RegOp(SLT, rd, rl, rr)], cx)
    case Greater => ([RegOp(SLT, rd, rr, rl)], cx)
    case LessEqual => ([RegOp(SLT, rd, rr, rl), Ins(InsI(XORI, rd, rd, Num(1)))], cx)
    case GreaterEqual => ([RegOp(SLT, rd, rl, rr), Ins(InsI(XORI, rd, rd, Num(1)))], cx)
    case _ =>
      var (lt, cx1) := NewLabel(cx, "CMP_T");
      var (le, cx2) := NewLabel(cx1, "CMP_E");
      (Flag(rd, [RegOp(SUB, FLAGS_TMP, rl, rr), BranchTo(if op.Equal? then BEQ else BNE, FLAGS_TMP, lt)], 1, lt, le),
          cx2)
  }

  function Operate(op: BinaryOp, rd: Reg, rl: Reg, rr: Reg, cx: Cx): (seq<Line>, Cx)
    requires !IsLogical(op)
  {
    if IsArithmetic(op) then ([RegOp(ArithmeticOpcode(op), rd, rl, rr)], cx) else Compare(op, rd, rl, rr, cx)
  }

  function GenVar(cx: Cx, name: string): Option<Gen> {
    if name in cx.layout.globals then
      var (r, cx1) :- AllocTemp(cx);
      Some(Gen(LoadImm(FLAGS_TMP, cx.layout.globals[name]) + [LoadWord(r, FLAGS_TMP)], r, cx1))
    else
      var (r, cx1) :- AllocVar(cx, name);
      Some(Gen([], r, cx1))
  }

  /** A binary operation, into register dest if one is given. */
  function GenBinary(cx: Cx, e: Expr, dest: Option<Reg>): Option<Gen>
    requires e.Binary? && !IsLogical(e.op)
    decreases e, 0
  {
    var l :- GenExpr(cx, e.left);
    var r :- GenExpr(l.cx, e.right);
    var (rd, cx1) :- if dest.Some? then Some((dest.value, r.cx)) else AllocTemp(r.cx);
    var (code, cx2) := Operate(e.op, rd, l.reg, r.reg, cx1);
    Some(Gen(l.code + r.code + code, rd, cx2))
  }

  function GenElementAddr(cx: Cx, name: string, index: Expr): Option<Gen>
    decreases index, 2
  {
    if name !in cx.layout.arrays then None
    else
      var base := cx.layout.arrays[name].0;
      var (ra, cx1) :- AllocTemp(cx);
      if index.IntLiteral? then Some(Gen(LoadImm(ra, base + index.value), ra, cx1))
      else
        var (rb, cx2) :- AllocTemp(cx1);
        var i :- GenExpr(cx2, index);
        Some(Gen(i.code + LoadImm(rb, base) + [RegOp(ADD, ra, rb, i.reg)], ra, i.cx))
  }

  /** The address of name[index], for an array or for a pointer variable. */
  function GenSlot(cx: Cx, name: string, index: Expr): Option<Gen>
    decreases index, 3
  {
    if name in cx.layout.arrays then GenElementAddr(cx, name, index)
    else
      var p :- GenVar(cx, name);
      var i :- GenExpr(p.cx, index);
      var (ra, cx1) :- AllocTemp(i.cx);
      Some(Gen(p.code + i.code + [RegOp(ADD, ra, p.reg, i.reg)], ra, cx1))
  }

  /** && and || with short circuit. */
  function GenLogical(cx: Cx, e: Expr): Option<Gen>
    requires e.Binary? && IsLogical(e.op)
    decreases e, 0
  {
    var conj := e.op.LogicalAnd?;
    var (ls, cx1) := NewLabel(cx, if conj then "AND_FALSE" else "OR_TRUE");
    var (le, cx2) := NewLabel(cx1, if conj then "AND_END" else "OR_END");
    var (rd, cx3) :- AllocTemp(cx2);
    var skip := if conj then BEQ else BNE;
    var l :- GenExpr(cx3, e.left);
    var r :- GenExpr(l.cx, e.right);
    Some(Gen(Flag(rd, l.code + [BranchTo(skip, l.reg, ls)] + r.code + [BranchTo(skip, r.reg, ls)],
                  if conj then 0 else 1, ls, le), rd, r.cx))
  }

  function GenUnary(cx: Cx, op: UnaryOp, operand: Expr): Option<Gen>
    decreases operand, 2
  {
    var e :- GenExpr(cx, operand);
    var (rd, cx1) :- AllocTemp(e.cx);
    match op
    case Negate => Some(Gen(e.code + [RegOp(NEG, rd, e.reg, 0)], rd, cx1))
    case Complement => Some(Gen(e.code + [RegOp(NOT, rd, e.reg, 0)], rd, cx1))
    case LogicalNot =>
      var (lt, cx2) := NewLabel(cx1, "NOT_ONE");
      var (le, cx3) := NewLabel(cx2, "NOT_END");
      Some(Gen(Flag(rd, e.code + [BranchTo(BEQ, e.reg, lt)], 1, lt, le), rd, cx3))
  }

  /** Code for an expression; None stands for a compile error. Calls and strings are not modelled. */
  function GenExpr(cx: Cx, e: Expr): Option<Gen>
    decreases e, 1
  {
    match e
    case IntLiteral(v) =>
      var (r, cx1) :- AllocTemp(cx);
      Some(Gen(LoadImm(r, v), r, cx1))
    case VarRef(n) => GenVar(cx, n)
    case ArrayRef(n, index) =>
      var a :- GenSlot(cx, n, index);
      var (r, cx1) :- AllocTemp(a.cx);
      Some(Gen(a.code + [LoadWord(r, a.reg)], r, cx1))
    case AddrOf(n) =>
      if n !in cx.layout.globals then None
      else
        var (r, cx1) :- AllocTemp(cx);
        Some(Gen(LoadImm(r, cx.layout.globals[n]), r, cx1))
    case AddrOfElement(n, index) => GenElementAddr(cx, n, index)
    case Deref(ptr) =>
      var p :- GenExpr(cx, ptr);
      var (r, cx1) :- AllocTemp(p.cx);
      Some(Gen(p.code + [LoadWord(r, p.reg)], r, cx1))
    case Binary(op, _, _) => if IsLogical(op) then GenLogical(cx, e) else GenBinary(cx, e, None)
    case Unary(op, operand) => GenUnary(cx, op, operand)
    case FuncCall(_, _) => None
    case StringLit(_) => None
  }

  // ---- Statements

  datatype Out = Out(code: seq<Line>, cx: Cx)

  /** `v = value` for a scalar. */
  function GenAssign(cx: Cx, name: string, aop: AssignOp, value: Expr): Option<Out> {
    if name in cx.layout.globals then
      var v :- GenExpr(cx, value);
      var load := LoadImm(FLAGS_TMP, cx.layout.globals[name]);
      if aop.Set? then Some(Out(load + v.code + [StoreWord(v.reg, FLAGS_TMP)], v.cx))
      else if !IsArithmetic(aop.op) then None
      else
        var (rc, cx1) :- AllocTemp(v.cx);
        Some(Out(load + v.code
                 + [LoadWord(rc, FLAGS_TMP), RegOp(ArithmeticOpcode(aop.op), rc, rc, v.reg), StoreWord(rc, FLAGS_TMP)],
                     cx1))
    else
      var (reg, cx1) :- AllocVar(cx, name);
      if aop.Set? then
        if value.Binary? && !IsLogical(value.op) then
          var v :- GenBinary(cx1, value, Some(reg));
          Some(Out(v.code, v.cx))
        else
          var v :- GenExpr(cx1, value);
          Some(Out(v.code + (if v.reg != reg then [RegOp(MOV, reg, v.reg, 0)] else []), v.cx))
      else if !IsArithmetic(aop.op) then None
      else
        var v :- GenExpr(cx1, value);
        Some(Out(v.code + [RegOp(ArithmeticOpcode(aop.op), reg, reg, v.reg)], v.cx))
  }

  /** The store of `*address op= value`, with the address already in register ra. */
  function GenStore(cx: Cx, ra: Reg, aop: AssignOp, value: Expr): Option<Out> {
    var v :- GenExpr(cx, value);
    if aop.Set? then Some(Out(v.code + [StoreWord(v.reg, ra)], v.cx))
    else if !IsArithmetic(aop.op) then None
    else
      var (rc, cx1) :- AllocTemp(v.cx);
      Some(Out(v.code + [LoadWord(rc, ra), RegOp(ArithmeticOpcode(aop.op), rc, rc, v.reg), StoreWord(rc, ra)], cx1))
  }

  /** The stores of an array initialiser from element i on. */
  function GenInits(cx: Cx, base: int, inits: seq<Expr>, i: nat): Option<Out>
    requires i <= |inits|
    decreases |inits| - i
  {
    if i == |inits| then Some(Out([], cx))
    else
      var v :- GenExpr(cx, inits[i]);
      var rest :- GenInits(v.cx, base, inits, i + 1);
      Some(Out(v.code + LoadImm(FLAGS_TMP, base + i) + [StoreWord(v.reg, FLAGS_TMP)] + rest.code, rest.cx))
  }

  function Declare(l: Layout, name: string, size: nat): Layout {
    l.(arrays := l.arrays[name := (l.next, size)], next := l.next + size)
  }

  function Ending(cx: Cx): Line { Ins(InsJ(if cx.main then HLT else RET, Num(0))) }

  function GenReturn(cx: Cx, result: Option<Expr>): Option<Out> {
    if result.None? then Some(Out([Ending(cx)], cx))
    else
      var v :- GenExpr(cx, result.value);
      Some(Out(v.code + (if v.reg != 1 then [RegOp(MOV, 1, v.reg, 0)] else []) + [Ending(cx)], v.cx))
  }

  function GenStmt(cx: Cx, st: Stmt): Option<Out>
    decreases st, 2
  {
    match st
    case VarDecl(name, init) =>
      var (reg, cx1) :- AllocVar(cx, name);
      if init.None? then Some(Out([], FreeTemps(cx1)))
      else
        var v :- GenExpr(cx1, init.value);
        Some(Out(v.code + (if v.reg != reg then [RegOp(MOV, reg, v.reg, 0)] else []), FreeTemps(v.cx)))
    case ArrayDecl(name, size, inits) =>
      var cx1 := cx.(layout := Declare(cx.layout, name, size));
      var o :- GenInits(cx1, cx.layout.next, inits, 0);
      Some(o.(cx := FreeTemps(o.cx)))
    case Assign(name, aop, value) =>
      var o :- GenAssign(cx, name, aop, value);
      Some(o.(cx := FreeTemps(o.cx)))
    case ArrayAssign(name, index, aop, value) =>
      var a :- GenSlot(cx, name, index);
      var o :- GenStore(a.cx, a.reg, aop, value);
      Some(Out(a.code + o.code, FreeTemps(o.cx)))
    case DerefAssign(ptr, aop, value) =>
      var p :- GenExpr(cx, ptr);
      var o :- GenStore(p.cx, p.reg, aop, value);
      Some(Out(p.code + o.code, FreeTemps(o.cx)))
    case If(cond, thenBody, elseBody) => GenIf(cx, cond, thenBody, elseBody)
    case While(cond, body) => GenWhile(cx, cond, body)
    case For(_, _, _, _) => GenFor(cx, st)
    case Return(result) =>
      var o :- GenReturn(cx, result);
      Some(o.(cx := FreeTemps(o.cx)))
    case Break => if cx.loops == [] then None else Some(Out([JumpTo(cx.loops[|cx.loops| - 1].1)], cx))
    case Continue => if cx.loops == [] then None else Some(Out([JumpTo(cx.loops[|cx.loops| - 1].0)], cx))
    case ExprStmt(e) =>
      var v :- GenExpr(cx, e);
      Some(Out(v.code, FreeTemps(v.cx)))
    case Block(stmts) => GenSeq(cx, stmts)
  }

  function GenIf(cx: Cx, cond: Expr, thenBody: seq<Stmt>, elseBody: seq<Stmt>): Option<Out>
    decreases If(cond, thenBody, elseBody), 1
  {
    var (le, cx1) := NewLabel(cx, "ELSE");
    var (ln, cx2) := NewLabel(cx1, "ENDIF");
    GenBranches(cx2, cond, thenBody, elseBody, le, ln)
  }

  function GenBranches(cx: Cx, cond: Expr, thenBody: seq<Stmt>, elseBody: seq<Stmt>, le: Symbol,
      ln: Symbol): Option<Out>
    decreases If(cond, thenBody, elseBody), 0
  {
    var c :- GenTest(cx, Some(cond), le);
    var t :- GenSeq(c.cx, thenBody);
    var e :- GenSeq(t.cx, elseBody);
    Some(Out(c.code + t.code + (if elseBody != [] then [JumpTo(ln)] else []) + [Mark(le)] + e.code + [Mark(ln)], e.cx))
  }

  function GenWhile(cx: Cx, cond: Expr, body: seq<Stmt>): Option<Out>
    decreases While(cond, body), 1
  {
    var (lt, cx1) := NewLabel(cx, "WHILE_TEST");
    var (le, cx2) := NewLabel(cx1, "WHILE_END");
    var l :- GenWhileLoop(cx2.(loops := cx.loops + [(lt, le)]), cond, body, lt, le);
    Some(l.(cx := l.cx.(loops := cx.loops)))
  }

  function GenWhileLoop(cx: Cx, cond: Expr, body: seq<Stmt>, lt: Symbol, le: Symbol): Option<Out>
    decreases While(cond, body), 0
  {
    var c :- GenTest(cx, Some(cond), le);
    var b :- GenSeq(c.cx, body);
    Some(Out([Mark(lt)] + c.code + b.code + [JumpTo(lt), Mark(le)], b.cx))
  }

  function GenFor(cx: Cx, x: Stmt): Option<Out>
    requires x.For?
    decreases x, 1
  {
    var (lt, cx1) := NewLabel(cx, "FOR_TEST");
    var (lu, cx2) := NewLabel(cx1, "FOR_UPD");
    var (le, cx3) := NewLabel(cx2, "FOR_END");
    var i :- GenOptional(cx3, x.forInit);
    var cx4 := i.cx.(loops := cx.loops + [(lu, le)]);
    var l :- GenForLoop(cx4, x, lt, lu, le);
    Some(Out(i.code + l.code, l.cx.(loops := cx.loops)))
  }

  /** A for loop behind its initialiser. */
  function GenForLoop(cx: Cx, x: Stmt, lt: Symbol, lu: Symbol, le: Symbol): Option<Out>
    requires x.For?
    decreases x, 0
  {
    var c :- GenTest(cx, x.forCond, le);
    var b :- GenSeq(c.cx, x.body);
    var u :- GenOptional(b.cx, x.update);
    Some(Out([Mark(lt)] + c.code + b.code + [Mark(lu)] + u.code + [JumpTo(lt), Mark(le)], u.cx))
  }

  /** The initialiser or the update of a for loop, either of which may be missing. */
  function GenOptional(cx: Cx, st: Option<Stmt>): Option<Out>
    decreases st, 0
  {
    if st.Some? then GenStmt(cx, st.value) else Some(Out([], cx))
  }

  /** A condition and the branch that is taken when it is false; a for loop may have none. */
  function GenTest(cx: Cx, cond: Option<Expr>, le: Symbol): Option<Out> {
    if cond.None? then Some(Out([], cx))
    else
      var c :- GenExpr(cx, cond.value);
      Some(Out(c.code + [BranchTo(BEQ, c.reg, le)], c.cx))
  }

  function GenSeq(cx: Cx, stmts: seq<Stmt>): Option<Out>
    decreases stmts, 0
  {
    if stmts == [] then Some(Out([], cx))
    else
      var first :- GenStmt(cx, stmts[0]);
      var rest :- GenSeq(first.cx, stmts[1..]);
      Some(Out(first.code + rest.code, rest.cx))
  }
}
