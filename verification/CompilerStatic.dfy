/** What the code generator keeps at compile time: register discipline and layout. */
module CompilerStatic {
  import opened Isa
  import opened Wrappers
  import opened Ast
  import opened CodeGen

  /** A register that the generator may hand out: not R0, not the scratch R26, not SP or LR. */
  predicate Allocatable(r: int) { 1 <= r <= MAX_REGS && r != 26 }

  /** Every variable has its own register, below the next one to be allocated. */
  ghost predicate Sound(cx: Cx) {
    && FIRST_REG <= cx.nextReg <= MAX_REGS + 1
    && (forall x | x in cx.vars :: Allocatable(cx.vars[x]) && cx.vars[x] < cx.nextReg)
    && (forall x, y | x in cx.vars && y in cx.vars && x != y :: cx.vars[x] != cx.vars[y])
  }

  /** cx' follows cx within one expression: registers are only added, and above the old ones. */
  ghost predicate Extends(cx: Cx, cx': Cx) {
    && Sound(cx') && cx.nextReg <= cx'.nextReg
    && cx'.layout == cx.layout && cx'.loops == cx.loops && cx'.main == cx.main
    && (forall x | x in cx.vars :: x in cx'.vars && cx'.vars[x] == cx.vars[x])
    && (forall x | x in cx'.vars && x !in cx.vars :: cx'.vars[x] >= cx.nextReg)
  }

  ghost predicate Generated(cx: Cx, g: Gen) {
    Extends(cx, g.cx) && Allocatable(g.reg) && g.reg < g.cx.nextReg
    && (g.reg >= cx.nextReg || g.reg in cx.vars.Values)
  }

  lemma TempFacts(cx: Cx)
    requires Sound(cx) && AllocTemp(cx).Some?
    ensures var (r, cx1) := AllocTemp(cx).value; Extends(cx, cx1) && Allocatable(r) && cx.nextReg <= r < cx1.nextReg
  {
  }

  lemma VarFacts(cx: Cx, name: string)
    requires Sound(cx) && AllocVar(cx, name).Some?
    ensures var (r, cx1) := AllocVar(cx, name).value;
            && Extends(cx, cx1) && Allocatable(r) && r < cx1.nextReg && name in cx1.vars && cx1.vars[name] == r
            && (name in cx.vars ==> r == cx.vars[name]) && (name !in cx.vars ==> r >= cx.nextReg)
  {
  }

  lemma GenVarFacts(cx: Cx, name: string)
    requires Sound(cx) && GenVar(cx, name).Some?
    ensures Generated(cx, GenVar(cx, name).value)
  {
    if name in cx.layout.globals { TempFacts(cx); } else { VarFacts(cx, name); }
  }

  lemma ExtendsTrans(cx: Cx, cx1: Cx, cx2: Cx)
    requires Extends(cx, cx1) && Extends(cx1, cx2)
    ensures Extends(cx, cx2)
  {
  }

  lemma OperateFacts(op: BinaryOp, rd: Reg, rl: Reg, rr: Reg, cx: Cx)
    requires !IsLogical(op)
    ensures var cx' := Operate(op, rd, rl, rr, cx).1; cx' == cx.(labels := cx'.labels)
  {
  }

  lemma BinaryFacts(cx: Cx, e: Expr, dest: Option<Reg>)
    requires Sound(cx) && e.Binary? && !IsLogical(e.op) && GenBinary(cx, e, dest).Some?
    requires dest.Some? ==> dest.value in cx.vars.Values
    ensures Generated(cx, GenBinary(cx, e, dest).value)
    ensures dest.Some? ==> GenBinary(cx, e, dest).value.reg == dest.value
    decreases e, 0
  {
    ExprFacts(cx, e.left);
    var l := GenExpr(cx, e.left).value;
    ExprFacts(l.cx, e.right);
    var r := GenExpr(l.cx, e.right).value;
    if dest.None? { TempFacts(r.cx); }
    var (rd, cx1) := if dest.Some? then (dest.value, r.cx) else AllocTemp(r.cx).value;
    OperateFacts(e.op, rd, l.reg, r.reg, cx1);
  }

  lemma ElementFacts(cx: Cx, name: string, index: Expr)
    requires Sound(cx) && GenElementAddr(cx, name, index).Some?
    ensures Generated(cx, GenElementAddr(cx, name, index).value)
    decreases index, 2
  {
    TempFacts(cx);
    if !index.IntLiteral? {
      var cx1 := AllocTemp(cx).value.1;
      TempFacts(cx1);
      ExprFacts(AllocTemp(cx1).value.1, index);
    }
  }

  lemma SlotFacts(cx: Cx, name: string, index: Expr)
    requires Sound(cx) && GenSlot(cx, name, index).Some?
    ensures Generated(cx, GenSlot(cx, name, index).value)
    decreases index, 3
  {
    if name in cx.layout.arrays {
      ElementFacts(cx, name, index);
    } else {
      GenVarFacts(cx, name);
      var p := GenVar(cx, name).value;
      ExprFacts(p.cx, index);
      TempFacts(GenExpr(p.cx, index).value.cx);
    }
  }

  /** Extends says nothing about labels, and orders the next registers. */
  lemma ExtendsLabels(cx: Cx, labels: nat, cx': Cx)
    requires Extends(cx.(labels := labels), cx')
    ensures Extends(cx, cx') && cx.nextReg <= cx'.nextReg
  {
  }

  lemma LogicalFacts(cx: Cx, e: Expr)
    requires Sound(cx) && e.Binary? && IsLogical(e.op) && GenLogical(cx, e).Some?
    ensures Generated(cx, GenLogical(cx, e).value)
    decreases e, 0
  {
    var cx2 := cx.(labels := cx.labels + 2);
    assert Sound(cx2);
    hide GenExpr, Flag, Sound, Extends, FreeReg;
    TempFacts(cx2);
    var cx3 := AllocTemp(cx2).value.1;
    SoundAfter(cx2, cx3);
    ExprFacts(cx3, e.left);
    var l := GenExpr(cx3, e.left).value;
    SoundAfter(cx3, l.cx);
    ExprFacts(l.cx, e.right);
    var r := GenExpr(l.cx, e.right).value;
    SoundAfter(l.cx, r.cx);
    ExtendsTrans(cx2, cx3, l.cx);
    ExtendsTrans(cx2, l.cx, r.cx);
    ExtendsLabels(cx, cx.labels + 2, r.cx);
  }

  lemma SoundAfter(cx: Cx, cx': Cx)
    requires Extends(cx, cx')
    ensures Sound(cx') && cx.nextReg <= cx'.nextReg
  {
  }

  lemma UnaryFacts(cx: Cx, op: UnaryOp, operand: Expr)
    requires Sound(cx) && GenUnary(cx, op, operand).Some?
    ensures Generated(cx, GenUnary(cx, op, operand).value)
    decreases operand, 2
  {
    ExprFacts(cx, operand);
    TempFacts(GenExpr(cx, operand).value.cx);
  }

  /** Every expression's code returns a usable register and only adds to the context. */
  lemma {:induction false} ExprFacts(cx: Cx, e: Expr)
    requires Sound(cx) && GenExpr(cx, e).Some?
    ensures Generated(cx, GenExpr(cx, e).value)
    decreases e, 1
  {
    hide GenBinary, GenLogical, GenUnary, GenSlot, GenElementAddr, GenVar, LoadImm, Flag, FreeReg, Sound;
    match e
    case IntLiteral(_) => TempFacts(cx);
    case VarRef(n) => GenVarFacts(cx, n);
    case ArrayRef(n, index) =>
      SlotFacts(cx, n, index);
      TempFacts(GenSlot(cx, n, index).value.cx);
    case AddrOf(_) => TempFacts(cx);
    case AddrOfElement(n, index) => ElementFacts(cx, n, index);
    case Deref(ptr) =>
      ExprFacts(cx, ptr);
      TempFacts(GenExpr(cx, ptr).value.cx);
    case Binary(op, _, _) => if IsLogical(op) { LogicalFacts(cx, e); } else { BinaryFacts(cx, e, None); }
    case Unary(op, operand) => UnaryFacts(cx, op, operand);
    case FuncCall(_, _) =>
    case StringLit(_) =>
  }

  // ---- The same facts without their quantifiers

  ghost predicate Ordered(cx: Cx, g: Gen) {
    && Sound(g.cx) && FIRST_REG <= cx.nextReg <= g.cx.nextReg <= MAX_REGS + 1
    && g.cx.layout == cx.layout && Allocatable(g.reg) && g.reg < g.cx.nextReg
    && (g.reg >= cx.nextReg || g.reg in cx.vars.Values)
  }

  lemma VarBelow(cx: Cx, r: Reg)
    requires Sound(cx) && r in cx.vars.Values
    ensures Allocatable(r) && r < cx.nextReg
  {
  }

  lemma ExprOrder(cx: Cx, e: Expr)
    requires Sound(cx) && GenExpr(cx, e).Some?
    ensures Ordered(cx, GenExpr(cx, e).value) && Generated(cx, GenExpr(cx, e).value)
  {
    hide GenExpr;
    ExprFacts(cx, e);
  }

  lemma GenVarOrder(cx: Cx, name: string)
    requires Sound(cx) && GenVar(cx, name).Some?
    ensures Ordered(cx, GenVar(cx, name).value) && Generated(cx, GenVar(cx, name).value)
  {
    GenVarFacts(cx, name);
  }

  lemma SlotOrder(cx: Cx, name: string, index: Expr)
    requires Sound(cx) && GenSlot(cx, name, index).Some?
    ensures Ordered(cx, GenSlot(cx, name, index).value) && Generated(cx, GenSlot(cx, name, index).value)
  {
    hide GenSlot;
    SlotFacts(cx, name, index);
  }

  lemma TempOrder(cx: Cx)
    requires Sound(cx) && AllocTemp(cx).Some?
    ensures var (r, cx1) := AllocTemp(cx).value;
            && Sound(cx1) && cx1.layout == cx.layout && cx1.vars == cx.vars && Allocatable(r)
            && FIRST_REG <= cx.nextReg <= r < cx1.nextReg <= MAX_REGS + 1
  {
    TempFacts(cx);
  }

  lemma LabelsOrder(cx: Cx, labels: nat)
    requires Sound(cx)
    ensures Sound(cx.(labels := labels))
  {
  }
}
