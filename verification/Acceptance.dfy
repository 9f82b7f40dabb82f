/** Which programs the code generator accepts: what may stand in them, and how many registers they need. */
module Acceptance {
  import opened Isa
  import opened Wrappers
  import opened Ast
  import opened Assembly
  import opened CodeGen
  import opened Semantics
  import opened CompilerStatic
  import opened Programs

  // ---- Counting registers on the tree

  /** R2 to R29 without the scratch register R26. */
  const REGISTERS := 27

  /** The variables met so far, the registers taken, the registers up to the highest variable's, and the most that were
      ever taken. */
  datatype Use = Use(known: set<string>, taken: nat, top: nat, peak: nat)

  predicate Fits(u: Use) { u.peak <= REGISTERS }

  function Larger(x: nat, y: nat): nat { if x < y then y else x }

  function Temp(u: Use): (r: Use)
    ensures r.peak >= u.peak
  {
    u.(taken := u.taken + 1, peak := Larger(u.peak, u.taken + 1))
  }

  /** A variable gets a register when it is first met, and keeps it. */
  function Variable(u: Use, name: string): (r: Use)
    ensures r.peak >= u.peak
  {
    if name in u.known then u else Temp(u).(known := u.known + {name}, top := u.taken + 1)
  }

  /** At the end of a statement all registers above the variables' are free again. */
  function Free(u: Use): Use { u.(taken := u.top) }

  function UseName(l: Layout, name: string, u: Use): (r: Use)
    ensures r.peak >= u.peak
  {
    if name in l.globals then Temp(u) else Variable(u, name)
  }

  function UseElement(l: Layout, index: Expr, u: Use): (r: Use)
    ensures r.peak >= u.peak
    decreases index, 1
  {
    if index.IntLiteral? then Temp(u) else UseExpr(l, index, Temp(Temp(u)))
  }

  function UseSlot(l: Layout, name: string, index: Expr, u: Use): (r: Use)
    ensures r.peak >= u.peak
    decreases index, 2
  {
    if name in l.arrays then UseElement(l, index, u) else Temp(UseExpr(l, index, UseName(l, name, u)))
  }

  function UseExpr(l: Layout, e: Expr, u: Use): (r: Use)
    ensures r.peak >= u.peak
    decreases e, 0
  {
    match e
    case VarRef(n) => UseName(l, n, u)
    case ArrayRef(n, index) => Temp(UseSlot(l, n, index, u))
    case AddrOfElement(n, index) => UseElement(l, index, u)
    case Deref(ptr) => Temp(UseExpr(l, ptr, u))
    case Unary(_, operand) => Temp(UseExpr(l, operand, u))
    case Binary(op, left, right) =>
      if IsLogical(op) then UseExpr(l, right, UseExpr(l, left, Temp(u)))
          else Temp(UseExpr(l, right, UseExpr(l, left, u)))
    case _ => Temp(u)
  }

  // ---- What may stand in a program

  /** No call and no string; addresses are taken of globals and of elements of arrays only. */
  predicate PlainExpr(l: Layout, e: Expr)
    decreases e
  {
    match e
    case IntLiteral(_) => true
    case VarRef(_) => true
    case AddrOf(n) => n in l.globals
    case ArrayRef(_, index) => PlainExpr(l, index)
    case AddrOfElement(n, index) => n in l.arrays && PlainExpr(l, index)
    case Deref(ptr) => PlainExpr(l, ptr)
    case Unary(_, operand) => PlainExpr(l, operand)
    case Binary(_, left, right) => PlainExpr(l, left) && PlainExpr(l, right)
    case FuncCall(_, _) => false
    case StringLit(_) => false
  }

  // ---- The generator keeps these counts

  /** How many registers are below the next one. */
  function Taken(next: nat): nat
    requires next >= FIRST_REG
  {
    if next <= 26 then next - 2 else next - 3
  }

  ghost predicate Tracks(cx: Cx, u: Use) {
    && Sound(cx) && u.known == cx.vars.Keys && u.taken == Taken(cx.nextReg) && u.taken <= u.peak && Fits(u)
    && (forall x | x in cx.vars :: Taken(cx.vars[x] + 1) <= u.top)
    && (if cx.vars == map[] then u.top == 0 else exists x :: x in cx.vars && Taken(cx.vars[x] + 1) == u.top)
  }

  /** Tracks looks at variables and the next register only. */
  lemma TracksSame(cx: Cx, cx': Cx, u: Use)
    requires Tracks(cx, u) && cx'.vars == cx.vars && cx'.nextReg == cx.nextReg
    ensures Tracks(cx', u)
  {
  }

  predicate SameFrame(cx: Cx, cx': Cx) { cx'.layout == cx.layout && cx'.loops == cx.loops && cx'.main == cx.main }

  lemma AcceptTemp(cx: Cx, u: Use)
    requires Tracks(cx, u)
    ensures AllocTemp(cx).Some? <==> Fits(Temp(u))
    ensures AllocTemp(cx).Some? ==> Tracks(AllocTemp(cx).value.1, Temp(u)) && SameFrame(cx, AllocTemp(cx).value.1)
  {
  }

  lemma AcceptVariable(cx: Cx, name: string, u: Use)
    requires Tracks(cx, u)
    ensures AllocVar(cx, name).Some? <==> Fits(Variable(u, name))
    ensures AllocVar(cx, name).Some? ==>
              Tracks(AllocVar(cx, name).value.1, Variable(u, name)) && SameFrame(cx, AllocVar(cx, name).value.1)
  {
    NextRegister(cx, u);
    if name !in cx.vars && FreeReg(cx).Some? { NewVariable(cx, name, u); }
    hide Tracks, Temp;
    KnownNames(cx, u);
  }

  lemma KnownNames(cx: Cx, u: Use)
    requires Tracks(cx, u)
    ensures u.known == cx.vars.Keys && Fits(u)
  {
  }

  lemma NextRegister(cx: Cx, u: Use)
    requires Tracks(cx, u)
    ensures FreeReg(cx).Some? <==> Fits(Temp(u))
    ensures FreeReg(cx).Some? ==> var r := FreeReg(cx).value;
              Allocatable(r) && Taken(r + 1) == u.taken + 1 && r >= cx.nextReg
  {
  }

  lemma NewVariable(cx: Cx, name: string, u: Use)
    requires Tracks(cx, u) && name !in cx.vars && FreeReg(cx).Some?
    ensures Tracks(AllocVar(cx, name).value.1, Variable(u, name))
  {
    NextRegister(cx, u);
    VarFacts(cx, name);
    var cx1 := AllocVar(cx, name).value.1;
    hide FreeReg, Allocatable, Extends;
    assert cx1.vars[name] == FreeReg(cx).value;
    forall x | x in cx.vars ensures Taken(cx.vars[x] + 1) <= u.taken { assert cx.vars[x] < cx.nextReg; }
  }

  /** The generator's answer is a success exactly when ok holds and the registers suffice, and then keeps the count. */
  ghost predicate Answers(cx: Cx, g: Option<Gen>, ok: bool, u: Use) {
    (g.Some? <==> ok && Fits(u)) && (g.Some? ==> Tracks(g.value.cx, u) && SameFrame(cx, g.value.cx))
  }

  lemma AcceptName(cx: Cx, name: string, u: Use)
    requires Tracks(cx, u)
    ensures Answers(cx, GenVar(cx, name), true, UseName(cx.layout, name, u))
  {
    hide Tracks;
    AcceptTemp(cx, u);
    AcceptVariable(cx, name, u);
  }

  lemma AcceptElement(cx: Cx, name: string, index: Expr, u: Use)
    requires Tracks(cx, u)
    ensures Answers(cx, GenElementAddr(cx, name, index), name in cx.layout.arrays && PlainExpr(cx.layout, index),
            UseElement(cx.layout, index, u))
    decreases index, 3
  {
    hide Tracks, Temp, Fits, PlainExpr, AllocTemp;
    AcceptTemp(cx, u);
    LiteralIsPlain(cx.layout, index);
    if !index.IntLiteral? && AllocTemp(cx).Some? {
      var cx1 := AllocTemp(cx).value.1;
      AcceptTemp(cx1, Temp(u));
      if AllocTemp(cx1).Some? { AcceptExpr(AllocTemp(cx1).value.1, index, Temp(Temp(u))); }
    }
    Grows(Temp(u), UseElement(cx.layout, index, u));
    Grows(Temp(Temp(u)), UseElement(cx.layout, index, u));
  }

  lemma LiteralIsPlain(l: Layout, e: Expr)
    ensures e.IntLiteral? ==> PlainExpr(l, e)
  {
  }

  /** What does not fit does not fit later. */
  lemma Grows(u: Use, r: Use)
    ensures u.peak <= r.peak && Fits(r) ==> Fits(u)
  {
  }

  /** One more register behind a result. */
  lemma TempAfter(cx: Cx, g: Option<Gen>, ok: bool, u: Use)
    requires Answers(cx, g, ok, u)
    ensures g.Some? && AllocTemp(g.value.cx).Some? <==> ok && Fits(Temp(u))
    ensures g.Some? && AllocTemp(g.value.cx).Some? ==>
              Tracks(AllocTemp(g.value.cx).value.1, Temp(u)) && SameFrame(cx, AllocTemp(g.value.cx).value.1)
  {
    hide Tracks, Temp, Fits, AllocTemp;
    Grows(u, Temp(u));
    if g.Some? { AcceptTemp(g.value.cx, u); }
  }

  lemma AcceptSlot(cx: Cx, name: string, index: Expr, u: Use)
    requires Tracks(cx, u)
    ensures Answers(cx, GenSlot(cx, name, index), PlainExpr(cx.layout, index), UseSlot(cx.layout, name, index, u))
    decreases index, 4
  {
    hide Tracks, Temp, Fits, PlainExpr, AllocTemp, GenVar, GenElementAddr, GenExpr, UseExpr, UseElement;
    if name in cx.layout.arrays {
      AcceptElement(cx, name, index, u);
    } else {
      AcceptName(cx, name, u);
      var u1 := UseName(cx.layout, name, u);
      Grows(u1, UseExpr(cx.layout, index, u1));
      Grows(UseExpr(cx.layout, index, u1), Temp(UseExpr(cx.layout, index, u1)));
      if GenVar(cx, name).Some? {
        var p := GenVar(cx, name).value;
        AcceptExpr(p.cx, index, u1);
        TempAfter(p.cx, GenExpr(p.cx, index), PlainExpr(cx.layout, index), UseExpr(cx.layout, index, u1));
      }
    }
  }

  function UseOperands(l: Layout, e: Expr, u: Use): (r: Use)
    requires e.Binary?
    ensures r.peak >= u.peak
  {
    UseExpr(l, e.right, UseExpr(l, e.left, u))
  }

  /** Code for the second operand, behind that for the first. */
  function GenOperands(cx: Cx, e: Expr): Option<Gen>
    requires e.Binary?
  {
    var l :- GenExpr(cx, e.left);
    GenExpr(l.cx, e.right)
  }

  lemma AcceptOperands(cx: Cx, e: Expr, u: Use)
    requires Tracks(cx, u) && e.Binary?
    ensures Answers(cx, GenOperands(cx, e), PlainExpr(cx.layout, e), UseOperands(cx.layout, e, u))
    decreases e, 0
  {
    PlainOperands(cx.layout, e);
    hide Tracks, Fits, PlainExpr, GenExpr, UseExpr;
    AcceptExpr(cx, e.left, u);
    var u1 := UseExpr(cx.layout, e.left, u);
    Grows(u1, UseExpr(cx.layout, e.right, u1));
    if GenExpr(cx, e.left).Some? { AcceptExpr(GenExpr(cx, e.left).value.cx, e.right, u1); }
  }

  lemma PlainOperands(l: Layout, e: Expr)
    ensures e.Binary? ==> (PlainExpr(l, e) <==> PlainExpr(l, e.left) && PlainExpr(l, e.right))
  {
  }

  /** A result in a register of its own, or in a given one. */
  lemma AcceptBinary(cx: Cx, e: Expr, dest: Option<Reg>, u: Use)
    requires Tracks(cx, u) && e.Binary? && !IsLogical(e.op)
    ensures var v := UseOperands(cx.layout, e, u);
            Answers(cx, GenBinary(cx, e, dest), PlainExpr(cx.layout, e), if dest.Some? then v else Temp(v))
    decreases e, 1
  {
    var v := UseOperands(cx.layout, e, u);
    AcceptOperands(cx, e, u);
    TempAfter(cx, GenOperands(cx, e), PlainExpr(cx.layout, e), v);
    BinaryParts(cx, e, dest);
    var g := GenBinary(cx, e, dest);
    hide Tracks, Temp, Fits, PlainExpr, AllocTemp, GenBinary, GenOperands, UseOperands;
    if g.Some? {
      var o := GenOperands(cx, e).value;
      var cx1 := if dest.Some? then o.cx else AllocTemp(o.cx).value.1;
      TracksSame(cx1, g.value.cx, if dest.Some? then v else Temp(v));
    }
  }

  lemma BinaryParts(cx: Cx, e: Expr, dest: Option<Reg>)
    requires e.Binary? && !IsLogical(e.op)
    ensures var o, g := GenOperands(cx, e), GenBinary(cx, e, dest);
            && (g.Some? <==> o.Some? && (dest.None? ==> AllocTemp(o.value.cx).Some?))
            && (g.Some? ==>
                  var cx1 := if dest.Some? then o.value.cx else AllocTemp(o.value.cx).value.1;
                  g.value.cx == cx1.(labels := g.value.cx.labels))
  {
    hide GenExpr, AllocTemp, Operate;
    if GenBinary(cx, e, dest).Some? {
      var l := GenExpr(cx, e.left).value;
      var r := GenExpr(l.cx, e.right).value;
      var (rd, cx1) := if dest.Some? then (dest.value, r.cx) else AllocTemp(r.cx).value;
      OperateFacts(e.op, rd, l.reg, r.reg, cx1);
    }
  }

  /** && and || take the register of the result first. */
  lemma AcceptLogical(cx: Cx, e: Expr, u: Use)
    requires Tracks(cx, u) && e.Binary? && IsLogical(e.op)
    ensures Answers(cx, GenLogical(cx, e), PlainExpr(cx.layout, e), UseOperands(cx.layout, e, Temp(u)))
    decreases e, 1
  {
    var cx2 := cx.(labels := cx.labels + 2);
    TracksSame(cx, cx2, u);
    AcceptTemp(cx2, u);
    LogicalParts(cx, e);
    Grows(Temp(u), UseOperands(cx.layout, e, Temp(u)));
    hide Tracks, Temp, Fits, PlainExpr, AllocTemp, GenLogical, GenOperands, UseOperands;
    if AllocTemp(cx2).Some? { AcceptOperands(AllocTemp(cx2).value.1, e, Temp(u)); }
  }

  lemma LogicalParts(cx: Cx, e: Expr)
    requires e.Binary? && IsLogical(e.op)
    ensures var r, g := AllocTemp(cx.(labels := cx.labels + 2)), GenLogical(cx, e);
            && (g.Some? <==> r.Some? && GenOperands(r.value.1, e).Some?)
            && (g.Some? ==> g.value.cx == GenOperands(r.value.1, e).value.cx)
  {
    hide GenExpr, AllocTemp, Flag;
  }

  lemma AcceptUnary(cx: Cx, e: Expr, u: Use)
    requires Tracks(cx, u) && e.Unary?
    ensures Answers(cx, GenExpr(cx, e), PlainExpr(cx.layout, e), UseExpr(cx.layout, e, u))
    decreases e, 1
  {
    AcceptExpr(cx, e.operand, u);
    var v := UseExpr(cx.layout, e.operand, u);
    TempAfter(cx, GenExpr(cx, e.operand), PlainExpr(cx.layout, e.operand), v);
    UnaryParts(cx, e);
    PlainUnary(cx.layout, e, u);
    hide Tracks, Temp, Fits, PlainExpr, AllocTemp, GenExpr, UseExpr;
    if GenExpr(cx, e).Some? {
      TracksSame(AllocTemp(GenExpr(cx, e.operand).value.cx).value.1, GenExpr(cx, e).value.cx, Temp(v));
    }
  }

  lemma UnaryParts(cx: Cx, e: Expr)
    requires e.Unary?
    ensures var o, g := GenExpr(cx, e.operand), GenExpr(cx, e);
            && (g.Some? <==> o.Some? && AllocTemp(o.value.cx).Some?)
            && (g.Some? ==> var cx1 := AllocTemp(o.value.cx).value.1; g.value.cx == cx1.(labels := g.value.cx.labels))
  {
    hide AllocTemp, Flag;
  }

  lemma PlainUnary(l: Layout, e: Expr, u: Use)
    requires e.Unary? || e.Deref?
    ensures var x := if e.Unary? then e.operand else e.ptr;
            (PlainExpr(l, e) <==> PlainExpr(l, x)) && UseExpr(l, e, u) == Temp(UseExpr(l, x, u))
  {
    hide Temp;
  }

  lemma AcceptDeref(cx: Cx, e: Expr, u: Use)
    requires Tracks(cx, u) && e.Deref?
    ensures Answers(cx, GenExpr(cx, e), PlainExpr(cx.layout, e), UseExpr(cx.layout, e, u))
    decreases e, 1
  {
    AcceptExpr(cx, e.ptr, u);
    var v := UseExpr(cx.layout, e.ptr, u);
    TempAfter(cx, GenExpr(cx, e.ptr), PlainExpr(cx.layout, e.ptr), v);
    PlainUnary(cx.layout, e, u);
    hide Tracks, Temp, Fits, PlainExpr, AllocTemp, UseExpr;
  }

  lemma AcceptArray(cx: Cx, e: Expr, name: string, index: Expr, u: Use)
    requires Tracks(cx, u) && e == ArrayRef(name, index)
    ensures Answers(cx, GenExpr(cx, e), PlainExpr(cx.layout, e), UseExpr(cx.layout, e, u))
    decreases e, 1
  {
    AcceptSlot(cx, name, index, u);
    TempAfter(cx, GenSlot(cx, name, index), PlainExpr(cx.layout, index), UseSlot(cx.layout, name, index, u));
    assert PlainExpr(cx.layout, e) == PlainExpr(cx.layout, index);
    hide Tracks, Temp, Fits, PlainExpr, AllocTemp, GenSlot, UseSlot;
  }

  lemma AcceptLeaf(cx: Cx, e: Expr, u: Use)
    requires Tracks(cx, u) && (e.IntLiteral? || e.AddrOf? || e.FuncCall? || e.StringLit?)
    ensures Answers(cx, GenExpr(cx, e), PlainExpr(cx.layout, e), UseExpr(cx.layout, e, u))
  {
    AcceptTemp(cx, u);
    hide Tracks, Temp, Fits, AllocTemp;
  }

  /** An expression is accepted exactly when it is plain and its registers suffice. */
  lemma {:induction false} AcceptExpr(cx: Cx, e: Expr, u: Use)
    requires Tracks(cx, u)
    ensures Answers(cx, GenExpr(cx, e), PlainExpr(cx.layout, e), UseExpr(cx.layout, e, u))
    decreases e, 2
  {
    hide Tracks, Temp, Fits, AllocTemp, Answers, GenVar, GenElementAddr, GenSlot, GenBinary, GenLogical, UseElement,
      UseName;
    match e
    case VarRef(n) => AcceptName(cx, n, u);
    case ArrayRef(n, index) => AcceptArray(cx, e, n, index, u);
    case AddrOfElement(n, index) => AcceptElement(cx, n, index, u);
    case Deref(_) => AcceptDeref(cx, e, u);
    case Binary(op, _, _) => if IsLogical(op) { AcceptLogical(cx, e, u); } else { AcceptBinary(cx, e, None, u); }
    case Unary(_, _) => AcceptUnary(cx, e, u);
    case _ => AcceptLeaf(cx, e, u);
  }

  // ---- Statements

  function UseOptionalExpr(l: Layout, e: Option<Expr>, u: Use): (r: Use)
    ensures r.peak >= u.peak
  {
    if e.Some? then UseExpr(l, e.value, u) else u
  }

  /** The value of an assignment, and for `op=` the old value. */
  function UseValue(l: Layout, aop: AssignOp, value: Expr, u: Use): (r: Use)
    ensures r.peak >= u.peak
  {
    if aop.Set? then UseExpr(l, value, u) else Temp(UseExpr(l, value, u))
  }

  /** A local variable takes the result of an operator directly. */
  function UseAssign(l: Layout, name: string, aop: AssignOp, value: Expr, u: Use): (r: Use)
    ensures r.peak >= u.peak
  {
    if name in l.globals then UseValue(l, aop, value, u)
    else if aop.Set? && value.Binary? && !IsLogical(value.op) then UseOperands(l, value, Variable(u, name))
    else UseExpr(l, value, Variable(u, name))
  }

  function UseInits(l: Layout, inits: seq<Expr>, i: nat, u: Use): (r: Use)
    requires i <= |inits|
    ensures r.peak >= u.peak
    decreases |inits| - i
  {
    if i == |inits| then u else UseInits(l, inits, i + 1, UseExpr(l, inits[i], u))
  }

  function UseStmt(l: Layout, s: Stmt, u: Use): (r: Use)
    ensures r.peak >= u.peak
    decreases s, 1
  {
    match s
    case VarDecl(name, init) => Free(UseOptionalExpr(l, init, Variable(u, name)))
    case ArrayDecl(name, size, inits) => Free(UseInits(Declare(l, name, size), inits, 0, u))
    case Assign(name, aop, value) => Free(UseAssign(l, name, aop, value, u))
    case ArrayAssign(name, index, aop, value) => Free(UseValue(l, aop, value, UseSlot(l, name, index, u)))
    case DerefAssign(ptr, aop, value) => Free(UseValue(l, aop, value, UseExpr(l, ptr, u)))
    case If(cond, thenBody, elseBody) => UseSeq(AfterSeq(l, thenBody), elseBody,
        UseSeq(l, thenBody, UseExpr(l, cond, u)))
    case While(cond, body) => UseSeq(l, body, UseExpr(l, cond, u))
    case For(init, cond, update, body) =>
      var u1 := if init.Some? then UseStmt(l, init.value, u) else u;
      var l1 := if init.Some? then After(l, init.value) else l;
      var u2 := UseSeq(l1, body, UseOptionalExpr(l1, cond, u1));
      if update.Some? then UseStmt(AfterSeq(l1, body), update.value, u2) else u2
    case Return(result) => Free(UseOptionalExpr(l, result, u))
    case ExprStmt(e) => Free(UseExpr(l, e, u))
    case Block(stmts) => UseSeq(l, stmts, u)
    case _ => u
  }

  function UseSeq(l: Layout, stmts: seq<Stmt>, u: Use): (r: Use)
    ensures r.peak >= u.peak
    decreases stmts, 0
  {
    if stmts == [] then u else UseSeq(After(l, stmts[0]), stmts[1..], UseStmt(l, stmts[0], u))
  }

  predicate PlainOption(l: Layout, e: Option<Expr>) { e.Some? ==> PlainExpr(l, e.value) }

  /** `op=` takes the arithmetic operators only. */
  predicate PlainOp(aop: AssignOp) { aop.Compound? ==> IsArithmetic(aop.op) }

  /** Plain expressions everywhere, and break and continue inside loops only. */
  predicate PlainStmt(l: Layout, inLoop: bool, s: Stmt)
    decreases s, 1
  {
    match s
    case VarDecl(_, init) => PlainOption(l, init)
    case ArrayDecl(name, size, inits) => forall i :: 0 <= i < |inits| ==> PlainExpr(Declare(l, name, size), inits[i])
    case Assign(_, aop, value) => PlainExpr(l, value) && PlainOp(aop)
    case ArrayAssign(_, index, aop, value) => PlainExpr(l, index) && PlainExpr(l, value) && PlainOp(aop)
    case DerefAssign(ptr, aop, value) => PlainExpr(l, ptr) && PlainExpr(l, value) && PlainOp(aop)
    case If(cond, thenBody, elseBody) =>
      PlainExpr(l, cond) && PlainSeq(l, inLoop, thenBody) && PlainSeq(AfterSeq(l, thenBody), inLoop, elseBody)
    case While(cond, body) => PlainExpr(l, cond) && PlainSeq(l, true, body)
    case For(init, cond, update, body) =>
      var l1 := if init.Some? then After(l, init.value) else l;
      && (init.Some? ==> PlainStmt(l, inLoop, init.value)) && PlainOption(l1, cond) && PlainSeq(l1, true, body)
      && (update.Some? ==> PlainStmt(AfterSeq(l1, body), true, update.value))
    case Return(result) => PlainOption(l, result)
    case Break => inLoop
    case Continue => inLoop
    case ExprStmt(e) => PlainExpr(l, e)
    case Block(stmts) => PlainSeq(l, inLoop, stmts)
  }

  predicate PlainSeq(l: Layout, inLoop: bool, stmts: seq<Stmt>)
    decreases stmts, 0
  {
    stmts != [] ==> PlainStmt(l, inLoop, stmts[0]) && PlainSeq(After(l, stmts[0]), inLoop, stmts[1..])
  }

  /** The same for statements; the layout is then l. */
  ghost predicate Emits(cx: Cx, o: Option<Out>, ok: bool, u: Use, l: Layout) {
    && (o.Some? <==> ok && Fits(u))
    && (o.Some? ==>
         Tracks(o.value.cx, u) && o.value.cx.layout == l && o.value.cx.loops == cx.loops && o.value.cx.main == cx.main)
  }

  lemma AcceptFree(cx: Cx, u: Use)
    requires Tracks(cx, u)
    ensures Tracks(FreeTemps(cx), Free(u)) && SameFrame(cx, FreeTemps(cx))
  {
    FreeKeeps(cx, u);
  }

  lemma FreeKeeps(cx: Cx, u: Use)
    requires Tracks(cx, u)
    ensures Sound(FreeTemps(cx)) && Taken(FreeTemps(cx).nextReg) == u.top <= u.taken
  {
    if cx.vars != map[] {
      var m := MaxReg(cx.vars, NUM_REGISTERS);
      var x :| x in cx.vars && cx.vars[x] == m;
      var y :| y in cx.vars && Taken(cx.vars[y] + 1) == u.top;
      assert cx.vars[y] <= m;
      TakenOrder(cx.vars[y] + 1, m + 1);
      TakenOrder(m + 1, cx.nextReg);
    }
  }

  lemma TakenOrder(m: nat, n: nat)
    requires FIRST_REG <= m <= n
    ensures Taken(m) <= Taken(n)
  {
  }

  lemma AcceptValue(cx: Cx, ra: Reg, aop: AssignOp, value: Expr, u: Use)
    requires Tracks(cx, u)
    ensures Emits(cx, GenStore(cx, ra, aop, value), PlainExpr(cx.layout, value) && PlainOp(aop),
            UseValue(cx.layout, aop, value, u), cx.layout)
  {
    hide Tracks, Temp, Fits, AllocTemp, GenExpr, UseExpr, PlainExpr;
    AcceptExpr(cx, value, u);
    TempAfter(cx, GenExpr(cx, value), PlainExpr(cx.layout, value), UseExpr(cx.layout, value, u));
  }

  lemma AcceptAssign(cx: Cx, name: string, aop: AssignOp, value: Expr, u: Use)
    requires Tracks(cx, u)
    ensures Emits(cx, GenAssign(cx, name, aop, value), PlainExpr(cx.layout, value) && PlainOp(aop),
                  UseAssign(cx.layout, name, aop, value, u), cx.layout)
  {
    hide Tracks, Temp, Fits, AllocTemp, AllocVar, GenExpr, GenBinary, UseExpr, UseOperands, PlainExpr, Variable,
      LoadImm;
    if name in cx.layout.globals {
      AcceptExpr(cx, value, u);
      TempAfter(cx, GenExpr(cx, value), PlainExpr(cx.layout, value), UseExpr(cx.layout, value, u));
    } else {
      AcceptVariable(cx, name, u);
      var u1 := Variable(u, name);
      Grows(u1, UseAssign(cx.layout, name, aop, value, u));
      if AllocVar(cx, name).Some? {
        var (reg, cx1) := AllocVar(cx, name).value;
        AcceptExpr(cx1, value, u1);
        if value.Binary? && !IsLogical(value.op) { AcceptBinary(cx1, value, Some(reg), u1); }
      }
    }
  }

  lemma {:induction false} AcceptInits(cx: Cx, base: int, inits: seq<Expr>, i: nat, u: Use)
    requires Tracks(cx, u) && i <= |inits|
    ensures Emits(cx, GenInits(cx, base, inits, i), forall k :: i <= k < |inits| ==> PlainExpr(cx.layout, inits[k]),
                  UseInits(cx.layout, inits, i, u), cx.layout)
    decreases |inits| - i
  {
    hide Tracks, Fits, GenExpr, UseExpr, PlainExpr, LoadImm;
    if i < |inits| {
      AcceptExpr(cx, inits[i], u);
      var u1 := UseExpr(cx.layout, inits[i], u);
      Grows(u1, UseInits(cx.layout, inits, i + 1, u1));
      if GenExpr(cx, inits[i]).Some? { AcceptInits(GenExpr(cx, inits[i]).value.cx, base, inits, i + 1, u1); }
    } else {
      NowFits(cx, u);
    }
  }

  lemma NowFits(cx: Cx, u: Use)
    requires Tracks(cx, u)
    ensures Fits(u)
  {
  }

  lemma AcceptTest(cx: Cx, cond: Option<Expr>, le: Symbol, u: Use)
    requires Tracks(cx, u)
    ensures Emits(cx, GenTest(cx, cond, le), PlainOption(cx.layout, cond), UseOptionalExpr(cx.layout, cond, u),
            cx.layout)
  {
    hide Tracks, Fits, GenExpr, UseExpr, PlainExpr;
    NowFits(cx, u);
    if cond.Some? { AcceptExpr(cx, cond.value, u); }
  }

  lemma AcceptReturn(cx: Cx, result: Option<Expr>, u: Use)
    requires Tracks(cx, u)
    ensures Emits(cx, GenReturn(cx, result), PlainOption(cx.layout, result), UseOptionalExpr(cx.layout, result, u),
            cx.layout)
  {
    hide Tracks, Fits, GenExpr, UseExpr, PlainExpr;
    NowFits(cx, u);
    if result.Some? { AcceptExpr(cx, result.value, u); }
  }

  /** At the end of a simple statement. */
  lemma FreeAfter(cx: Cx, o: Option<Out>, ok: bool, u: Use, l: Layout)
    requires Emits(cx, o, ok, u, l)
    ensures Emits(cx, if o.Some? then Some(o.value.(cx := FreeTemps(o.value.cx))) else None, ok, Free(u), l)
  {
    hide Tracks, FreeTemps;
    if o.Some? { AcceptFree(o.value.cx, u); }
  }

  lemma AcceptDeclaration(cx: Cx, name: string, init: Option<Expr>, u: Use)
    requires Tracks(cx, u)
    ensures Emits(cx, GenStmt(cx, VarDecl(name, init)), PlainOption(cx.layout, init),
            Free(UseOptionalExpr(cx.layout, init, Variable(u, name))), cx.layout)
  {
    hide Tracks, Fits, Temp, Variable, AllocVar, GenExpr, UseExpr, PlainExpr, FreeTemps, Free;
    AcceptVariable(cx, name, u);
    var u1 := Variable(u, name);
    Grows(u1, UseOptionalExpr(cx.layout, init, u1));
    FreedPeak(UseOptionalExpr(cx.layout, init, u1));
    if AllocVar(cx, name).Some? {
      var cx1 := AllocVar(cx, name).value.1;
      if init.Some? {
        AcceptExpr(cx1, init.value, u1);
        if GenExpr(cx1, init.value).Some? {
          AcceptFree(GenExpr(cx1, init.value).value.cx, UseExpr(cx.layout, init.value, u1));
        }
      } else {
        AcceptFree(cx1, u1);
      }
    }
  }

  lemma FreedPeak(u: Use)
    ensures Fits(Free(u)) == Fits(u)
  {
  }

  lemma AcceptArrayDecl(cx: Cx, name: string, size: nat, inits: seq<Expr>, u: Use)
    requires Tracks(cx, u)
    ensures var s, l1 := ArrayDecl(name, size, inits), Declare(cx.layout, name, size);
            Emits(cx, GenStmt(cx, s), PlainStmt(cx.layout, false, s), Free(UseInits(l1, inits, 0, u)), l1)
  {
    var cx1 := cx.(layout := Declare(cx.layout, name, size));
    TracksSame(cx, cx1, u);
    AcceptInits(cx1, cx.layout.next, inits, 0, u);
    var o := GenInits(cx1, cx.layout.next, inits, 0);
    hide Tracks, Fits, GenInits, UseInits, PlainExpr, FreeTemps, Free;
    FreeAfter(cx1, o, forall k :: 0 <= k < |inits| ==> PlainExpr(cx1.layout, inits[k]),
        UseInits(cx1.layout, inits, 0, u), cx1.layout);
  }

  lemma AcceptElementAssign(cx: Cx, name: string, index: Expr, aop: AssignOp, value: Expr, u: Use)
    requires Tracks(cx, u)
    ensures var s := ArrayAssign(name, index, aop, value);
            Emits(cx, GenStmt(cx, s), PlainStmt(cx.layout, false, s),
                Free(UseValue(cx.layout, aop, value, UseSlot(cx.layout, name, index, u))), cx.layout)
  {
    hide Tracks, Fits, GenSlot, GenStore, UseSlot, UseValue, PlainExpr, PlainOp, FreeTemps, Free;
    AcceptSlot(cx, name, index, u);
    var u1 := UseSlot(cx.layout, name, index, u);
    var u2 := UseValue(cx.layout, aop, value, u1);
    Grows(u1, u2);
    FreedPeak(u2);
    if GenSlot(cx, name, index).Some? {
      var a := GenSlot(cx, name, index).value;
      AcceptValue(a.cx, a.reg, aop, value, u1);
      if GenStore(a.cx, a.reg, aop, value).Some? { AcceptFree(GenStore(a.cx, a.reg, aop, value).value.cx, u2); }
    }
  }

  lemma AcceptPointerAssign(cx: Cx, ptr: Expr, aop: AssignOp, value: Expr, u: Use)
    requires Tracks(cx, u)
    ensures var s := DerefAssign(ptr, aop, value);
            Emits(cx, GenStmt(cx, s), PlainStmt(cx.layout, false, s),
                Free(UseValue(cx.layout, aop, value, UseExpr(cx.layout, ptr, u))), cx.layout)
  {
    hide Tracks, Fits, GenExpr, GenStore, UseExpr, UseValue, PlainExpr, PlainOp, FreeTemps, Free;
    AcceptExpr(cx, ptr, u);
    var u1 := UseExpr(cx.layout, ptr, u);
    var u2 := UseValue(cx.layout, aop, value, u1);
    Grows(u1, u2);
    FreedPeak(u2);
    if GenExpr(cx, ptr).Some? {
      var a := GenExpr(cx, ptr).value;
      AcceptValue(a.cx, a.reg, aop, value, u1);
      if GenStore(a.cx, a.reg, aop, value).Some? { AcceptFree(GenStore(a.cx, a.reg, aop, value).value.cx, u2); }
    }
  }

  lemma {:induction false} AcceptSeq(cx: Cx, stmts: seq<Stmt>, u: Use)
    requires Tracks(cx, u)
    ensures Emits(cx, GenSeq(cx, stmts), PlainSeq(cx.layout, cx.loops != [], stmts), UseSeq(cx.layout, stmts, u),
            AfterSeq(cx.layout, stmts))
    decreases stmts, 0
  {
    hide Tracks, Fits, GenStmt, UseStmt, PlainStmt, After;
    if stmts == [] {
      NowFits(cx, u);
    } else {
      AcceptStmt(cx, stmts[0], u);
      var u1, l1 := UseStmt(cx.layout, stmts[0], u), After(cx.layout, stmts[0]);
      Grows(u1, UseSeq(l1, stmts[1..], u1));
      if GenStmt(cx, stmts[0]).Some? { AcceptSeq(GenStmt(cx, stmts[0]).value.cx, stmts[1..], u1); }
    }
  }

  lemma AcceptIf(cx: Cx, s: Stmt, u: Use)
    requires Tracks(cx, u) && s.If?
    ensures Emits(cx, GenIf(cx, s.cond, s.thenBody, s.elseBody), PlainStmt(cx.layout, cx.loops != [], s),
            UseStmt(cx.layout, s, u), After(cx.layout, s))
    decreases s, 0
  {
    hide Tracks, Fits, GenTest, GenSeq, UseExpr, UseSeq, PlainExpr, PlainSeq, AfterSeq;
    var (le, cx1) := NewLabel(cx, "ELSE");
    var (ln, cx2) := NewLabel(cx1, "ENDIF");
    TracksSame(cx, cx2, u);
    AcceptTest(cx2, Some(s.cond), le, u);
    var l, u1 := cx.layout, UseExpr(cx.layout, s.cond, u);
    var u2 := UseSeq(l, s.thenBody, u1);
    var l2 := AfterSeq(l, s.thenBody);
    Grows(u1, u2);
    Grows(u2, UseSeq(l2, s.elseBody, u2));
    var c := GenTest(cx2, Some(s.cond), le);
    if c.Some? {
      AcceptSeq(c.value.cx, s.thenBody, u1);
      var t := GenSeq(c.value.cx, s.thenBody);
      if t.Some? { AcceptSeq(t.value.cx, s.elseBody, u2); }
    }
  }

  lemma AcceptWhile(cx: Cx, s: Stmt, u: Use)
    requires Tracks(cx, u) && s.While?
    ensures Emits(cx, GenWhile(cx, s.cond, s.body), PlainStmt(cx.layout, cx.loops != [], s), UseStmt(cx.layout, s, u),
            After(cx.layout, s))
    decreases s, 0
  {
    hide Tracks, Fits, GenTest, GenSeq, UseExpr, UseSeq, PlainExpr, PlainSeq, AfterSeq;
    var (lt, cx1) := NewLabel(cx, "WHILE_TEST");
    var (le, cx2) := NewLabel(cx1, "WHILE_END");
    var cx3 := cx2.(loops := cx.loops + [(lt, le)]);
    TracksSame(cx, cx3, u);
    AcceptTest(cx3, Some(s.cond), le, u);
    var l, u1 := cx.layout, UseExpr(cx.layout, s.cond, u);
    Grows(u1, UseSeq(l, s.body, u1));
    var c := GenTest(cx3, Some(s.cond), le);
    if c.Some? {
      AcceptSeq(c.value.cx, s.body, u1);
      var b := GenSeq(c.value.cx, s.body);
      if b.Some? { TracksSame(b.value.cx, b.value.cx.(loops := cx.loops), UseSeq(l, s.body, u1)); }
    }
  }

  function UseOptional(l: Layout, s: Option<Stmt>, u: Use): (r: Use)
    ensures r.peak >= u.peak
  {
    if s.Some? then UseStmt(l, s.value, u) else u
  }

  function AfterOptional(l: Layout, s: Option<Stmt>): Layout { if s.Some? then After(l, s.value) else l }

  lemma AcceptOptional(cx: Cx, s: Option<Stmt>, u: Use)
    requires Tracks(cx, u)
    ensures Emits(cx, GenOptional(cx, s), s.Some? ==> PlainStmt(cx.layout, cx.loops != [], s.value),
            UseOptional(cx.layout, s, u), AfterOptional(cx.layout, s))
    decreases s, 2
  {
    hide Tracks, Fits, GenStmt, UseStmt, PlainStmt, After;
    NowFits(cx, u);
    if s.Some? { AcceptStmt(cx, s.value, u); }
  }

  lemma AcceptFor(cx: Cx, s: Stmt, u: Use)
    requires Tracks(cx, u) && s.For?
    ensures Emits(cx, GenFor(cx, s), PlainStmt(cx.layout, cx.loops != [], s), UseStmt(cx.layout, s, u),
            After(cx.layout, s))
    decreases s, 0
  {
    hide Tracks, Fits, GenTest, GenSeq, GenOptional, UseExpr, UseOptionalExpr, UseSeq, PlainExpr, PlainOption,
      PlainSeq, AfterSeq;
    var (lt, cx1) := NewLabel(cx, "FOR_TEST");
    var (lu, cx2) := NewLabel(cx1, "FOR_UPD");
    var (le, cx3) := NewLabel(cx2, "FOR_END");
    TracksSame(cx, cx3, u);
    AcceptOptional(cx3, s.forInit, u);
    var l1, u1 := AfterOptional(cx.layout, s.forInit), UseOptional(cx.layout, s.forInit, u);
    var u2 := UseOptionalExpr(l1, s.forCond, u1);
    var u3, l3 := UseSeq(l1, s.body, u2), AfterSeq(l1, s.body);
    Grows(u1, u2);
    Grows(u2, u3);
    Grows(u3, UseOptional(l3, s.update, u3));
    var i := GenOptional(cx3, s.forInit);
    if i.Some? {
      var cx4 := i.value.cx.(loops := cx.loops + [(lu, le)]);
      TracksSame(i.value.cx, cx4, u1);
      AcceptForLoop(cx4, s, lt, lu, le, u1);
      if GenForLoop(cx4, s, lt, lu, le).Some? {
        var o := GenForLoop(cx4, s, lt, lu, le).value.cx;
        TracksSame(o, o.(loops := cx.loops), UseOptional(l3, s.update, u3));
      }
    }
  }

  lemma AcceptForLoop(cx: Cx, s: Stmt, lt: Symbol, lu: Symbol, le: Symbol, u: Use)
    requires Tracks(cx, u) && s.For? && cx.loops != []
    ensures var l := cx.layout;
            var l3, u3 := AfterSeq(l, s.body), UseSeq(l, s.body, UseOptionalExpr(l, s.forCond, u));
            Emits(cx, GenForLoop(cx, s, lt, lu, le),
                  PlainOption(l, s.forCond) && PlainSeq(l, true, s.body)
                      && (s.update.Some? ==> PlainStmt(l3, true, s.update.value)),
                  UseOptional(l3, s.update, u3), AfterOptional(l3, s.update))
    decreases s, 0, 0
  {
    hide Tracks, Fits, GenTest, GenSeq, GenOptional, UseOptionalExpr, UseOptional, UseSeq, PlainOption, PlainSeq,
      AfterSeq, AfterOptional;
    var l, u2 := cx.layout, UseOptionalExpr(cx.layout, s.forCond, u);
    var l3, u3 := AfterSeq(l, s.body), UseSeq(l, s.body, u2);
    AcceptTest(cx, s.forCond, le, u);
    Grows(u2, u3);
    Grows(u3, UseOptional(l3, s.update, u3));
    var c := GenTest(cx, s.forCond, le);
    if c.Some? {
      AcceptSeq(c.value.cx, s.body, u2);
      var b := GenSeq(c.value.cx, s.body);
      if b.Some? { AcceptOptional(b.value.cx, s.update, u3); }
    }
  }

  lemma AcceptJump(cx: Cx, s: Stmt, u: Use)
    requires Tracks(cx, u) && (s.Break? || s.Continue?)
    ensures Emits(cx, GenStmt(cx, s), cx.loops != [], u, cx.layout)
  {
    hide Tracks;
    NowFits(cx, u);
  }

  lemma AcceptSimple(cx: Cx, s: Stmt, u: Use)
    requires Tracks(cx, u) && (s.Assign? || s.Return? || s.ExprStmt?)
    ensures Emits(cx, GenStmt(cx, s), PlainStmt(cx.layout, false, s), UseStmt(cx.layout, s, u), cx.layout)
  {
    hide Tracks, Fits, GenAssign, GenReturn, GenExpr, UseAssign, UseOptionalExpr, UseExpr, PlainExpr, PlainOp,
      FreeTemps, Free;
    match s
    case Assign(name, aop, value) =>
      AcceptAssign(cx, name, aop, value, u);
      FreeAfter(cx, GenAssign(cx, name, aop, value), PlainExpr(cx.layout, value) && PlainOp(aop),
          UseAssign(cx.layout, name, aop, value, u), cx.layout);
    case Return(result) =>
      AcceptReturn(cx, result, u);
      FreeAfter(cx, GenReturn(cx, result), PlainOption(cx.layout, result), UseOptionalExpr(cx.layout, result, u),
          cx.layout);
    case ExprStmt(e) =>
      AcceptExpr(cx, e, u);
      FreedPeak(UseExpr(cx.layout, e, u));
      if GenExpr(cx, e).Some? { AcceptFree(GenExpr(cx, e).value.cx, UseExpr(cx.layout, e, u)); }
  }

  /** A statement is accepted exactly when it is plain and its registers suffice. */
  lemma {:induction false} AcceptStmt(cx: Cx, s: Stmt, u: Use)
    requires Tracks(cx, u)
    ensures Emits(cx, GenStmt(cx, s), PlainStmt(cx.layout, cx.loops != [], s), UseStmt(cx.layout, s, u),
            After(cx.layout, s))
    decreases s, 1
  {
    hide Tracks, Fits, Emits, GenIf, GenWhile, GenFor, GenSeq, UseSeq, PlainSeq, UseAssign, UseOptionalExpr, UseExpr,
      UseValue, UseSlot, UseInits,
      PlainExpr, PlainOption, PlainOp, Free, Variable;
    match s
    case VarDecl(name, init) => AcceptDeclaration(cx, name, init, u);
    case ArrayDecl(name, size, inits) => AcceptArrayDecl(cx, name, size, inits, u);
    case ArrayAssign(name, index, aop, value) => AcceptElementAssign(cx, name, index, aop, value, u);
    case DerefAssign(ptr, aop, value) => AcceptPointerAssign(cx, ptr, aop, value, u);
    case If(_, _, _) => AcceptIf(cx, s, u);
    case While(_, _) => AcceptWhile(cx, s, u);
    case For(_, _, _, _) => AcceptFor(cx, s, u);
    case Block(stmts) => AcceptSeq(cx, stmts, u);
    case Break => AcceptJump(cx, s, u);
    case Continue => AcceptJump(cx, s, u);
    case _ => AcceptSimple(cx, s, u);
  }

  // ---- Programs

  const NOTHING_USED := Use({}, 0, 0, 0)

  /** A program is compiled exactly when main is plain and never needs more than 27 registers at a time. */
  lemma ProgramAcceptedIff(p: Program)
    ensures GenProgram(p).Some? <==>
              PlainSeq(StartLayout(p), false, p.body) && UseSeq(StartLayout(p), p.body, NOTHING_USED).peak <= REGISTERS
  {
    var cx := StartContext(p);
    assert Tracks(cx, NOTHING_USED);
    AcceptSeq(cx, p.body, NOTHING_USED);
    hide Tracks, GenSeq, UseSeq, PlainSeq, StartLayout;
  }
}
