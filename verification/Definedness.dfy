/** When source programs have a meaning: exactly for expressions, and by a static check for whole programs. */
module Definedness {
  import opened Words
  import opened Memory
  import opened Wrappers
  import opened Ast
  import opened Assembly
  import opened CodeGen
  import opened Semantics
  import opened CompilerStmt
  import opened Programs
  import Alu

  // ---- Expressions, exactly

  /** The left operand decides a logical operator. */
  predicate Decides(op: BinaryOp, v: Word) { (op.LogicalAnd? && v == 0) || (op.LogicalOr? && v != 0) }

  /** Right operands that the operator cannot take: a zero divisor, a shift of the whole word or more. */
  predicate Takes(op: BinaryOp, v: Word) {
    (op.Divide? || op.Modulo? ==> v != 0) && (op.ShiftLeft? || op.ShiftRight? ==> v < 32)
  }

  predicate NameHasValue(l: Layout, n: string, st: Store) {
    if n in l.globals then Loadable(l.globals[n]) else n in st.env && st.env[n].Some?
  }

  predicate ElementHasAddress(l: Layout, n: string, index: Expr, st: Store)
    decreases index, 1
  {
    && n in l.arrays
    && if index.IntLiteral? then Loadable(l.arrays[n].0 + index.value)
       else Loadable(l.arrays[n].0) && HasValue(l, index, st)
  }

  /** No unknown or uninitialised variable, no constant that is loaded wrongly, no address of a local variable, and no
      operand that an operator cannot take is met, and nothing that is not modelled. */
  predicate HasValue(l: Layout, e: Expr, st: Store)
    decreases e, 0
  {
    match e
    case IntLiteral(v) => Loadable(v)
    case VarRef(n) => NameHasValue(l, n, st)
    case ArrayRef(n, index) =>
      if n in l.arrays then ElementHasAddress(l, n, index, st) else NameHasValue(l, n, st) && HasValue(l, index, st)
    case AddrOf(n) => n in l.globals && Loadable(l.globals[n])
    case AddrOfElement(n, index) => ElementHasAddress(l, n, index, st)
    case Deref(ptr) => HasValue(l, ptr, st)
    case Unary(_, x) => HasValue(l, x, st)
    case Binary(op, x, y) =>
      HasValue(l, x, st)
      && var a, b := Eval(l, x, st), Eval(l, y, st);
         (a.Some? && Decides(op, a.value)) || (HasValue(l, y, st) && (b.Some? ==> Takes(op, b.value)))
    case FuncCall(_, _) => false
    case StringLit(_) => false
  }

  lemma ElementDefinedIff(l: Layout, n: string, index: Expr, st: Store)
    ensures ElementAddr(l, n, index, st).Some? <==> ElementHasAddress(l, n, index, st)
    decreases index, 1
  {
    hide Loadable;
    if !index.IntLiteral? { EvalDefinedIff(l, index, st); }
  }

  /** An expression has a value for exactly these reasons. */
  lemma {:induction false} EvalDefinedIff(l: Layout, e: Expr, st: Store)
    ensures Eval(l, e, st).Some? <==> HasValue(l, e, st)
    decreases e, 0
  {
    hide Loadable;
    match e
    case ArrayRef(n, index) =>
      if n in l.arrays { ElementDefinedIff(l, n, index, st); } else { EvalDefinedIff(l, index, st); }
    case AddrOfElement(n, index) => ElementDefinedIff(l, n, index, st);
    case Deref(ptr) => EvalDefinedIff(l, ptr, st);
    case Unary(_, x) => EvalDefinedIff(l, x, st);
    case Binary(op, x, y) =>
      EvalDefinedIff(l, x, st);
      EvalDefinedIff(l, y, st);
      OperatorDefinedIff(l, e, st);
    case _ =>
  }

  lemma OperatorDefinedIff(l: Layout, e: Expr, st: Store)
    requires e.Binary?
    ensures var a, b := Eval(l, e.left, st), Eval(l, e.right, st);
            Eval(l, e, st).Some? <==>
              a.Some? && (Decides(e.op, a.value) || (b.Some? && Takes(e.op, b.value)))
  {
    hide Alu.TruncDiv, Pow2, ToSigned, Wrap;
  }

  // ---- Programs, by a static check

  /** A right operand that is a literal which the operator takes. */
  predicate TakesLiteral(op: BinaryOp, e: Expr) {
    (op.Divide? || op.Modulo? || op.ShiftLeft? || op.ShiftRight?) ==>
      e.IntLiteral? && Loadable(e.value) && Takes(op, Wrap(e.value))
  }

  predicate SafeName(l: Layout, scope: set<string>, n: string) {
    if n in l.globals then Loadable(l.globals[n]) else n in scope
  }

  predicate SafeElement(l: Layout, scope: set<string>, n: string, index: Expr)
    decreases index, 1
  {
    && n in l.arrays
    && if index.IntLiteral? then Loadable(l.arrays[n].0 + index.value)
       else Loadable(l.arrays[n].0) && SafeExpr(l, scope, index)
  }

  /** All names are known, all constants load, and divisors and shift amounts are literals. */
  predicate SafeExpr(l: Layout, scope: set<string>, e: Expr)
    decreases e, 0
  {
    match e
    case IntLiteral(v) => Loadable(v)
    case VarRef(n) => SafeName(l, scope, n)
    case ArrayRef(n, index) =>
      if n in l.arrays then SafeElement(l, scope, n, index) else SafeName(l, scope, n) && SafeExpr(l, scope, index)
    case AddrOf(n) => n in l.globals && Loadable(l.globals[n])
    case AddrOfElement(n, index) => SafeElement(l, scope, n, index)
    case Deref(ptr) => SafeExpr(l, scope, ptr)
    case Unary(_, x) => SafeExpr(l, scope, x)
    case Binary(op, x, y) => SafeExpr(l, scope, x) && SafeExpr(l, scope, y) && TakesLiteral(op, y)
    case FuncCall(_, _) => false
    case StringLit(_) => false
  }

  /** The variables in scope all have values. */
  ghost predicate Initialised(scope: set<string>, st: Store) {
    scope <= st.env.Keys && forall x | x in st.env :: st.env[x].Some?
  }

  lemma {:induction false} SafeHasValue(l: Layout, scope: set<string>, e: Expr, st: Store)
    requires SafeExpr(l, scope, e) && Initialised(scope, st)
    ensures HasValue(l, e, st)
    decreases e, 1
  {
    hide Loadable;
    match e
    case ArrayRef(n, index) =>
      if n in l.arrays { SafeHasAddress(l, scope, n, index, st); } else { SafeHasValue(l, scope, index, st); }
    case AddrOfElement(n, index) => SafeHasAddress(l, scope, n, index, st);
    case Deref(ptr) => SafeHasValue(l, scope, ptr, st);
    case Unary(_, x) => SafeHasValue(l, scope, x, st);
    case Binary(op, x, y) =>
      SafeHasValue(l, scope, x, st);
      SafeHasValue(l, scope, y, st);
      if y.IntLiteral? { assert Eval(l, y, st) == Constant(y.value); }
    case _ =>
  }

  lemma SafeHasAddress(l: Layout, scope: set<string>, n: string, index: Expr, st: Store)
    requires SafeElement(l, scope, n, index) && Initialised(scope, st)
    ensures ElementHasAddress(l, n, index, st)
    decreases index, 2
  {
    hide Loadable;
    if !index.IntLiteral? { SafeHasValue(l, scope, index, st); }
  }

  lemma SafeEvaluates(l: Layout, scope: set<string>, e: Expr, st: Store)
    requires SafeExpr(l, scope, e) && Initialised(scope, st)
    ensures Eval(l, e, st).Some?
  {
    hide HasValue, SafeExpr, Initialised;
    SafeHasValue(l, scope, e, st);
    EvalDefinedIff(l, e, st);
  }

  /** The constant is loaded right and names a word at or above the limit. */
  predicate SafeAddress(limit: nat, a: int) { Loadable(a) && Index(Wrap(a)) >= limit }

  predicate SafeUpdate(aop: AssignOp, value: Expr) {
    aop.Compound? ==> IsArithmetic(aop.op) && TakesLiteral(aop.op, value)
  }

  /** A name that no global, array or variable in scope has. */
  predicate NewName(l: Layout, scope: set<string>, n: string) { n !in l.globals && n !in l.arrays && n !in scope }

  /** Statements that always run to their end. */
  predicate IsSimple(s: Stmt) { s.VarDecl? || s.ArrayDecl? || s.Assign? || s.ArrayAssign? || s.ExprStmt? }

  predicate SafeInits(l: Layout, limit: nat, scope: set<string>, base: int, inits: seq<Expr>) {
    forall k :: 0 <= k < |inits| ==> SafeExpr(l, scope, inits[k]) && SafeAddress(limit, base + k)
  }

  lemma InitSafe(l: Layout, limit: nat, scope: set<string>, base: int, inits: seq<Expr>, i: nat)
    requires SafeInits(l, limit, scope, base, inits) && i < |inits|
    ensures SafeExpr(l, scope, inits[i]) && SafeAddress(limit, base + i)
  {
  }

  /** Variables are declared with a value and under a new name, and stores go to globals, whose assigned values leave
      the address in R26, and to array elements with literal indices, at or above the limit. */
  predicate SafeStmt(l: Layout, limit: nat, scope: set<string>, s: Stmt)
    decreases s, 1
  {
    match s
    case VarDecl(n, init) => NewName(l, scope, n) && init.Some? && SafeExpr(l, scope, init.value)
    case ArrayDecl(n, size, inits) =>
      NewName(l, scope, n) && SafeInits(Declare(l, n, size), limit, scope, l.next, inits)
    case Assign(n, aop, value) =>
      && SafeExpr(l, scope, value) && SafeUpdate(aop, value)
      && if n in l.globals then SafeAddress(limit, l.globals[n]) && LeavesScratch(l, value, n) else n in scope
    case ArrayAssign(n, index, aop, value) =>
      && n in l.arrays && index.IntLiteral? && SafeAddress(limit, l.arrays[n].0 + index.value)
      && SafeExpr(l, scope, value) && SafeUpdate(aop, value)
    case DerefAssign(_, _, _) => false
    case If(cond, thenBody, elseBody) =>
      && SafeExpr(l, scope, cond) && SafeSeq(l, limit, scope, thenBody)
      && SafeSeq(AfterSeq(l, thenBody), limit, scope, elseBody)
    case While(cond, body) => SafeExpr(l, scope, cond) && SafeSeq(l, limit, scope, body)
    case For(init, cond, update, body) =>
      var l1 := if init.Some? then After(l, init.value) else l;
      var scope1 := if init.Some? then ScopeAfter(scope, init.value) else scope;
      && (init.Some? ==> IsSimple(init.value) && SafeStmt(l, limit, scope, init.value))
      && (cond.Some? ==> SafeExpr(l1, scope1, cond.value)) && SafeSeq(l1, limit, scope1, body)
      && (update.Some? ==> IsSimple(update.value) && SafeStmt(AfterSeq(l1, body), limit, scope1, update.value))
    case Return(result) => result.Some? ==> SafeExpr(l, scope, result.value)
    case ExprStmt(e) => SafeExpr(l, scope, e)
    case Block(stmts) => SafeSeq(l, limit, scope, stmts)
    case _ => true
  }

  predicate SafeSeq(l: Layout, limit: nat, scope: set<string>, stmts: seq<Stmt>)
    decreases stmts, 0
  {
    stmts == [] || (SafeStmt(l, limit, scope, stmts[0])
                    && SafeSeq(After(l, stmts[0]), limit, ScopeAfter(scope, stmts[0]), stmts[1..]))
  }

  function ScopeAfter(scope: set<string>, s: Stmt): set<string> { if s.VarDecl? then scope + {s.name} else scope }

  /** Not undefined; a normal end leaves exactly the scope, all of it initialised, and any other end at least that. */
  ghost predicate Sane(scope: set<string>, after: set<string>, o: Outcome) {
    && !o.Undefined? && (Defines(o) ==> Initialised(scope, o.st)) && (o.Normal? ==> Ready(after, o.st))
  }

  ghost predicate Ready(scope: set<string>, st: Store) { Initialised(scope, st) && st.env.Keys == scope }

  lemma UpdateSafe(l: Layout, scope: set<string>, aop: AssignOp, value: Expr, current: Word, st: Store)
    requires SafeExpr(l, scope, value) && SafeUpdate(aop, value) && Initialised(scope, st)
    ensures Eval(l, value, st).Some? && Updated(aop, current, Eval(l, value, st).value).Some?
  {
    SafeEvaluates(l, scope, value, st);
    hide Loadable, Initialised, Alu.TruncDiv, Pow2;
    if value.IntLiteral? { assert Eval(l, value, st) == Constant(value.value); }
  }

  lemma AssignSafe(l: Layout, limit: nat, scope: set<string>, s: Stmt, st: Store)
    requires s.Assign? && SafeStmt(l, limit, scope, s) && Ready(scope, st)
    ensures Sane(scope, scope, ExecAssign(l, limit, s.name, s.aop, s.value, st))
  {
    hide SafeExpr, Eval, Updated, Loadable, SafeUpdate, LeavesScratch, Scratch;
    if s.name in l.globals {
      LeavesScratchSuffices(l, s.value, s.name, st);
      UpdateSafe(l, scope, s.aop, s.value, st.mem[Index(Wrap(l.globals[s.name]))], st);
    } else {
      UpdateSafe(l, scope, s.aop, s.value, if s.aop.Set? then 0 else st.env[s.name].value, st);
    }
  }

  lemma {:induction false} InitsSafe(l: Layout, limit: nat, scope: set<string>, base: int, inits: seq<Expr>, i: nat,
      st: Store)
    requires i <= |inits| && Ready(scope, st)
    requires SafeInits(l, limit, scope, base, inits)
    ensures Sane(scope, scope, ExecInits(l, limit, base, inits, i, st))
    decreases |inits| - i
  {
    hide SafeInits, SafeExpr, Eval, Loadable;
    if i < |inits| {
      InitSafe(l, limit, scope, base, inits, i);
      SafeEvaluates(l, scope, inits[i], st);
      var o := Write(limit, st, Wrap(base + i), Eval(l, inits[i], st).value);
      InitsSafe(l, limit, scope, base, inits, i + 1, o.st);
    }
  }

  lemma SimpleSafe(fuel: nat, l: Layout, limit: nat, scope: set<string>, s: Stmt, st: Store)
    requires IsSimple(s) && SafeStmt(l, limit, scope, s) && Ready(scope, st)
    ensures var o := Exec(fuel, l, limit, s, st); o.Normal? && Sane(scope, ScopeAfter(scope, s), o)
  {
    hide SafeExpr, SafeInits, Eval, Loadable, SafeUpdate, LeavesScratch, ExecAssign, ExecInits, Updated;
    match s
    case VarDecl(_, init) => SafeEvaluates(l, scope, init.value, st);
    case ArrayDecl(n, size, inits) => InitsSafe(Declare(l, n, size), limit, scope, l.next, inits, 0, st);
    case Assign(_, _, _) => AssignSafe(l, limit, scope, s, st);
    case ArrayAssign(n, index, aop, value) =>
      assert Slot(l, n, index, st) == Some(Wrap(l.arrays[n].0 + index.value));
      UpdateSafe(l, scope, aop, value, st.mem[Index(Wrap(l.arrays[n].0 + index.value))], st);
    case ExprStmt(e) => SafeEvaluates(l, scope, e, st);
  }

  /** Leaving a block restores the scope. */
  lemma LeaveSafe(scope: set<string>, after: set<string>, o: Outcome)
    requires Sane(scope, after, o) && scope <= after
    ensures Sane(scope, scope, Leave(o, scope)) && (Defines(Leave(o, scope)) ==> Ready(scope, Leave(o, scope).st))
  {
  }

  function ScopeAfterSeq(scope: set<string>, stmts: seq<Stmt>): (r: set<string>)
    ensures scope <= r
    decreases stmts
  {
    if stmts == [] then scope else ScopeAfterSeq(ScopeAfter(scope, stmts[0]), stmts[1..])
  }

  lemma BlockSafe(fuel: nat, l: Layout, limit: nat, scope: set<string>, stmts: seq<Stmt>, st: Store)
    requires SafeSeq(l, limit, scope, stmts) && Ready(scope, st)
    ensures var o := ExecBlock(fuel, l, limit, stmts, st); Sane(scope, scope, o) && (Defines(o) ==> Ready(scope, o.st))
    decreases fuel, stmts, 1
  {
    hide ExecSeq, SafeSeq, Leave;
    assert st.env.Keys == scope;
    SeqSafe(fuel, l, limit, scope, stmts, st);
    LeaveSafe(scope, ScopeAfterSeq(scope, stmts), ExecSeq(fuel, l, limit, stmts, st));
  }

  lemma {:induction false} SeqSafe(fuel: nat, l: Layout, limit: nat, scope: set<string>, stmts: seq<Stmt>, st: Store)
    requires SafeSeq(l, limit, scope, stmts) && Ready(scope, st)
    ensures Sane(scope, ScopeAfterSeq(scope, stmts), ExecSeq(fuel, l, limit, stmts, st))
    decreases fuel, stmts, 0
  {
    hide Exec, SafeStmt, After;
    if stmts != [] {
      StmtSafe(fuel, l, limit, scope, stmts[0], st);
      var o := Exec(fuel, l, limit, stmts[0], st);
      if o.Normal? { SeqSafe(fuel, After(l, stmts[0]), limit, ScopeAfter(scope, stmts[0]), stmts[1..], o.st); }
    }
  }

  lemma RoundSafe(fuel: nat, l: Layout, limit: nat, scope: set<string>, update: Option<Stmt>, body: seq<Stmt>,
      st: Store)
    requires fuel > 0 && SafeSeq(l, limit, scope, body) && Ready(scope, st)
    requires update.Some? ==> IsSimple(update.value) && SafeStmt(AfterSeq(l, body), limit, scope, update.value)
    ensures var o := Round(fuel, l, limit, update, body, st);
            Sane(scope, scope, o) && (Defines(o) ==> Ready(scope, o.st))
    decreases fuel, body, 0
  {
    hide ExecBlock, Exec, SafeStmt, SafeSeq, AfterSeq, Leave;
    BlockSafe(fuel - 1, l, limit, scope, body, st);
    var o := ExecBlock(fuel - 1, l, limit, body, st);
    if (o.Normal? || o.Continued?) && update.Some? {
      SimpleSafe(fuel - 1, AfterSeq(l, body), limit, scope, update.value, o.st);
      LeaveSafe(scope, ScopeAfter(scope, update.value), Exec(fuel - 1, AfterSeq(l, body), limit, update.value, o.st));
      LeaveNormal(Exec(fuel - 1, AfterSeq(l, body), limit, update.value, o.st), scope);
    }
  }

  lemma LeaveNormal(o: Outcome, outer: set<string>)
    ensures o.Normal? ==> Leave(o, outer).Normal?
  {
  }

  lemma {:induction false} LoopSafe(fuel: nat, l: Layout, limit: nat, scope: set<string>, cond: Option<Expr>,
      update: Option<Stmt>, body: seq<Stmt>, st: Store)
    requires (cond.Some? ==> SafeExpr(l, scope, cond.value)) && SafeSeq(l, limit, scope, body) && Ready(scope, st)
    requires update.Some? ==> IsSimple(update.value) && SafeStmt(AfterSeq(l, body), limit, scope, update.value)
    ensures Sane(scope, scope, ExecLoop(fuel, l, limit, cond, update, body, st))
    decreases fuel, body, 1
  {
    hide Round, SafeStmt, SafeSeq, SafeExpr, Eval, AfterSeq;
    if fuel > 0 {
      if cond.Some? { SafeEvaluates(l, scope, cond.value, st); }
      RoundSafe(fuel, l, limit, scope, update, body, st);
      var o := Round(fuel, l, limit, update, body, st);
      if o.Normal? { LoopSafe(fuel - 1, l, limit, scope, cond, update, body, o.st); }
    }
  }

  lemma ForSafe(fuel: nat, l: Layout, limit: nat, scope: set<string>, s: Stmt, st: Store)
    requires s.For? && SafeStmt(l, limit, scope, s) && Ready(scope, st)
    ensures Sane(scope, scope, Exec(fuel, l, limit, s, st))
    decreases fuel, s, 0
  {
    var l1 := if s.forInit.Some? then After(l, s.forInit.value) else l;
    var scope1 := if s.forInit.Some? then ScopeAfter(scope, s.forInit.value) else scope;
    if s.forInit.Some? { SimpleSafe(fuel, l, limit, scope, s.forInit.value, st); }
    var i := if s.forInit.Some? then Exec(fuel, l, limit, s.forInit.value, st) else Normal(st);
    hide ExecLoop, Leave;
    LoopSafe(fuel, l1, limit, scope1, s.forCond, s.update, s.body, i.st);
    LoopLeaves(scope, scope1, ExecLoop(fuel, l1, limit, s.forCond, s.update, s.body, i.st));
  }

  lemma LoopLeaves(scope: set<string>, inner: set<string>, o: Outcome)
    requires Sane(inner, inner, o) && scope <= inner
    ensures Sane(scope, scope, Leave(o, scope))
  {
  }

  /** A statement that passes the check is never undefined, whatever the fuel and the values. */
  lemma {:induction false} StmtSafe(fuel: nat, l: Layout, limit: nat, scope: set<string>, s: Stmt, st: Store)
    requires SafeStmt(l, limit, scope, s) && Ready(scope, st)
    ensures Sane(scope, ScopeAfter(scope, s), Exec(fuel, l, limit, s, st))
    decreases fuel, s, 1
  {
    hide ExecSeq, ExecLoop, ExecBlock, SafeSeq, SafeExpr, Eval, AfterSeq, ExecAssign, ExecInits, ExecStore, Loadable,
      Initialised;
    match s
    case If(cond, thenBody, elseBody) =>
      SafeEvaluates(l, scope, cond, st);
      BlockSafe(fuel, l, limit, scope, thenBody, st);
      BlockSafe(fuel, AfterSeq(l, thenBody), limit, scope, elseBody, st);
    case While(cond, body) => LoopSafe(fuel, l, limit, scope, Some(cond), None, body, st);
    case For(_, _, _, _) => ForSafe(fuel, l, limit, scope, s, st);
    case Return(result) => if result.Some? { SafeEvaluates(l, scope, result.value, st); }
    case Break =>
    case Continue =>
    case Block(stmts) => BlockSafe(fuel, l, limit, scope, stmts, st);
    case _ => SimpleSafe(fuel, l, limit, scope, s, st);
  }

  /** A program that passes the check has a meaning on every memory, or does not end within the fuel. */
  lemma NeverUndefined(p: Program, m: Mem, fuel: nat)
    requires SafeSeq(StartLayout(p), CODE_TOP, {}, p.body)
    ensures Meaning(p, m, fuel).OutOfFuel? || Defines(Meaning(p, m, fuel))
  {
    hide SafeSeq, ExecSeq, StartLayout;
    SeqSafe(fuel, StartLayout(p), CODE_TOP, {}, p.body, Store(map[], m));
  }
}
