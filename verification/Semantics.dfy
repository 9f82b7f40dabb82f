/** Big-step meaning of expressions and statements over 32-bit words. What has no meaning here (an
    uninitialised or undeclared variable, division by zero, a redeclared name, a store into the program's
    own code, and the constructs the code generator gets wrong) is None or Undefined. */
module Semantics {
  import opened Words
  import opened Memory
  import opened Wrappers
  import opened Ast
  import opened CodeGen
  import Alu

  /** Variables in scope (None: declared without a value) and memory, where globals and arrays live. */
  datatype Store = Store(env: map<string, Option<Word>>, mem: Mem)

  // ---- Operators

  function BinaryValue(op: BinaryOp, a: Word, b: Word): Option<Word>
    requires !IsLogical(op)
  {
    match op
    case Plus => Some(Wrap(a + b))
    case Minus => Some(Wrap(a - b))
    case Times => Some(Wrap(a * b))
    case Divide => if b == 0 then None else Some(Wrap(Alu.TruncDiv(ToSigned(a), ToSigned(b))))
    case Modulo =>
      if b == 0 then None else Some(Wrap(ToSigned(a) - Alu.TruncDiv(ToSigned(a), ToSigned(b)) * ToSigned(b)))
    case ShiftLeft => if b >= 32 then None else Some(Wrap(a * Pow2(b)))
    case ShiftRight => if b >= 32 then None else Some(Wrap(a / Pow2(b)))
    case BitAnd => Some(WordBitwise(And, a, b))
    case BitOr => Some(WordBitwise(Or, a, b))
    case BitXor => Some(WordBitwise(Xor, a, b))
    case Equal => Some(Truth(a == b))
    case NotEqual => Some(Truth(a != b))
    case Less => Some(Truth(ToSigned(a) < ToSigned(b)))
    case Greater => Some(Truth(ToSigned(a) > ToSigned(b)))
    case LessEqual => Some(Truth(ToSigned(a) <= ToSigned(b)))
    case GreaterEqual => Some(Truth(ToSigned(a) >= ToSigned(b)))
  }

  function Difference(a: Word, b: Word): Word { Wrap(a - b) }

  function Truth(b: bool): Word { if b then 1 else 0 }

  function UnaryValue(op: UnaryOp, a: Word): Word {
    match op
    case Negate => Wrap(-(a as int))
    case Complement => 0xFFFF_FFFF - a
    case LogicalNot => Truth(a == 0)
  }

  /** The constants that the emitted load sequence gets right (see LoadImmExact). */
  predicate Loadable(v: int) {
    -0x8000 <= v <= 0x7FFF || v % 0x1_0000 < 0x8000 || v / 0x1_0000 % 0x1_0000 == 0xFFFF
  }

  function Constant(v: int): Option<Word> { if Loadable(v) then Some(Wrap(v)) else None }

  // ---- Expressions

  function VarValue(l: Layout, name: string, st: Store): Option<Word> {
    if name in l.globals then
      var a :- Constant(l.globals[name]);
      Some(st.mem[Index(a)])
    else if name in st.env then st.env[name]
    else None
  }

  function ElementAddr(l: Layout, name: string, index: Expr, st: Store): Option<Word>
    decreases index, 2
  {
    if name !in l.arrays then None
    else
      var base := l.arrays[name].0;
      if index.IntLiteral? then Constant(base + index.value)
      else
        var b :- Constant(base);
        var i :- Eval(l, index, st);
        Some(Wrap(b + i))
  }

  function Slot(l: Layout, name: string, index: Expr, st: Store): Option<Word>
    decreases index, 3
  {
    if name in l.arrays then ElementAddr(l, name, index, st)
    else
      var p :- VarValue(l, name, st);
      var i :- Eval(l, index, st);
      Some(Wrap(p + i))
  }

  function Eval(l: Layout, e: Expr, st: Store): Option<Word>
    decreases e, 1
  {
    match e
    case IntLiteral(v) => Constant(v)
    case VarRef(n) => VarValue(l, n, st)
    case ArrayRef(n, index) =>
      var a :- Slot(l, n, index, st);
      Some(st.mem[Index(a)])
    case AddrOf(n) => if n in l.globals then Constant(l.globals[n]) else None
    case AddrOfElement(n, index) => ElementAddr(l, n, index, st)
    case Deref(ptr) =>
      var a :- Eval(l, ptr, st);
      Some(st.mem[Index(a)])
    case Binary(op, left, right) =>
      var a :- Eval(l, left, st);
      if op.LogicalAnd? && a == 0 then Some(0)
      else if op.LogicalOr? && a != 0 then Some(1)
      else
        var b :- Eval(l, right, st);
        if IsLogical(op) then Some(Truth(b != 0)) else BinaryValue(op, a, b)
    case Unary(op, operand) =>
      var a :- Eval(l, operand, st);
      Some(UnaryValue(op, a))
    case FuncCall(_, _) => None
    case StringLit(_) => None
  }

  /** What evaluating e leaves in the scratch register R26, from r before: the address of the last global
      read, or the difference of the last == or != comparison. */
  function Scratch(l: Layout, e: Expr, st: Store, r: Word): Word {
    match e
    case VarRef(n) => VarScratch(l, n, r)
    case ArrayRef(n, index) => Scratch(l, index, st, if n in l.arrays then r else VarScratch(l, n, r))
    case AddrOfElement(_, index) => Scratch(l, index, st, r)
    case Deref(ptr) => Scratch(l, ptr, st, r)
    case Binary(op, left, right) =>
      var r1 := Scratch(l, left, st, r);
      var a := Eval(l, left, st);
      if (op.LogicalAnd? && a == Some(0)) || (op.LogicalOr? && a != Some(0)) then r1
      else
        var r2 := Scratch(l, right, st, r1);
        var b := Eval(l, right, st);
        if (op.Equal? || op.NotEqual?) && a.Some? && b.Some? then Difference(a.value, b.value) else r2
    case Unary(_, operand) => Scratch(l, operand, st, r)
    case _ => r
  }

  function VarScratch(l: Layout, n: string, r: Word): Word {
    if n in l.globals then Wrap(l.globals[n]) else r
  }

  // ---- Statements

  datatype Outcome =
    | Normal(st: Store)
    | Broke(st: Store)
    | Continued(st: Store)
    | Returned(result: Option<Word>, st: Store)
    | OutOfFuel
    | Undefined

  predicate Defines(o: Outcome) { !o.OutOfFuel? && !o.Undefined? }

  /** Leaving a block drops the variables declared in it. */
  function Leave(o: Outcome, outer: set<string>): Outcome {
    if Defines(o) then o.(st := o.st.(env := map x | x in o.st.env && x in outer :: o.st.env[x])) else o
  }

  predicate Fresh(l: Layout, name: string, st: Store) {
    name !in l.globals && name !in l.arrays && name !in st.env
  }

  /** Writing a word; the first `limit` words hold the program's code. */
  function Write(limit: nat, st: Store, a: Word, v: Word): Outcome {
    if Index(a) < limit then Undefined else Normal(st.(mem := st.mem[Index(a) := v]))
  }

  /** The new value of a place that holds `old`, for `op=` or `=`. */
  function Updated(aop: AssignOp, current: Word, v: Word): Option<Word> {
    if aop.Set? then Some(v) else if IsArithmetic(aop.op) then BinaryValue(aop.op, current, v) else None
  }

  function ExecAssign(l: Layout, limit: nat, name: string, aop: AssignOp, value: Expr, st: Store): (r: Outcome)
    ensures r.Normal? || r.Undefined?
  {
    var v := Eval(l, value, st);
    if v.None? then Undefined
    else if name in l.globals then
      var a := Constant(l.globals[name]);
      // The generator keeps the address in R26 while it evaluates the value.
      if a.None? || Scratch(l, value, st, a.value) != a.value then Undefined
      else
        var u := Updated(aop, st.mem[Index(a.value)], v.value);
        if u.None? then Undefined else Write(limit, st, a.value, u.value)
    else if name !in st.env || (aop.Compound? && st.env[name].None?) then Undefined
    else
      var u := Updated(aop, if aop.Set? then 0 else st.env[name].value, v.value);
      if u.None? then Undefined else Normal(st.(env := st.env[name := u]))
  }

  function ExecStore(l: Layout, limit: nat, a: Word, aop: AssignOp, value: Expr, st: Store): (r: Outcome)
    ensures r.Normal? || r.Undefined?
  {
    var v := Eval(l, value, st);
    if v.None? then Undefined
    else
      var u := Updated(aop, st.mem[Index(a)], v.value);
      if u.None? then Undefined else Write(limit, st, a, u.value)
  }

  function ExecInits(l: Layout, limit: nat, base: int, inits: seq<Expr>, i: nat, st: Store): (r: Outcome)
    requires i <= |inits|
    ensures r.Normal? || r.Undefined?
    decreases |inits| - i
  {
    if i == |inits| then Normal(st)
    else
      var v, a := Eval(l, inits[i], st), Constant(base + i);
      if v.None? || a.None? then Undefined
      else
        var o := Write(limit, st, a.value, v.value);
        if o.Normal? then ExecInits(l, limit, base, inits, i + 1, o.st) else o
  }

  /** The data layout after a statement: arrays are allocated where their declarations stand. */
  function After(l: Layout, s: Stmt): Layout
    decreases s, 1
  {
    match s
    case ArrayDecl(name, size, _) => Declare(l, name, size)
    case If(_, thenBody, elseBody) => AfterSeq(AfterSeq(l, thenBody), elseBody)
    case While(_, body) => AfterSeq(l, body)
    case For(init, _, update, body) =>
      var l1 := AfterSeq(if init.Some? then After(l, init.value) else l, body);
      if update.Some? then After(l1, update.value) else l1
    case Block(stmts) => AfterSeq(l, stmts)
    case _ => l
  }

  function AfterSeq(l: Layout, stmts: seq<Stmt>): Layout
    decreases stmts, 0
  {
    if stmts == [] then l else AfterSeq(After(l, stmts[0]), stmts[1..])
  }

  function ExecBlock(fuel: nat, l: Layout, limit: nat, stmts: seq<Stmt>, st: Store): Outcome
    decreases fuel, stmts, 1
  {
    Leave(ExecSeq(fuel, l, limit, stmts, st), st.env.Keys)
  }

  function ExecSeq(fuel: nat, l: Layout, limit: nat, stmts: seq<Stmt>, st: Store): Outcome
    decreases fuel, stmts, 0
  {
    if stmts == [] then Normal(st)
    else
      var o := Exec(fuel, l, limit, stmts[0], st);
      if o.Normal? then ExecSeq(fuel, After(l, stmts[0]), limit, stmts[1..], o.st) else o
  }

  /** The body and the update of a loop. Normal: on to the next test; Broke: out of the loop. */
  function Round(fuel: nat, l: Layout, limit: nat, update: Option<Stmt>, body: seq<Stmt>, st: Store): (r: Outcome)
    requires fuel > 0
    ensures !r.Continued?
    decreases fuel, body, 0
  {
    var o := ExecBlock(fuel - 1, l, limit, body, st);
    if o.Normal? || o.Continued? then
      var u := if update.Some? then Leave(Exec(fuel - 1, AfterSeq(l, body), limit, update.value, o.st), o.st.env.Keys)
               else Normal(o.st);
      if u.Normal? || u.OutOfFuel? then u else Undefined
    else o
  }

  /** The rest of a loop, from its test on. Each round takes one unit of fuel. */
  function ExecLoop(fuel: nat, l: Layout, limit: nat, cond: Option<Expr>, update: Option<Stmt>, body: seq<Stmt>,
      st: Store): (r: Outcome)
    ensures !r.Broke? && !r.Continued?
    decreases fuel, body, 1
  {
    if fuel == 0 then OutOfFuel
    else
      var c := CondValue(l, cond, st);
      if c.None? then Undefined
      else if c.value == 0 then Normal(st)
      else
        var o := Round(fuel, l, limit, update, body, st);
        if o.Normal? then ExecLoop(fuel - 1, l, limit, cond, update, body, o.st)
        else if o.Broke? then Normal(o.st)
        else o
  }

  /** A missing condition counts as true. */
  function CondValue(l: Layout, cond: Option<Expr>, st: Store): Option<Word> {
    if cond.Some? then Eval(l, cond.value, st) else Some(1)
  }

  function Exec(fuel: nat, l: Layout, limit: nat, s: Stmt, st: Store): Outcome
    decreases fuel, s
  {
    match s
    case VarDecl(name, init) =>
      if !Fresh(l, name, st) then Undefined
      else if init.None? then Normal(st.(env := st.env[name := None]))
      else
        var v := Eval(l, init.value, st);
        if v.None? then Undefined else Normal(st.(env := st.env[name := v]))
    case ArrayDecl(name, size, inits) =>
      if !Fresh(l, name, st) then Undefined else ExecInits(Declare(l, name, size), limit, l.next, inits, 0, st)
    case Assign(name, aop, value) => ExecAssign(l, limit, name, aop, value, st)
    case ArrayAssign(name, index, aop, value) =>
      var a := Slot(l, name, index, st);
      if a.None? then Undefined else ExecStore(l, limit, a.value, aop, value, st)
    case DerefAssign(ptr, aop, value) =>
      var a := Eval(l, ptr, st);
      if a.None? then Undefined else ExecStore(l, limit, a.value, aop, value, st)
    case If(cond, thenBody, elseBody) =>
      var c := Eval(l, cond, st);
      if c.None? then Undefined
      else if c.value != 0 then ExecBlock(fuel, l, limit, thenBody, st)
      else ExecBlock(fuel, AfterSeq(l, thenBody), limit, elseBody, st)
    case While(cond, body) => ExecLoop(fuel, l, limit, Some(cond), None, body, st)
    case For(init, cond, update, body) =>
      var i := if init.Some? then Exec(fuel, l, limit, init.value, st) else Normal(st);
      if i.Normal? then
        Leave(ExecLoop(fuel, if init.Some? then After(l, init.value) else l, limit, cond, update, body, i.st),
            st.env.Keys)
      else if i.OutOfFuel? then OutOfFuel
      else Undefined
    case Return(result) =>
      if result.None? then Returned(None, st)
      else
        var v := Eval(l, result.value, st);
        if v.None? then Undefined else Returned(v, st)
    case Break => Broke(st)
    case Continue => Continued(st)
    case ExprStmt(e) => if Eval(l, e, st).None? then Undefined else Normal(st)
    case Block(stmts) => ExecBlock(fuel, l, limit, stmts, st)
  }
}
