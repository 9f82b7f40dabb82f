/** Code for statements does what the statements mean. */
module CompilerStmt {
  import opened Words
  import opened Isa
  import opened Memory
  import opened Wrappers
  import opened Ast
  import opened Assembly
  import opened Sequential
  import opened CodeGen
  import opened Semantics
  import opened CompilerStatic
  import opened CompilerStmtStatic
  import opened CompilerExpr
  import Alu

  // ---- Code stays in place

  ghost predicate SameCode(m0: Mem, m: Mem, limit: nat) {
    limit >= CODE_TOP && forall i: nat :: i < limit && i < MEM_SIZE ==> m[i] == m0[i]
  }

  /** The code stands in the program m0, of which memory still holds every word below limit, at s.pc; the machine
      agrees with the source state. */
  ghost predicate Starts(t: Symbols, m0: Mem, limit: nat, cx: Cx, code: seq<Line>, s: Arch, st: Store) {
    Sound(cx) && CodeAt(m0, t, s.pc, code) && s.pc + Size(code) <= limit && Agree(cx, st, s)
        && SameCode(m0, s.mem, limit)
  }

  /** The same, with the code looked up in memory itself. */
  ghost predicate Loaded(t: Symbols, m0: Mem, limit: nat, cx: Cx, code: seq<Line>, s: Arch, st: Store) {
    Sound(cx) && CodeAt(s.mem, t, s.pc, code) && Agree(cx, st, s) && SameCode(m0, s.mem, limit)
  }

  lemma StartsLoaded(t: Symbols, m0: Mem, limit: nat, cx: Cx, code: seq<Line>, s: Arch, st: Store)
    requires Starts(t, m0, limit, cx, code, s, st)
    ensures Loaded(t, m0, limit, cx, code, s, st)
  {
    hide CodeAt, Size, Sound, Agree, SameCode;
    CodeNow(m0, s.mem, limit, t, s.pc, code);
  }

  lemma CodeNow(m0: Mem, m: Mem, limit: nat, t: Symbols, a: nat, lines: seq<Line>)
    requires SameCode(m0, m, limit) && CodeAt(m0, t, a, lines) && a + Size(lines) <= limit
    ensures CodeAt(m, t, a, lines)
  {
    hide CodeAt, Size;
    CodeAtFrame(m0, m, t, a, lines);
  }

  /** How the machine state s' answers an outcome, with `end` the address behind the code. */
  ghost predicate Finishes(t: Symbols, m0: Mem, limit: nat, cx: Cx, end: int, o: Outcome, s: Arch, s': Arch) {
    && Reaches(s, s') && SameCode(m0, s'.mem, limit)
    && match o
       case Normal(st) => s'.pc == end && Agree(cx, st, s')
       case Broke(st) => |cx.loops| > 0 && cx.loops[|cx.loops| - 1].1 in t && s'.pc == t[cx.loops[|cx.loops| - 1].1]
           && Agree(cx, st, s')
       case Continued(st) => |cx.loops| > 0 && cx.loops[|cx.loops| - 1].0 in t
           && s'.pc == t[cx.loops[|cx.loops| - 1].0] && Agree(cx, st, s')
       case Returned(v, st) =>
         && s'.pc + 2 < CODE_TOP && Isa.Decode(Fetch(s')) == InstrJ(if cx.main then HLT else RET, 0)
         && s'.mem == st.mem && (v.Some? ==> s'.regs[1] == v.value)
       case _ => false
  }

  lemma AgreeGrown(cx: Cx, cx': Cx, st: Store, s: Arch)
    requires Agree(cx, st, s) && Grown(cx, cx')
    ensures Agree(cx', st, s)
  {
  }

  /** A result for the contexts in the middle is one for the contexts at the end. */
  lemma FinishesGrown(t: Symbols, m0: Mem, limit: nat, cx: Cx, cx': Cx, end: int, end': int, o: Outcome, s0: Arch,
      s: Arch, s': Arch)
    requires Finishes(t, m0, limit, cx, end, o, s, s') && Grown(cx, cx') && Reaches(s0, s)
             && (o.Normal? ==> end == end')
    ensures Finishes(t, m0, limit, cx', end', o, s0, s')
  {
    hide Reaches, Isa.Decode;
    ReachesTrans(s0, s, s');
    if o.Normal? || o.Broke? || o.Continued? { AgreeGrown(cx, cx', o.st, s'); }
  }

  // ---- Stores

  /** A store, wherever it goes. */
  lemma StoreSteps(t: Symbols, rs2: Reg, rs1: Reg, s: Arch)
    requires CodeAt(s.mem, t, s.pc, [StoreWord(rs2, rs1)])
    ensures Size([StoreWord(rs2, rs1)]) == 1
    ensures IsaStep(s) == s.(pc := s.pc + 1, mem := s.mem[Index(s.regs[rs1]) := s.regs[rs2]])
  {
    hide IsaStep, Isa.Decode;
    assert [StoreWord(rs2, rs1)][1..] == [];
    EffectIsStep(t, InsS(SW, rs2, Num(0), rs1), s);
  }

  lemma RunStore(t: Symbols, rs2: Reg, rs1: Reg, s: Arch) returns (s': Arch)
    requires CodeAt(s.mem, t, s.pc, [StoreWord(rs2, rs1)]) && Index(s.regs[rs1]) >= CODE_TOP
    ensures Size([StoreWord(rs2, rs1)]) == 1
    ensures Reaches(s, s') && s' == s.(pc := s.pc + 1, mem := s.mem[Index(s.regs[rs1]) := s.regs[rs2]])
  {
    hide IsaStep, Reaches;
    assert [StoreWord(rs2, rs1)] == [StoreWord(rs2, rs1)] + [];
    s' := RunOne(t, InsS(SW, rs2, Num(0), rs1), [], s);
  }

  /** The instructions behind the value in `*ra = v` and `*ra op= v`. */
  function StoreTail(aop: AssignOp, ra: Reg, v: Reg, rc: Reg): seq<Line>
    requires aop.Compound? ==> IsArithmetic(aop.op)
  {
    if aop.Set? then [StoreWord(v, ra)]
    else [LoadWord(rc, ra), RegOp(ArithmeticOpcode(aop.op), rc, rc, v), StoreWord(rc, ra)]
  }

  /** These instructions up to the last one, which stores the new value u from register r. */
  lemma BeforeStore(t: Symbols, aop: AssignOp, ra: Reg, v: Reg, rc: Reg, u: Word, s: Arch) returns (s': Arch, r: Reg)
    requires aop.Compound? ==> IsArithmetic(aop.op) && rc != 0 && rc != ra && rc != v
    requires CodeAt(s.mem, t, s.pc, StoreTail(aop, ra, v, rc))
    requires Updated(aop, s.mem[Index(s.regs[ra])], s.regs[v]) == Some(u)
    ensures Reaches(s, s') && s'.pc + 1 == s.pc + Size(StoreTail(aop, ra, v, rc)) && s'.mem == s.mem
    ensures CodeAt(s.mem, t, s'.pc, [StoreWord(r, ra)]) && s'.regs[ra] == s.regs[ra] && s'.regs[r] == u
    ensures forall j: Reg :: aop.Set? || j != rc ==> s'.regs[j] == s.regs[j]
  {
    hide CodeAt, IsaStep, Reaches, BinaryValue;
    if aop.Set? {
      ReachesSelf(s);
      s', r := s, v;
    } else {
      hide Size;
      var op := ArithmeticOpcode(aop.op);
      var l0, l1, l2 := LoadWord(rc, ra), RegOp(op, rc, rc, v), StoreWord(rc, ra);
      assert StoreTail(aop, ra, v, rc) == [l0] + ([l1] + [l2]);
      ArithmeticValue(aop.op, s.mem[Index(s.regs[ra])], s.regs[v]);
      CodeHead(s.mem, t, s.pc, l0, [l1] + [l2]);
      var s1 := RunLoad(t, rc, ra, [l1] + [l2], s);
      CodeHead(s.mem, t, s1.pc, l1, [l2]);
      s' := RunR(t, op, rc, rc, v, [l2], s1);
      ReachesTrans(s, s1, s');
      r := rc;
      StoreSteps(t, rc, ra, s');
    }
  }

  lemma StoreTailRuns(t: Symbols, aop: AssignOp, ra: Reg, v: Reg, rc: Reg, u: Word, s: Arch) returns (s': Arch)
    requires aop.Compound? ==> IsArithmetic(aop.op) && rc != 0 && rc != ra && rc != v
    requires CodeAt(s.mem, t, s.pc, StoreTail(aop, ra, v, rc)) && Index(s.regs[ra]) >= CODE_TOP
    requires Updated(aop, s.mem[Index(s.regs[ra])], s.regs[v]) == Some(u)
    ensures Reaches(s, s') && s'.pc == s.pc + Size(StoreTail(aop, ra, v, rc)) && s'.mem == s.mem[Index(s.regs[ra]) := u]
    ensures forall j: Reg :: aop.Set? || j != rc ==> s'.regs[j] == s.regs[j]
  {
    hide *;
    var s1, r := BeforeStore(t, aop, ra, v, rc, u, s);
    s' := RunStore(t, r, ra, s1);
    ReachesTrans(s, s1, s');
  }

  lemma AgreeStore(cx: Cx, cx': Cx, st: Store, m: Mem, s: Arch, s': Arch)
    requires Sound(cx) && Agree(cx, st, s) && Grown(cx, cx') && Kept(s, s', cx.nextReg) && s'.mem == m
    ensures Agree(cx', st.(mem := m), s')
  {
  }

  lemma StoreOrder(cx: Cx, ra: Reg, aop: AssignOp, value: Expr, g: Out)
    requires Sound(cx) && GenStore(cx, ra, aop, value) == Some(g) && GenExpr(cx, value).Some?
    ensures Grown(cx, g.cx)
    ensures aop.Compound? ==> IsArithmetic(aop.op) && AllocTemp(GenExpr(cx, value).value.cx).Some?
  {
    hide GenExpr;
    StoreFacts(cx, ra, aop, value);
    ExtendsGrown(cx, g.cx);
  }

  /** `*address op= value`, with the address in ra. */
  lemma StoreRuns(t: Symbols, m0: Mem, limit: nat, cx: Cx, ra: Reg, aop: AssignOp, value: Expr, g: Out, o: Outcome,
      s: Arch, st: Store)
    returns (s': Arch)
    requires GenStore(cx, ra, aop, value) == Some(g) && Loaded(t, m0, limit, cx, g.code, s, st)
    requires Allocatable(ra) && ra < cx.nextReg && ExecStore(cx.layout, limit, s.regs[ra], aop, value, st) == o
             && o.Normal?
    ensures Finishes(t, m0, limit, g.cx, s.pc + Size(g.code), o, s, s')
  {
    hide CodeAt, Size, IsaStep, Reaches, Sound, Extends, Grown, GenExpr, Eval, Scratch, BinaryValue, Isa.Decode;
    ExprOrder(cx, value);
    var v := GenExpr(cx, value).value;
    StoreOrder(cx, ra, aop, value, g);
    if aop.Compound? { TempOrder(v.cx); }
    var rc := if aop.Compound? then AllocTemp(v.cx).value.0 else 1;
    var tail := StoreTail(aop, ra, v.reg, rc);
    assert g.code == v.code + tail;
    Split(s.mem, t, s.pc, v.code, tail);
    var s1 := ExprRuns(t, cx, value, s, st);
    s' := StoreTailRuns(t, aop, ra, v.reg, rc, o.st.mem[Index(s.regs[ra])], s1);
    ReachesTrans(s, s1, s');
    AgreeStore(cx, g.cx, st, s'.mem, s, s');
  }

  // ---- Global variables

  /** `name op= value` for a global at address b, with code g and a value v. */
  ghost predicate AssignsGlobal(cx: Cx, name: string, aop: AssignOp, value: Expr, st: Store, g: Out, b: Word, v: Word) {
    && name in cx.layout.globals && GenAssign(cx, name, aop, value) == Some(g)
    && Constant(cx.layout.globals[name]) == Some(b) && Eval(cx.layout, value, st) == Some(v)
  }

  /** The code up to its last instruction: a store of u from register r, through R26. */
  lemma BeforeGlobalStore(t: Symbols, cx: Cx, name: string, aop: AssignOp, value: Expr, g: Out, b: Word, v: Word,
      u: Word, s: Arch, st: Store)
    returns (s': Arch, r: Reg)
    requires Sound(cx) && Agree(cx, st, s) && CodeAt(s.mem, t, s.pc, g.code)
             && AssignsGlobal(cx, name, aop, value, st, g, b, v)
    requires Updated(aop, st.mem[Index(Scratch(cx.layout, value, st, b))], v) == Some(u)
    ensures Reaches(s, s') && s'.pc + 1 == s.pc + Size(g.code) && s'.mem == s.mem && Kept(s, s', cx.nextReg)
            && Grown(cx, g.cx)
    ensures s'.regs[FLAGS_TMP] == Scratch(cx.layout, value, st, b) && s'.regs[r] == u
    ensures CodeAt(s.mem, t, s'.pc, [StoreWord(r, FLAGS_TMP)])
  {
    hide CodeAt, Size, IsaStep, Reaches, Sound, Extends, Grown, GenExpr, Eval, Scratch, BinaryValue, Loadable, LoadImm,
      LoadedValue;
    var addr := cx.layout.globals[name];
    ExprOrder(cx, value);
    var e := GenExpr(cx, value).value;
    if aop.Compound? { TempOrder(e.cx); }
    AssignFacts(cx, name, aop, value);
    var rc := if aop.Compound? then AllocTemp(e.cx).value.0 else 1;
    var load, tail := LoadImm(FLAGS_TMP, addr), StoreTail(aop, FLAGS_TMP, e.reg, rc);
    assert g.code == (load + e.code) + tail;
    Split(s.mem, t, s.pc, load + e.code, tail);
    Split(s.mem, t, s.pc, load, e.code);
    LoadImmExact(addr);
    var s1 := LoadImmRuns(t, FLAGS_TMP, addr, s);
    assert Agree(cx, st, s1) by { AgreeScratch(cx, st, s, s1); }
    var s2 := ExprRuns(t, cx, value, s1, st);
    ReachesTrans(s, s1, s2);
    s', r := BeforeStore(t, aop, FLAGS_TMP, e.reg, rc, u, s2);
    ReachesTrans(s, s2, s');
  }

  lemma LastStep(s: Arch, s1: Arch) returns (k: nat)
    requires Reaches(s, s1)
    ensures IsaRun(s, k) == IsaStep(s1)
  {
    hide IsaStep, Steady;
    var n: nat :| IsaRun(s, n) == s1 && SteadyRun(s, n);
    k := n + 1;
  }

  /** What an assignment to a global does, on every input: the address is kept in R26 while the value is computed,
      and the store goes to whatever R26 then holds, be it the program's own code. */
  lemma GlobalAssignRuns(t: Symbols, cx: Cx, name: string, aop: AssignOp, value: Expr, g: Out, b: Word, v: Word,
      u: Word, s: Arch, st: Store)
    returns (k: nat, s': Arch)
    requires Sound(cx) && Agree(cx, st, s) && CodeAt(s.mem, t, s.pc, g.code)
             && AssignsGlobal(cx, name, aop, value, st, g, b, v)
    requires Updated(aop, st.mem[Index(Scratch(cx.layout, value, st, b))], v) == Some(u)
    ensures IsaRun(s, k) == s' && s'.pc == s.pc + Size(g.code)
    ensures s'.mem == st.mem[Index(Scratch(cx.layout, value, st, b)) := u] && Agree(g.cx, st.(mem := s'.mem), s')
    ensures Index(Scratch(cx.layout, value, st, b)) >= CODE_TOP ==> Reaches(s, s')
  {
    hide CodeAt, Size, IsaStep, Reaches, Sound, Grown, GenAssign, Eval, Scratch, Updated, Constant, Index;
    var s1, r := BeforeGlobalStore(t, cx, name, aop, value, g, b, v, u, s, st);
    StoreSteps(t, r, FLAGS_TMP, s1);
    s' := IsaStep(s1);
    k := LastStep(s, s1);
    AgreeStore(cx, g.cx, st, s'.mem, s, s');
    if Index(Scratch(cx.layout, value, st, b)) >= CODE_TOP {
      var s2 := RunStore(t, r, FLAGS_TMP, s1);
      ReachesTrans(s, s1, s2);
    }
  }

  /** `name op= value` leaves memory as the language has it exactly when R26 still names the word of `name`,
      or when neither the intended nor the actual store would change anything. */
  lemma GlobalAssignIff(t: Symbols, cx: Cx, name: string, aop: AssignOp, value: Expr, g: Out, b: Word, v: Word,
      u: Word, w: Word,
                        s: Arch, st: Store)
    returns (k: nat, s': Arch)
    requires Sound(cx) && Agree(cx, st, s) && CodeAt(s.mem, t, s.pc, g.code)
             && AssignsGlobal(cx, name, aop, value, st, g, b, v)
    requires Updated(aop, st.mem[Index(Scratch(cx.layout, value, st, b))], v) == Some(u)
    requires Updated(aop, st.mem[Index(b)], v) == Some(w)
    ensures IsaRun(s, k) == s' && s'.pc == s.pc + Size(g.code)
    ensures var i, j := Index(Scratch(cx.layout, value, st, b)), Index(b);
            s'.mem == st.mem[j := w] <==> i == j || (st.mem[i] == u && st.mem[j] == w)
  {
    hide *;
    k, s' := GlobalAssignRuns(t, cx, name, aop, value, g, b, v, u, s, st);
    SameUpdate(st.mem, Index(Scratch(cx.layout, value, st, b)), u, Index(b), w);
  }

  lemma SameUpdate(m: Mem, i: nat, x: Word, j: nat, y: Word)
    requires i < MEM_SIZE && j < MEM_SIZE
    ensures m[i := x] == m[j := y] <==> (i == j && x == y) || (m[i] == x && m[j] == y)
  {
    assert m[i := x][i] == x && m[j := y][j] == y;
  }

  /** The smallest assignment that goes wrong: `g = (x == y)` on two local variables stores to address x - y. With
      x == y it overwrites the program's first word and leaves g as it was. */
  lemma GlobalEqualityFails(t: Symbols, cx: Cx, name: string, x: string, y: string, g: Out, b: Word, a: Word, c: Word,
      s: Arch, st: Store)
    returns (k: nat, s': Arch)
    requires Sound(cx) && Agree(cx, st, s) && CodeAt(s.mem, t, s.pc, g.code)
    requires AssignsGlobal(cx, name, Set, Binary(Equal, VarRef(x), VarRef(y)), st, g, b, Truth(a == c))
    requires x !in cx.layout.globals && x in st.env && st.env[x] == Some(a)
    requires y !in cx.layout.globals && y in st.env && st.env[y] == Some(c)
    ensures IsaRun(s, k) == s' && s'.pc == s.pc + Size(g.code)
    ensures s'.mem == st.mem[Index(Difference(a, c)) := Truth(a == c)]
    ensures a == c ==> s'.mem == st.mem[0 := 1] && (Index(b) != 0 ==> s'.mem[Index(b)] == st.mem[Index(b)])
  {
    hide *;
    EqualityScratch(cx.layout, x, y, st, b, a, c);
    SetValue(st.mem[Index(Difference(a, c))], Truth(a == c));
    ZeroDifference(a, c);
    k, s' := GlobalAssignRuns(t, cx, name, Set, Binary(Equal, VarRef(x), VarRef(y)), g, b, Truth(a == c),
        Truth(a == c), s, st);
  }

  lemma SetValue(current: Word, v: Word)
    ensures Updated(Set, current, v) == Some(v)
  {
  }

  lemma ZeroDifference(a: Word, c: Word)
    ensures a == c ==> Index(Difference(a, c)) == 0 && Truth(a == c) == 1
  {
  }

  lemma EqualityScratch(l: Layout, x: string, y: string, st: Store, r: Word, a: Word, c: Word)
    requires x !in l.globals && x in st.env && st.env[x] == Some(a)
    requires y !in l.globals && y in st.env && st.env[y] == Some(c)
    ensures Scratch(l, Binary(Equal, VarRef(x), VarRef(y)), st, r) == Difference(a, c)
  {
    hide Difference;
    assert Eval(l, VarRef(x), st) == Some(a) && Eval(l, VarRef(y), st) == Some(c);
  }

  /** Neither == nor != in the value, and no global read but `name` itself. */
  predicate LeavesScratch(l: Layout, e: Expr, name: string) {
    match e
    case VarRef(n) => n in l.globals ==> n == name
    case ArrayRef(n, index) => (n in l.arrays || (n in l.globals ==> n == name)) && LeavesScratch(l, index, name)
    case AddrOfElement(_, index) => LeavesScratch(l, index, name)
    case Deref(ptr) => LeavesScratch(l, ptr, name)
    case Binary(op, left, right) => !op.Equal? && !op.NotEqual? && LeavesScratch(l, left, name)
        && LeavesScratch(l, right, name)
    case Unary(_, operand) => LeavesScratch(l, operand, name)
    case _ => true
  }

  /** Then R26 still holds the address of `name`, so the assignment is right. */
  lemma {:induction false} LeavesScratchSuffices(l: Layout, e: Expr, name: string, st: Store)
    requires name in l.globals && LeavesScratch(l, e, name)
    ensures Scratch(l, e, st, Wrap(l.globals[name])) == Wrap(l.globals[name])
  {
    hide Wrap, Difference, Eval;
    match e
    case ArrayRef(_, index) => LeavesScratchSuffices(l, index, name, st);
    case AddrOfElement(_, index) => LeavesScratchSuffices(l, index, name, st);
    case Deref(ptr) => LeavesScratchSuffices(l, ptr, name, st);
    case Binary(_, left, right) =>
      LeavesScratchSuffices(l, left, name, st);
      LeavesScratchSuffices(l, right, name, st);
    case Unary(_, operand) => LeavesScratchSuffices(l, operand, name, st);
    case _ =>
  }

  lemma AgreeScratch(cx: Cx, st: Store, s: Arch, s': Arch)
    requires Sound(cx) && Agree(cx, st, s) && s'.mem == s.mem && forall j: Reg | j != FLAGS_TMP ::
             s'.regs[j] == s.regs[j]
    ensures Agree(cx, st, s')
  {
  }

  // ---- Local variables

  /** `x = v` for a local variable, whose register is reg. */
  lemma AgreeSet(cx: Cx, st: Store, name: string, v: Word, s: Arch, s': Arch)
    requires Sound(cx) && name in cx.vars && s'.mem == st.mem && s'.regs[cx.vars[name]] == v
    requires forall x | x in st.env && x != name ::
               x in cx.vars && (st.env[x].Some? ==> s'.regs[cx.vars[x]] == st.env[x].value)
    ensures Agree(cx, st.(env := st.env[name := Some(v)]), s')
  {
  }

  /** Registers other than reg that matter to the variables of st are as before. */
  lemma OthersKept(cx: Cx, st: Store, name: string, s: Arch, s': Arch)
    requires Sound(cx) && name in cx.vars
    requires forall x | x in st.env && x != name ::
               x in cx.vars && (st.env[x].Some? ==> s.regs[cx.vars[x]] == st.env[x].value)
    requires forall j: Reg :: (j < cx.nextReg || j >= 30) && j != 26 && j != cx.vars[name] ==> s'.regs[j] == s.regs[j]
    ensures forall x | x in st.env && x != name ::
              x in cx.vars && (st.env[x].Some? ==> s'.regs[cx.vars[x]] == st.env[x].value)
  {
  }

  /** MOV into reg, unless the value is already there. */
  function MoveCode(reg: Reg, v: Reg): seq<Line> { if v != reg then [RegOp(MOV, reg, v, 0)] else [] }

  lemma MoveRuns(t: Symbols, reg: Reg, v: Reg, s: Arch) returns (s': Arch)
    requires CodeAt(s.mem, t, s.pc, MoveCode(reg, v)) && reg != 0
    ensures Ran(s, s', Size(MoveCode(reg, v))) && s'.regs == s.regs[reg := s.regs[v]]
  {
    hide IsaStep, Reaches, Alu.Execute;
    if v != reg {
      var line := RegOp(MOV, reg, v, 0);
      assert MoveCode(reg, v) == [line] + [];
      MovValue(s.regs[v], s.regs[0]);
      s' := RunR(t, MOV, reg, v, 0, [], s);
    } else {
      ReachesSelf(s);
      s' := s;
    }
  }

  lemma MovValue(a: Word, b: Word)
    ensures Alu.Execute(MOV, a, b) == a
  {
  }

  /** Evaluating e and moving the value into reg, the register of variable `name`. */
  lemma SetRuns(t: Symbols, cx: Cx, name: string, e: Expr, s: Arch, st: Store) returns (s': Arch)
    requires Sound(cx) && name in cx.vars && GenExpr(cx, e).Some? && Agree(cx, st, s) && Eval(cx.layout, e, st).Some?
    requires CodeAt(s.mem, t, s.pc, GenExpr(cx, e).value.code + MoveCode(cx.vars[name], GenExpr(cx, e).value.reg))
    ensures Ran(s, s', Size(GenExpr(cx, e).value.code + MoveCode(cx.vars[name], GenExpr(cx, e).value.reg)))
    ensures Agree(GenExpr(cx, e).value.cx, st.(env := st.env[name := Some(Eval(cx.layout, e, st).value)]), s')
  {
    hide CodeAt, Size, IsaStep, Reaches, GenExpr, Eval, MoveCode, Scratch;
    ExprFacts(cx, e);
    var v := GenExpr(cx, e).value;
    var reg := cx.vars[name];
    Split(s.mem, t, s.pc, v.code, MoveCode(reg, v.reg));
    var s1 := ExprRuns(t, cx, e, s, st);
    s' := MoveRuns(t, reg, v.reg, s1);
    ReachesTrans(s, s1, s');
    AgreeKept(cx, v.cx, st, s, s1);
    OthersKept(v.cx, st, name, s1, s');
    AgreeSet(v.cx, st, name, Eval(cx.layout, e, st).value, s1, s');
  }

  /** `x = a op b` computes straight into the register of x. */
  lemma SetBinaryRuns(t: Symbols, cx: Cx, name: string, e: Expr, s: Arch, st: Store) returns (s': Arch)
    requires Sound(cx) && name in cx.vars && e.Binary? && !IsLogical(e.op)
             && GenBinary(cx, e, Some(cx.vars[name])).Some?
    requires Agree(cx, st, s) && Eval(cx.layout, e, st).Some?
    requires CodeAt(s.mem, t, s.pc, GenBinary(cx, e, Some(cx.vars[name])).value.code)
    ensures Ran(s, s', Size(GenBinary(cx, e, Some(cx.vars[name])).value.code))
    ensures Agree(GenBinary(cx, e, Some(cx.vars[name])).value.cx,
                  st.(env := st.env[name := Some(Eval(cx.layout, e, st).value)]), s')
  {
    hide CodeAt, Size, IsaStep, Reaches, GenBinary, Eval, Scratch;
    var dest := Some(cx.vars[name]);
    BinaryFacts(cx, e, dest);
    var g := GenBinary(cx, e, dest).value;
    s' := BinaryRuns(t, cx, e, dest, s, st);
    OthersKept(cx, st, name, s, s');
    AgreeSet(g.cx, st, name, Eval(cx.layout, e, st).value, s, s');
  }

  /** `x op= e`. */
  lemma CompoundRuns(t: Symbols, cx: Cx, name: string, op: BinaryOp, e: Expr, s: Arch, st: Store) returns (s': Arch)
    requires Sound(cx) && name in cx.vars && GenExpr(cx, e).Some? && IsArithmetic(op)
    requires Agree(cx, st, s) && Eval(cx.layout, e, st).Some? && name in st.env && st.env[name].Some?
    requires BinaryValue(op, st.env[name].value, Eval(cx.layout, e, st).value).Some?
    requires CodeAt(s.mem, t, s.pc,
                    GenExpr(cx, e).value.code
                    + [RegOp(ArithmeticOpcode(op), cx.vars[name], cx.vars[name], GenExpr(cx, e).value.reg)])
    ensures Ran(s, s', Size(GenExpr(cx, e).value.code
                            + [RegOp(ArithmeticOpcode(op), cx.vars[name], cx.vars[name], GenExpr(cx, e).value.reg)]))
    ensures Agree(GenExpr(cx, e).value.cx,
                  st.(env := st.env[name := BinaryValue(op, st.env[name].value, Eval(cx.layout, e, st).value)]), s')
  {
    hide CodeAt, Size, IsaStep, Reaches, GenExpr, Eval, Scratch, BinaryValue, Alu.Execute;
    ExprFacts(cx, e);
    var v := GenExpr(cx, e).value;
    var reg, opcode := cx.vars[name], ArithmeticOpcode(op);
    var line := RegOp(opcode, reg, reg, v.reg);
    Split(s.mem, t, s.pc, v.code, [line]);
    var s1 := ExprRuns(t, cx, e, s, st);
    assert [line] == [line] + [];
    NoCode();
    CodeHead(s.mem, t, s1.pc, line, []);
    ArithmeticValue(op, s1.regs[reg], s1.regs[v.reg]);
    s' := RunR(t, opcode, reg, reg, v.reg, [], s1);
    ReachesTrans(s, s1, s');
    AgreeKept(cx, v.cx, st, s, s1);
    OthersKept(v.cx, st, name, s1, s');
    AgreeSet(v.cx, st, name, s'.regs[reg], s1, s');
  }

  lemma SameCodeWrite(m0: Mem, m: Mem, limit: nat, i: nat, v: Word)
    requires SameCode(m0, m, limit) && limit <= i < MEM_SIZE
    ensures SameCode(m0, m[i := v], limit)
  {
  }

  lemma GlobalRuns(t: Symbols, m0: Mem, limit: nat, cx: Cx, name: string, aop: AssignOp, value: Expr, g: Out,
      o: Outcome, s: Arch, st: Store)
    returns (s': Arch)
    requires name in cx.layout.globals && GenAssign(cx, name, aop, value) == Some(g)
             && Loaded(t, m0, limit, cx, g.code, s, st)
    requires ExecAssign(cx.layout, limit, name, aop, value, st) == o && o.Normal?
    ensures Finishes(t, m0, limit, g.cx, s.pc + Size(g.code), o, s, s')
  {
    hide CodeAt, Size, GenAssign, Eval, Scratch, Updated, Constant, Sound, Agree, Reaches, IsaRun, Index;
    var v, b := Eval(cx.layout, value, st).value, Constant(cx.layout.globals[name]).value;
    var u := Updated(aop, st.mem[Index(b)], v).value;
    var k;
    k, s' := GlobalAssignRuns(t, cx, name, aop, value, g, b, v, u, s, st);
    AgreeMem(cx, st, s, s);
    SameCodeWrite(m0, s.mem, limit, Index(b), u);
  }

  lemma LocalRuns(t: Symbols, m0: Mem, limit: nat, cx: Cx, name: string, aop: AssignOp, value: Expr, g: Out,
      o: Outcome, s: Arch, st: Store)
    returns (s': Arch)
    requires name !in cx.layout.globals && GenAssign(cx, name, aop, value) == Some(g)
             && Loaded(t, m0, limit, cx, g.code, s, st)
    requires ExecAssign(cx.layout, limit, name, aop, value, st) == o && o.Normal?
    ensures Finishes(t, m0, limit, g.cx, s.pc + Size(g.code), o, s, s')
  {
    hide CodeAt, Size, IsaStep, Reaches, GenExpr, GenBinary, Eval, Scratch, BinaryValue, Sound, Extends, Isa.Decode,
      SameCode;
    assert AllocVar(cx, name).value == (cx.vars[name], cx);
    if aop.Set? {
      if value.Binary? && !IsLogical(value.op) {
        s' := SetBinaryRuns(t, cx, name, value, s, st);
      } else {
        s' := SetRuns(t, cx, name, value, s, st);
      }
    } else {
      s' := CompoundRuns(t, cx, name, aop.op, value, s, st);
    }
  }

  lemma AssignRuns(t: Symbols, m0: Mem, limit: nat, cx: Cx, name: string, aop: AssignOp, value: Expr, g: Out,
      o: Outcome, s: Arch, st: Store)
    returns (s': Arch)
    requires GenAssign(cx, name, aop, value) == Some(g) && Loaded(t, m0, limit, cx, g.code, s, st)
    requires ExecAssign(cx.layout, limit, name, aop, value, st) == o && o.Normal?
    ensures Finishes(t, m0, limit, g.cx, s.pc + Size(g.code), o, s, s')
  {
    hide *;
    if name in cx.layout.globals {
      s' := GlobalRuns(t, m0, limit, cx, name, aop, value, g, o, s, st);
    } else {
      s' := LocalRuns(t, m0, limit, cx, name, aop, value, g, o, s, st);
    }
  }

  lemma VarDeclRuns(t: Symbols, m0: Mem, limit: nat, cx: Cx, name: string, init: Option<Expr>, g: Out, v: Option<Word>,
      s: Arch, st: Store)
    returns (s': Arch)
    requires GenStmt(cx, VarDecl(name, init)) == Some(g) && Loaded(t, m0, limit, cx, g.code, s, st)
             && Fresh(cx.layout, name, st)
    requires if init.Some? then v.Some? && Eval(cx.layout, init.value, st) == v else v.None?
    ensures Finishes(t, m0, limit, g.cx, s.pc + Size(g.code), Normal(st.(env := st.env[name := v])), s, s')
  {
    hide CodeAt, Size, IsaStep, Reaches, GenExpr, Eval, Scratch, FreeTemps, Sound, SameCode, Isa.Decode;
    VarFacts(cx, name);
    var cx1 := AllocVar(cx, name).value.1;
    ExtendsGrown(cx, cx1);
    AgreeGrown(cx, cx1, st, s);
    if init.None? {
      ReachesSelf(s);
      NoCode();
      FreeFacts(cx1);
      s' := s;
    } else {
      s' := SetRuns(t, cx1, name, init.value, s, st);
      ExprFacts(cx1, init.value);
      FreeFacts(GenExpr(cx1, init.value).value.cx);
    }
  }

  /** A value, and then an address in the scratch register. */
  lemma ValueThenAddress(t: Symbols, cx: Cx, e: Expr, address: int, s: Arch, st: Store) returns (s': Arch)
    requires Sound(cx) && GenExpr(cx, e).Some? && Agree(cx, st, s) && Eval(cx.layout, e, st).Some?
             && Constant(address).Some?
    requires CodeAt(s.mem, t, s.pc, GenExpr(cx, e).value.code + LoadImm(FLAGS_TMP, address))
    ensures var v := GenExpr(cx, e).value;
            && Reaches(s, s') && s'.pc == s.pc + Size(v.code + LoadImm(FLAGS_TMP, address)) && s'.mem == s.mem
            && Agree(v.cx, st, s') && s'.regs[v.reg] == Eval(cx.layout, e, st).value
                && s'.regs[FLAGS_TMP] == Constant(address).value
  {
    hide CodeAt, Size, IsaStep, Reaches, GenExpr, Eval, Scratch, Sound, Extends, LoadImm, LoadedValue, Isa.Decode,
      Agree, Loadable;
    ExprOrder(cx, e);
    var v := GenExpr(cx, e).value;
    Split(s.mem, t, s.pc, v.code, LoadImm(FLAGS_TMP, address));
    var s1 := ExprRuns(t, cx, e, s, st);
    ComputesThen(cx, v, cx.nextReg, Eval(cx.layout, e, st).value, s1.regs[FLAGS_TMP], st, s, s1);
    LoadImmExact(address);
    s' := LoadImmRuns(t, FLAGS_TMP, address, s1);
    ReachesTrans(s, s1, s');
    AgreeScratch(v.cx, st, s1, s');
  }

  lemma LimitAbove(m0: Mem, m: Mem, limit: nat)
    requires SameCode(m0, m, limit)
    ensures limit >= CODE_TOP
  {
  }

  /** One element of an array initialiser. */
  lemma InitRuns(t: Symbols, m0: Mem, limit: nat, cx: Cx, e: Expr, address: int, s: Arch, st: Store) returns (s': Arch)
    requires Sound(cx) && GenExpr(cx, e).Some? && Agree(cx, st, s) && SameCode(m0, s.mem, limit)
    requires Eval(cx.layout, e, st).Some? && Constant(address).Some? && Index(Constant(address).value) >= limit
    requires var v := GenExpr(cx, e).value;
             CodeAt(s.mem, t, s.pc, (v.code + LoadImm(FLAGS_TMP, address)) + [StoreWord(v.reg, FLAGS_TMP)])
    ensures var v := GenExpr(cx, e).value;
            && Reaches(s, s') && s'.pc == s.pc + Size((v.code + LoadImm(FLAGS_TMP, address)) + [StoreWord(v.reg,
                FLAGS_TMP)])
            && s'.mem == st.mem[Index(Constant(address).value) := Eval(cx.layout, e, st).value]
            && Agree(v.cx, st.(mem := s'.mem), s') && SameCode(m0, s'.mem, limit)
  {
    hide *;
    LimitAbove(m0, s.mem, limit);
    var v := GenExpr(cx, e).value;
    Split(s.mem, t, s.pc, v.code + LoadImm(FLAGS_TMP, address), [StoreWord(v.reg, FLAGS_TMP)]);
    var s1 := ValueThenAddress(t, cx, e, address, s, st);
    s' := StoreAfter(t, m0, limit, v.cx, v.reg, s1, st);
    ReachesTrans(s, s1, s');
  }

  /** Storing the value in r at the address in R26. */
  lemma StoreAfter(t: Symbols, m0: Mem, limit: nat, cx: Cx, r: Reg, s: Arch, st: Store) returns (s': Arch)
    requires Agree(cx, st, s) && SameCode(m0, s.mem, limit) && CODE_TOP <= limit <= Index(s.regs[FLAGS_TMP])
    requires CodeAt(s.mem, t, s.pc, [StoreWord(r, FLAGS_TMP)])
    ensures Size([StoreWord(r, FLAGS_TMP)]) == 1
    ensures Reaches(s, s') && s' == s.(pc := s.pc + 1, mem := st.mem[Index(s.regs[FLAGS_TMP]) := s.regs[r]])
    ensures Agree(cx, st.(mem := s'.mem), s') && SameCode(m0, s'.mem, limit)
  {
    hide CodeAt, Size, IsaStep, Reaches, SameCode, Isa.Decode, Index;
    s' := RunStore(t, r, FLAGS_TMP, s);
    AgreeMem(cx, st, s, s');
    SameCodeWrite(m0, s.mem, limit, Index(s.regs[FLAGS_TMP]), s.regs[r]);
  }

  lemma {:induction false} InitsRun(t: Symbols, m0: Mem, limit: nat, cx: Cx, base: int, inits: seq<Expr>, i: nat,
      g: Out, o: Outcome,
                                    s: Arch, st: Store)
    returns (s': Arch)
    requires i <= |inits| && GenInits(cx, base, inits, i) == Some(g) && Starts(t, m0, limit, cx, g.code, s, st)
    requires ExecInits(cx.layout, limit, base, inits, i, st) == o && o.Normal?
    ensures Finishes(t, m0, limit, g.cx, s.pc + Size(g.code), o, s, s')
    decreases |inits| - i
  {
    hide CodeAt, Size, IsaStep, Reaches, GenExpr, Eval, Scratch, Sound, Extends, LoadImm, Loadable, LoadedValue,
      SameCode, Isa.Decode, Agree;
    if i == |inits| {
      ReachesSelf(s);
      NoCode();
      s' := s;
    } else {
      ExprOrder(cx, inits[i]);
      var v := GenExpr(cx, inits[i]).value;
      var rest := GenInits(v.cx, base, inits, i + 1).value;
      var first := (v.code + LoadImm(FLAGS_TMP, base + i)) + [StoreWord(v.reg, FLAGS_TMP)];
      assert g.code == first + rest.code;
      Split(m0, t, s.pc, first, rest.code);
      CodeNow(m0, s.mem, limit, t, s.pc, first);
      var s1 := InitRuns(t, m0, limit, cx, inits[i], base + i, s, st);
      s' := InitsRun(t, m0, limit, v.cx, base, inits, i + 1, rest, o, s1, st.(mem := s1.mem));
      ReachesTrans(s, s1, s');
    }
  }

  lemma AgreeMem(cx: Cx, st: Store, s: Arch, s': Arch)
    requires Agree(cx, st, s) && s'.regs == s.regs
    ensures s.mem == st.mem && Agree(cx, st.(mem := s'.mem), s')
  {
  }

  lemma ReturnRuns(t: Symbols, m0: Mem, limit: nat, cx: Cx, result: Option<Expr>, g: Out, v: Option<Word>, s: Arch,
      st: Store)
    returns (s': Arch)
    requires GenReturn(cx, result) == Some(g) && Loaded(t, m0, limit, cx, g.code, s, st)
    requires if result.Some? then v.Some? && Eval(cx.layout, result.value, st) == v else v.None?
    ensures Finishes(t, m0, limit, cx, 0, Returned(v, st), s, s')
  {
    hide Size, IsaStep, Reaches, GenExpr, Eval, Scratch, Sound, Extends, MoveCode, SameCode, Isa.Decode, CodeAt;
    if result.None? {
      ReachesSelf(s);
      s' := s;
      EndingWord(t, cx, s);
    } else {
      ExprOrder(cx, result.value);
      var e := GenExpr(cx, result.value).value;
      var move := MoveCode(1, e.reg);
      assert g.code == e.code + (move + [Ending(cx)]) by { MoveShape(1, e.reg); }
      Split(s.mem, t, s.pc, e.code, move + [Ending(cx)]);
      var s1 := ExprRuns(t, cx, result.value, s, st);
      Split(s.mem, t, s1.pc, move, [Ending(cx)]);
      s' := MoveRuns(t, 1, e.reg, s1);
      ReachesTrans(s, s1, s');
      EndingWord(t, cx, s');
    }
  }

  lemma MoveShape(reg: Reg, v: Reg)
    ensures MoveCode(reg, v) == if v != reg then [RegOp(MOV, reg, v, 0)] else []
  {
  }

  lemma EndingWord(t: Symbols, cx: Cx, s: Arch)
    requires CodeAt(s.mem, t, s.pc, [Ending(cx)])
    ensures s.pc + 2 < CODE_TOP && Isa.Decode(Fetch(s)) == InstrJ(if cx.main then HLT else RET, 0)
  {
    hide Isa.Decode;
  }

  // ---- Blocks

  lemma FinishesLeave(t: Symbols, m0: Mem, limit: nat, cx: Cx, end: int, o: Outcome, outer: set<string>, s: Arch,
      s': Arch)
    requires Finishes(t, m0, limit, cx, end, o, s, s')
    ensures Finishes(t, m0, limit, cx, end, Leave(o, outer), s, s')
  {
    hide Reaches, Isa.Decode, SameCode;
  }

  /** Behind a block, the variables of the block's start are where they were. */
  lemma AgreeLeft(cx: Cx, cx': Cx, st0: Store, s0: Arch, st: Store, s: Arch)
    requires Agree(cx, st0, s0) && Grown(cx, cx') && Agree(cx', st, s)
    requires forall x | x in st.env :: x in st0.env
    ensures Agree(cx, st, s)
  {
  }

  lemma LeaveKeys(o: Outcome, outer: set<string>)
    requires Defines(o)
    ensures Defines(Leave(o, outer)) && forall x | x in Leave(o, outer).st.env :: x in outer
  {
  }

  lemma BlockRuns(t: Symbols, m0: Mem, limit: nat, fuel: nat, cx: Cx, stmts: seq<Stmt>, g: Out, o: Outcome, s: Arch,
      st: Store)
    returns (s': Arch)
    requires GenSeq(cx, stmts) == Some(g) && Starts(t, m0, limit, cx, g.code, s, st)
    requires ExecBlock(fuel, cx.layout, limit, stmts, st) == o && Defines(o)
    ensures Finishes(t, m0, limit, g.cx, s.pc + Size(g.code), o, s, s')
    decreases fuel, stmts, 1
  {
    hide CodeAt, Size, GenSeq, ExecSeq, Finishes, Starts;
    var o1 := ExecSeq(fuel, cx.layout, limit, stmts, st);
    s' := SeqRuns(t, m0, limit, fuel, cx, stmts, g, o1, s, st);
    FinishesLeave(t, m0, limit, g.cx, s.pc + Size(g.code), o1, st.env.Keys, s, s');
  }

  lemma {:induction false} SeqRuns(t: Symbols, m0: Mem, limit: nat, fuel: nat, cx: Cx, stmts: seq<Stmt>, g: Out,
      o: Outcome, s: Arch, st: Store)
    returns (s': Arch)
    requires GenSeq(cx, stmts) == Some(g) && Starts(t, m0, limit, cx, g.code, s, st)
    requires ExecSeq(fuel, cx.layout, limit, stmts, st) == o && Defines(o)
    ensures Finishes(t, m0, limit, g.cx, s.pc + Size(g.code), o, s, s')
    decreases fuel, stmts, 0
  {
    hide CodeAt, Size, GenStmt, Exec, Sound, Agree, SameCode, Reaches, Isa.Decode, IsaStep;
    if stmts == [] {
      ReachesSelf(s);
      NoCode();
      s' := s;
    } else {
      StmtFacts(cx, stmts[0]);
      var first := GenStmt(cx, stmts[0]).value;
      var rest := GenSeq(first.cx, stmts[1..]).value;
      SeqFacts(first.cx, stmts[1..]);
      Split(m0, t, s.pc, first.code, rest.code);
      var o1 := Exec(fuel, cx.layout, limit, stmts[0], st);
      var s1 := StmtRuns(t, m0, limit, fuel, cx, stmts[0], first, o1, s, st);
      var end := s.pc + Size(first.code) + Size(rest.code);
      if o1.Normal? {
        s' := SeqRuns(t, m0, limit, fuel, first.cx, stmts[1..], rest, o, s1, o1.st);
        SameLoops(t, m0, limit, rest.cx, end, o, s, s1, s');
      } else {
        ReachesSelf(s);
        FinishesGrown(t, m0, limit, first.cx, rest.cx, s1.pc, end, o1, s, s, s1);
        s' := s1;
      }
    }
  }

  lemma SameLoops(t: Symbols, m0: Mem, limit: nat, cx: Cx, end: int, o: Outcome, s: Arch, s1: Arch, s': Arch)
    requires Reaches(s, s1) && Finishes(t, m0, limit, cx, end, o, s1, s')
    ensures Finishes(t, m0, limit, cx, end, o, s, s')
  {
    hide Reaches, Isa.Decode, SameCode, Agree;
    ReachesTrans(s, s1, s');
  }

  // ---- Conditionals

  lemma IfShape(m: Mem, t: Symbols, a: nat, c: seq<Line>, x: seq<Line>, j: seq<Line>, le: Symbol, y: seq<Line>,
      ln: Symbol)
    returns (a1: nat, a2: nat, a3: nat)
    requires CodeAt(m, t, a, c + x + j + [Mark(le)] + y + [Mark(ln)])
    ensures a1 == a + Size(c) && a2 == a1 + Size(x) && a3 == a2 + Size(j)
    ensures CodeAt(m, t, a, c) && CodeAt(m, t, a1, x) && CodeAt(m, t, a2, j)
    ensures CodeAt(m, t, a3, y) && le in t && t[le] == a3 && ln in t && t[ln] == a3 + Size(y)
    ensures Size(c + x + j + [Mark(le)] + y + [Mark(ln)]) == a3 + Size(y) - a
  {
    hide CodeAt, Size;
    var end := [Mark(ln)] + [];
    var tail := [Mark(le)] + (y + end);
    assert c + x + j + [Mark(le)] + y + [Mark(ln)] == c + (x + (j + tail));
    Split(m, t, a, c, x + (j + tail));
    NoCode();
    a1 := a + Size(c);
    Split(m, t, a1, x, j + tail);
    a2 := a1 + Size(x);
    Split(m, t, a2, j, tail);
    a3 := a2 + Size(j);
    CodeHead(m, t, a3, Mark(le), y + end);
    Split(m, t, a3, y, end);
    CodeHead(m, t, a3 + Size(y), Mark(ln), []);
  }

  /** Code for a condition and the branch that skips when it is false. */
  lemma GuardRuns(t: Symbols, m0: Mem, limit: nat, cx: Cx, cond: Expr, c: Gen, v: Word, l: Symbol, s: Arch,
      st: Store) returns (s': Arch)
    requires GenExpr(cx, cond) == Some(c) && Starts(t, m0, limit, cx, c.code, s, st)
             && Eval(cx.layout, cond, st) == Some(v)
    requires s.pc + Size(c.code) + 1 <= limit && CodeAt(m0, t, s.pc + Size(c.code), [BranchTo(BEQ, c.reg, l)] + [])
    ensures Reaches(s, s') && s'.mem == s.mem && Agree(c.cx, st, s') && l in t
    ensures s'.pc == if v == 0 then t[l] else s.pc + Size(c.code) + 1
  {
    hide CodeAt, Size, IsaStep, Reaches, GenExpr, Eval, Scratch, Sound, Extends, Agree, SameCode;
    ExprOrder(cx, cond);
    var br := BranchTo(BEQ, c.reg, l);
    CodeHead(m0, t, s.pc + Size(c.code), br, []);
    NoCode();
    CodeNow(m0, s.mem, limit, t, s.pc, c.code);
    CodeNow(m0, s.mem, limit, t, s.pc + Size(c.code), [br] + []);
    var s1 := ExprRuns(t, cx, cond, s, st);
    ComputesThen(cx, c, cx.nextReg, v, s1.regs[FLAGS_TMP], st, s, s1);
    s' := RunBranch(t, BEQ, c.reg, l, [], s1);
    ReachesTrans(s, s1, s');
    AgreeSame(c.cx, c.cx, st, s1, s');
  }

  /** The same for a condition that may be missing. */
  lemma CondRuns(t: Symbols, m0: Mem, limit: nat, cx: Cx, cond: Option<Expr>, le: Symbol, c: Out, v: Word, s: Arch,
      st: Store)
    returns (s': Arch)
    requires GenTest(cx, cond, le) == Some(c) && Starts(t, m0, limit, cx, c.code, s, st)
             && CondValue(cx.layout, cond, st) == Some(v)
    requires le in t
    ensures Reaches(s, s') && s'.mem == s.mem && Agree(c.cx, st, s')
    ensures s'.pc == if v == 0 then t[le] else s.pc + Size(c.code)
  {
    hide CodeAt, Size, IsaStep, Reaches, GenExpr, Eval, Sound, SameCode, Agree;
    NoCode();
    if cond.None? {
      ReachesSelf(s);
      s' := s;
    } else {
      var e := GenExpr(cx, cond.value).value;
      var br := BranchTo(BEQ, e.reg, le);
      assert [br] == [br] + [];
      Split(m0, t, s.pc, e.code, [br]);
      CodeHead(m0, t, s.pc + Size(e.code), br, []);
      s' := GuardRuns(t, m0, limit, cx, cond.value, e, v, le, s, st);
    }
  }

  /** Jumping over the else part, if there is one. */
  lemma SkipRuns(t: Symbols, m0: Mem, limit: nat, cx: Cx, j: bool, ln: Symbol, end: int, o: Outcome, s: Arch,
      s1: Arch) returns (s': Arch)
    requires Finishes(t, m0, limit, cx, s1.pc, o, s, s1) && ln in t && t[ln] == end >= 0
    requires o.Normal? ==> s1.pc + 1 <= limit || !j
    requires o.Normal? && j ==> CodeAt(m0, t, s1.pc, [JumpTo(ln)])
    requires o.Normal? && !j ==> s1.pc == end
    ensures Finishes(t, m0, limit, cx, end, o, s, s')
  {
    hide CodeAt, Reaches, IsaStep, Isa.Decode, SameCode, Agree;
    s' := s1;
    if o.Normal? && j {
      assert [JumpTo(ln)] == [JumpTo(ln)] + [];
      CodeNow(m0, s1.mem, limit, t, s1.pc, [JumpTo(ln)]);
      s' := RunJump(t, ln, [], s1);
      ReachesTrans(s, s1, s');
      AgreeSame(cx, cx, o.st, s1, s');
    }
  }

  lemma IfRuns(t: Symbols, m0: Mem, limit: nat, fuel: nat, cx: Cx, x: Stmt, g: Out, o: Outcome, s: Arch,
      st: Store) returns (s': Arch)
    requires x.If? && GenStmt(cx, x) == Some(g) && Starts(t, m0, limit, cx, g.code, s, st)
    requires Exec(fuel, cx.layout, limit, x, st) == o && Defines(o)
    ensures Finishes(t, m0, limit, g.cx, s.pc + Size(g.code), o, s, s')
    decreases fuel, x, 0
  {
    hide CodeAt, Size, GenSeq, GenTest, Eval, ExecBlock, Sound, Agree, SameCode, Reaches, Isa.Decode, IsaStep, Extends;
    var (le, cx1) := NewLabel(cx, "ELSE");
    var (ln, cx2) := NewLabel(cx1, "ENDIF");
    SoundSame(cx, cx2);
    AgreeSame(cx, cx2, st, s, s);
    assert GenIf(cx, x.cond, x.thenBody, x.elseBody) == GenBranches(cx2, x.cond, x.thenBody, x.elseBody, le, ln);
    TestFacts(cx2, Some(x.cond), le);
    var c := GenTest(cx2, Some(x.cond), le).value;
    ExtendsGrown(cx2, c.cx);
    assert Sound(c.cx);
    SeqFacts(c.cx, x.thenBody);
    var p := GenSeq(c.cx, x.thenBody).value;
    SeqFacts(p.cx, x.elseBody);
    var q := GenSeq(p.cx, x.elseBody).value;
    var j := if x.elseBody != [] then [JumpTo(ln)] else [];
    var a1, a2, a3 := IfShape(m0, t, s.pc, c.code, p.code, j, le, q.code, ln);
    var end := a3 + Size(q.code);
    var v := Eval(cx.layout, x.cond, st).value;
    var s1 := CondRuns(t, m0, limit, cx2, Some(x.cond), le, c, v, s, st);
    if v != 0 {
      var s2 := BlockRuns(t, m0, limit, fuel, c.cx, x.thenBody, p, o, s1, st);
      EmptyElse(p.cx, x.elseBody);
      FinishesGrown(t, m0, limit, p.cx, q.cx, if o.Normal? then a2 else s2.pc, s2.pc, o, s, s1, s2);
      s' := SkipRuns(t, m0, limit, q.cx, x.elseBody != [], ln, end, o, s, s2);
    } else {
      AgreeGrown(c.cx, p.cx, st, s1);
      s' := BlockRuns(t, m0, limit, fuel, p.cx, x.elseBody, q, o, s1, st);
      SameLoops(t, m0, limit, q.cx, end, o, s, s1, s');
    }
  }

  lemma EmptyElse(cx: Cx, stmts: seq<Stmt>)
    requires GenSeq(cx, stmts).Some?
    ensures stmts == [] ==> Size(GenSeq(cx, stmts).value.code) == 0 && Size([]) == 0
    ensures forall l: Symbol :: Size([JumpTo(l)]) == 1
  {
  }

  // ---- Loops

  /** The pieces of a loop whose test starts at address a stand in memory, one behind the other: the test c, the
      body b, the update u, the jump back; cx0 is the context at the test, inside the loop. */
  ghost predicate LoopAt(m0: Mem, t: Symbols, limit: nat, cx0: Cx, cond: Option<Expr>, update: Option<Stmt>,
      body: seq<Stmt>,
                         c: Out, b: Out, u: Out, a: nat, lt: Symbol, lc: Symbol, le: Symbol)
  {
    && |cx0.loops| > 0 && cx0.loops[|cx0.loops| - 1] == (lc, le) && Sound(cx0)
    && GenTest(cx0, cond, le) == Some(c) && GenSeq(c.cx, body) == Some(b) && GenOptional(b.cx, update) == Some(u)
    && lt in t && lc in t && le in t && t[lt] == a
    && var a1 := a + Size(c.code);
       var a2 := a1 + Size(b.code);
       var a3 := a2 + Size(u.code);
       && CodeAt(m0, t, a, c.code) && CodeAt(m0, t, a1, b.code) && CodeAt(m0, t, a2, u.code)
       && CodeAt(m0, t, a3, [JumpTo(lt)] + []) && t[le] == a3 + 1 <= limit
       && (t[lc] == a2 || (update.None? && t[lc] == a))
  }

  /** Back to the test, by way of the jump if control is not there already. */
  lemma JumpBack(t: Symbols, m0: Mem, limit: nat, cx: Cx, a: int, lt: Symbol, s: Arch, st: Store) returns (s': Arch)
    requires SameCode(m0, s.mem, limit) && lt in t && t[lt] == a && Agree(cx, st, s)
    requires s.pc == a || (CodeAt(m0, t, s.pc, [JumpTo(lt)] + []) && s.pc + 1 <= limit)
    ensures Reaches(s, s') && s'.pc == a && s'.mem == s.mem && Agree(cx, st, s')
  {
    hide CodeAt, IsaStep, Reaches, SameCode, Agree;
    if s.pc == a {
      ReachesSelf(s);
      s' := s;
    } else {
      assert Size([JumpTo(lt)] + []) == 1;
      CodeNow(m0, s.mem, limit, t, s.pc, [JumpTo(lt)] + []);
      s' := RunJump(t, lt, [], s);
      AgreeSame(cx, cx, st, s, s');
    }
  }

  /** The outcome of the update of a loop, which may be missing. */
  function UpdateOutcome(fuel: nat, l: Layout, limit: nat, update: Option<Stmt>, st: Store): Outcome {
    if update.Some? then Leave(Exec(fuel, l, limit, update.value, st), st.env.Keys) else Normal(st)
  }

  lemma UpdateRuns(t: Symbols, m0: Mem, limit: nat, fuel: nat, cx: Cx, update: Option<Stmt>, u: Out, o: Outcome,
      s: Arch, st: Store)
    returns (s': Arch)
    requires GenOptional(cx, update) == Some(u) && Starts(t, m0, limit, cx, u.code, s, st)
    requires UpdateOutcome(fuel, cx.layout, limit, update, st) == o && o.Normal?
    ensures Finishes(t, m0, limit, u.cx, s.pc + Size(u.code), o, s, s') && Grown(cx, u.cx)
    decreases fuel, update, 2
  {
    hide CodeAt, GenStmt, Exec, Sound, Agree, SameCode, Reaches, Isa.Decode, IsaStep;
    if update.None? {
      ReachesSelf(s);
      s' := s;
      GrownSelf(cx);
    } else {
      StmtFacts(cx, update.value);
      var o1 := Exec(fuel, cx.layout, limit, update.value, st);
      s' := StmtRuns(t, m0, limit, fuel, cx, update.value, u, o1, s, st);
      FinishesLeave(t, m0, limit, u.cx, s.pc + Size(u.code), o1, st.env.Keys, s, s');
    }
  }

  lemma GrownSelf(cx: Cx)
    requires Sound(cx)
    ensures Grown(cx, cx)
  {
  }

  /** One round, from behind the test back to the test or out of the loop. */
  lemma RoundRuns(t: Symbols, m0: Mem, limit: nat, fuel: nat, cx0: Cx, cond: Option<Expr>, update: Option<Stmt>,
      body: seq<Stmt>,
                  c: Out, b: Out, u: Out, a: nat, lt: Symbol, lc: Symbol, le: Symbol, o: Outcome, s0: Arch, s: Arch,
                      st: Store)
    returns (s': Arch)
    requires LoopAt(m0, t, limit, cx0, cond, update, body, c, b, u, a, lt, lc, le) && fuel > 0
    requires Agree(cx0, st, s0) && SameCode(m0, s.mem, limit) && Agree(c.cx, st, s) && s.pc == a + Size(c.code)
    requires Round(fuel, cx0.layout, limit, update, body, st) == o && Defines(o)
    ensures Finishes(t, m0, limit, cx0, a, o, s, s')
    decreases fuel, body, 0
  {
    hide CodeAt, Size, GenTest, GenSeq, ExecBlock, Exec, Sound, Agree, SameCode, Reaches, Isa.Decode, IsaStep, Extends,
      GenOptional;
    TestFacts(cx0, cond, le);
    ExtendsGrown(cx0, c.cx);
    assert Sound(c.cx);
    SeqFacts(c.cx, body);
    GrownTrans(cx0, c.cx, b.cx);
    var o1 := ExecBlock(fuel - 1, cx0.layout, limit, body, st);
    var s1 := BlockRuns(t, m0, limit, fuel - 1, c.cx, body, b, o1, s, st);
    BlockKeys(fuel - 1, cx0.layout, limit, body, st);
    s' := s1;
    if o1.Broke? {
      AgreeLeft(cx0, b.cx, st, s0, o1.st, s1);
    } else if o1.Normal? || o1.Continued? {
      AgreeLeft(cx0, b.cx, st, s0, o1.st, s1);
      if s1.pc == a + Size(c.code) + Size(b.code) {
        s' := NextRuns(t, m0, limit, fuel - 1, cx0, b.cx, update, u, a, lt, o, s1, o1.st);
      } else {
        s' := JumpBack(t, m0, limit, cx0, a, lt, s1, o1.st);
      }
      ReachesTrans(s, s1, s');
    }
  }

  /** From the end of the body through the update to the test. */
  lemma NextRuns(t: Symbols, m0: Mem, limit: nat, fuel: nat, cx0: Cx, cx: Cx, update: Option<Stmt>, u: Out, a: nat,
      lt: Symbol, o: Outcome,
                 s: Arch, st: Store)
    returns (s': Arch)
    requires Grown(cx0, cx) && GenOptional(cx, update) == Some(u) && Starts(t, m0, limit, cx, u.code, s, st)
             && Agree(cx0, st, s)
    requires CodeAt(m0, t, s.pc + Size(u.code), [JumpTo(lt)] + []) && lt in t && t[lt] == a
             && s.pc + Size(u.code) + 1 <= limit
    requires UpdateOutcome(fuel, cx.layout, limit, update, st) == o && o.Normal?
    ensures Reaches(s, s') && s'.pc == a && SameCode(m0, s'.mem, limit) && Agree(cx0, o.st, s')
    decreases fuel, update, 3
  {
    hide CodeAt, Size, Exec, Sound, Agree, SameCode, Reaches, Isa.Decode, IsaStep, GenOptional;
    var s1 := UpdateRuns(t, m0, limit, fuel, cx, update, u, o, s, st);
    if update.Some? { LeaveKeys(Exec(fuel, cx.layout, limit, update.value, st), st.env.Keys); }
    GrownTrans(cx0, cx, u.cx);
    AgreeLeft(cx0, u.cx, st, s, o.st, s1);
    s' := JumpBack(t, m0, limit, cx0, a, lt, s1, o.st);
    ReachesTrans(s, s1, s');
  }

  lemma BlockKeys(fuel: nat, l: Layout, limit: nat, stmts: seq<Stmt>, st: Store)
    ensures var o := ExecBlock(fuel, l, limit, stmts, st); Defines(o) ==> forall x | x in o.st.env :: x in st.env
  {
    hide ExecSeq;
  }

  /** A loop, from its test to the address behind it. The variables agree each time the test is reached. */
  lemma {:induction false} LoopRuns(t: Symbols, m0: Mem, limit: nat, fuel: nat, cx0: Cx, cond: Option<Expr>,
      update: Option<Stmt>,
                                    body: seq<Stmt>, c: Out, b: Out, u: Out, lt: Symbol, lc: Symbol, le: Symbol,
                                        o: Outcome, s: Arch, st: Store)
    returns (s': Arch)
    requires LoopAt(m0, t, limit, cx0, cond, update, body, c, b, u, s.pc, lt, lc, le)
    requires Agree(cx0, st, s) && SameCode(m0, s.mem, limit)
    requires ExecLoop(fuel, cx0.layout, limit, cond, update, body, st) == o && Defines(o)
    ensures Finishes(t, m0, limit, cx0, t[le], o, s, s')
    decreases fuel, body, 2
  {
    hide CodeAt, Size, GenTest, GenSeq, Eval, Round, Sound, Agree, SameCode, Reaches, Isa.Decode, IsaStep, Extends;
    TestFacts(cx0, cond, le);
    ExtendsGrown(cx0, c.cx);
    var v := CondValue(cx0.layout, cond, st).value;
    var s1 := CondRuns(t, m0, limit, cx0, cond, le, c, v, s, st);
    if v == 0 {
      AgreeLeft(cx0, c.cx, st, s, st, s1);
      s' := s1;
    } else {
      var o1 := Round(fuel, cx0.layout, limit, update, body, st);
      var s2 := RoundRuns(t, m0, limit, fuel, cx0, cond, update, body, c, b, u, s.pc, lt, lc, le, o1, s, s1, st);
      ReachesTrans(s, s1, s2);
      s' := s2;
      if o1.Normal? {
        s' := LoopRuns(t, m0, limit, fuel - 1, cx0, cond, update, body, c, b, u, lt, lc, le, o, s2, o1.st);
        SameLoops(t, m0, limit, cx0, t[le], o, s, s2, s');
      }
    }
  }

  lemma LoopShape(m: Mem, t: Symbols, a: nat, pre: seq<Line>, test: seq<Line>, body: seq<Line>, mid: seq<Line>,
      upd: seq<Line>,
                  lt: Symbol, lc: Symbol, le: Symbol)
    returns (a1: nat, a2: nat, a3: nat, a4: nat)
    requires CodeAt(m, t, a, pre + [Mark(lt)] + test + body + mid + upd + [JumpTo(lt), Mark(le)])
             && (mid == [] || mid == [Mark(lc)])
    ensures a1 == a + Size(pre) && a2 == a1 + Size(test) && a3 == a2 + Size(body) && a4 == a3 + Size(upd)
    ensures CodeAt(m, t, a, pre) && CodeAt(m, t, a1, test) && CodeAt(m, t, a2, body) && CodeAt(m, t, a3, upd)
    ensures lt in t && t[lt] == a1 && le in t && t[le] == a4 + 1 && (mid != [] ==> lc in t && t[lc] == a3)
    ensures CodeAt(m, t, a4, [JumpTo(lt)] + [])
    ensures Size(pre + [Mark(lt)] + test + body + mid + upd + [JumpTo(lt), Mark(le)]) == a4 + 1 - a
  {
    hide CodeAt, Size;
    var j, end := [JumpTo(lt)] + [], [Mark(le)] + [];
    var rest := upd + (j + end);
    assert pre + [Mark(lt)] + test + body + mid + upd + [JumpTo(lt),
        Mark(le)] == pre + ([Mark(lt)] + (test + (body + (mid + rest))));
    NoCode();
    Split(m, t, a, pre, [Mark(lt)] + (test + (body + (mid + rest))));
    a1 := a + Size(pre);
    CodeHead(m, t, a1, Mark(lt), test + (body + (mid + rest)));
    Split(m, t, a1, test, body + (mid + rest));
    a2 := a1 + Size(test);
    Split(m, t, a2, body, mid + rest);
    a3 := a2 + Size(body);
    if mid == [] { assert mid + rest == rest; } else { CodeHead(m, t, a3, Mark(lc), rest); }
    Split(m, t, a3, upd, j + end);
    a4 := a3 + Size(upd);
    Split(m, t, a4, j, end);
    CodeHead(m, t, a4, JumpTo(lt), []);
    CodeHead(m, t, a4 + 1, Mark(le), []);
  }

  /** Behind the loop the label stack is the one before it. */
  lemma FinishesLoop(t: Symbols, m0: Mem, limit: nat, cx: Cx, cx': Cx, end: int, o: Outcome, s0: Arch, s: Arch,
      s': Arch)
    requires Finishes(t, m0, limit, cx, end, o, s, s') && Reaches(s0, s) && !o.Broke? && !o.Continued?
    requires cx'.main == cx.main && forall x | x in cx.vars :: x in cx'.vars && cx'.vars[x] == cx.vars[x]
    ensures Finishes(t, m0, limit, cx', end, o, s0, s')
  {
    hide Reaches, Isa.Decode;
    ReachesTrans(s0, s, s');
  }

  lemma WhileRuns(t: Symbols, m0: Mem, limit: nat, fuel: nat, cx: Cx, x: Stmt, g: Out, o: Outcome, s: Arch,
      st: Store) returns (s': Arch)
    requires x.While? && GenStmt(cx, x) == Some(g) && Starts(t, m0, limit, cx, g.code, s, st)
    requires Exec(fuel, cx.layout, limit, x, st) == o && Defines(o)
    ensures Finishes(t, m0, limit, g.cx, s.pc + Size(g.code), o, s, s')
    decreases fuel, x, 0
  {
    hide CodeAt, Size, GenSeq, GenTest, ExecLoop, Agree, SameCode, Reaches, Isa.Decode, IsaStep, Finishes, Extends;
    var (lt, cx1) := NewLabel(cx, "WHILE_TEST");
    var (le, cx2) := NewLabel(cx1, "WHILE_END");
    var cx3 := cx2.(loops := cx.loops + [(lt, le)]);
    SoundSame(cx, cx3);
    AgreeSame(cx, cx3, st, s, s);
    assert GenWhile(cx, x.cond, x.body).Some?;
    var l := GenWhileLoop(cx3, x.cond, x.body, lt, le).value;
    var c := GenTest(cx3, Some(x.cond), le).value;
    TestFacts(cx3, Some(x.cond), le);
    ExtendsGrown(cx3, c.cx);
    SeqFacts(c.cx, x.body);
    var b := GenSeq(c.cx, x.body).value;
    assert g.code == [] + [Mark(lt)] + c.code + b.code + [] + [] + [JumpTo(lt), Mark(le)];
    var a1, a2, a3, a4 := LoopShape(m0, t, s.pc, [], c.code, b.code, [], [], lt, lt, le);
    NoCode();
    s' := LoopRuns(t, m0, limit, fuel, cx3, Some(x.cond), None, x.body, c, b, Out([], b.cx), lt, lt, le, o, s, st);
    ReachesSelf(s);
    FinishesLoop(t, m0, limit, cx3, g.cx, t[le], o, s, s, s');
  }

  function ForLabels(cx: Cx): (Symbol, Symbol, Symbol, Cx) {
    var (lt, cx1) := NewLabel(cx, "FOR_TEST");
    var (lu, cx2) := NewLabel(cx1, "FOR_UPD");
    var (le, cx3) := NewLabel(cx2, "FOR_END");
    (lt, lu, le, cx3)
  }

  lemma ForParts(cx: Cx, x: Stmt) returns (i: Out, cx4: Cx, c: Out, b: Out, u: Out)
    requires x.For? && Sound(cx) && GenFor(cx, x).Some?
    ensures var (lt, lu, le, cx3) := ForLabels(cx);
            && Sound(cx3) && GenOptional(cx3, x.forInit) == Some(i) && Grown(cx3, i.cx)
            && i.cx.layout == (if x.forInit.Some? then After(cx.layout, x.forInit.value) else cx.layout)
            && cx4 == i.cx.(loops := cx.loops + [(lu, le)]) && Sound(cx4)
            && GenTest(cx4, x.forCond, le) == Some(c) && GenSeq(c.cx, x.body) == Some(b)
                && GenOptional(b.cx, x.update) == Some(u)
            && Grown(cx4, u.cx)
            && GenFor(cx, x) == Some(Out(i.code + [Mark(lt)] + c.code + b.code + [Mark(lu)] + u.code + [JumpTo(lt),
                Mark(le)],
                                          u.cx.(loops := cx.loops)))
  {
    hide GenSeq, GenTest, GenStmt, Sound, Extends;
    var (lt, lu, le, cx3) := ForLabels(cx);
    SoundSame(cx, cx3);
    i := GenOptional(cx3, x.forInit).value;
    GrownSelf(cx3);
    if x.forInit.Some? { StmtFacts(cx3, x.forInit.value); }
    cx4 := i.cx.(loops := cx.loops + [(lu, le)]);
    SoundSame(i.cx, cx4);
    c := GenTest(cx4, x.forCond, le).value;
    TestFacts(cx4, x.forCond, le);
    ExtendsGrown(cx4, c.cx);
    b := GenSeq(c.cx, x.body).value;
    SeqFacts(c.cx, x.body);
    GrownTrans(cx4, c.cx, b.cx);
    u := GenOptional(b.cx, x.update).value;
    GrownSelf(b.cx);
    if x.update.Some? { StmtFacts(b.cx, x.update.value); }
    GrownTrans(cx4, b.cx, u.cx);
    var mid, end := b.code + [Mark(lu)] + u.code, [JumpTo(lt), Mark(le)];
    assert i.code + ([Mark(lt)] + c.code + b.code + [Mark(lu)] + u.code + end)
        == i.code + [Mark(lt)] + c.code + b.code + [Mark(lu)] + u.code + end;
  }

  lemma ForRuns(t: Symbols, m0: Mem, limit: nat, fuel: nat, cx: Cx, x: Stmt, g: Out, o: Outcome, s: Arch,
      st: Store) returns (s': Arch)
    requires x.For? && GenStmt(cx, x) == Some(g) && Starts(t, m0, limit, cx, g.code, s, st)
    requires Exec(fuel, cx.layout, limit, x, st) == o && Defines(o)
    ensures Finishes(t, m0, limit, g.cx, s.pc + Size(g.code), o, s, s')
    decreases fuel, x, 0
  {
    hide CodeAt, Size, GenSeq, GenFor, GenTest, ExecLoop, Agree, SameCode, Reaches, Isa.Decode, IsaStep, Sound, Extends;
    var (lt, lu, le, cx3) := ForLabels(cx);
    AgreeSame(cx, cx3, st, s, s);
    var i, cx4, c, b, u := ForParts(cx, x);
    var a1, a2, a3, a4 := LoopShape(m0, t, s.pc, i.code, c.code, b.code, [Mark(lu)], u.code, lt, lu, le);
    var oi := if x.forInit.Some? then Exec(fuel, cx.layout, limit, x.forInit.value, st) else Normal(st);
    var s1 := s;
    NoCode();
    ReachesSelf(s);
    if x.forInit.Some? { s1 := StmtRuns(t, m0, limit, fuel, cx3, x.forInit.value, i, oi, s, st); }
    AgreeSame(i.cx, cx4, oi.st, s1, s1);
    var o1 := ExecLoop(fuel, cx4.layout, limit, x.forCond, x.update, x.body, oi.st);
    s' := LoopRuns(t, m0, limit, fuel, cx4, x.forCond, x.update, x.body, c, b, u, lt, lu, le, o1, s1, oi.st);
    FinishesLoop(t, m0, limit, cx4, g.cx, t[le], o1, s, s1, s');
    FinishesLeave(t, m0, limit, g.cx, t[le], o1, st.env.Keys, s, s');
  }

  // ---- Statements

  /** Storing through an address that was computed first. */
  lemma StoreStmtRuns(t: Symbols, m0: Mem, limit: nat, cx: Cx, v: Gen, aop: AssignOp, value: Expr, a: Word, g: Out,
      o: Outcome,
                      s: Arch, s1: Arch, st: Store)
    returns (s': Arch)
    requires Generated(cx, v) && GenStore(v.cx, v.reg, aop, value) == Some(g)
             && Loaded(t, m0, limit, cx, v.code + g.code, s, st)
    requires Computes(v, cx.nextReg, a, s1.regs[FLAGS_TMP], s, s1)
             && ExecStore(cx.layout, limit, a, aop, value, st) == o && o.Normal?
    ensures Finishes(t, m0, limit, FreeTemps(g.cx), s.pc + Size(v.code + g.code), o, s, s')
  {
    hide CodeAt, Size, IsaStep, Reaches, GenExpr, Eval, Scratch, FreeTemps, Sound, SameCode, Isa.Decode, Agree,
      GenStore, ExecStore;
    Split(s.mem, t, s.pc, v.code, g.code);
    ComputesThen(cx, v, cx.nextReg, a, s1.regs[FLAGS_TMP], st, s, s1);
    assert Sound(v.cx) && v.cx.layout == cx.layout;
    s' := StoreRuns(t, m0, limit, v.cx, v.reg, aop, value, g, o, s1, st);
    StoreFacts(v.cx, v.reg, aop, value);
    assert Sound(g.cx);
    FreeFacts(g.cx);
    FinishesGrown(t, m0, limit, g.cx, FreeTemps(g.cx), s.pc + Size(v.code + g.code), s.pc + Size(v.code + g.code), o,
        s, s1, s');
  }

  /** Statements that are neither compound nor jumps. */
  lemma SimpleRuns(t: Symbols, m0: Mem, limit: nat, fuel: nat, cx: Cx, x: Stmt, g: Out, o: Outcome, s: Arch,
      st: Store) returns (s': Arch)
    requires x.VarDecl? || x.ArrayDecl? || x.Assign? || x.ArrayAssign? || x.DerefAssign? || x.Return? || x.ExprStmt?
    requires GenStmt(cx, x) == Some(g) && Starts(t, m0, limit, cx, g.code, s, st)
    requires Exec(fuel, cx.layout, limit, x, st) == o && Defines(o)
    ensures Finishes(t, m0, limit, g.cx, s.pc + Size(g.code), o, s, s')
  {
    hide CodeAt, Size, IsaStep, Reaches, GenExpr, Eval, Scratch, FreeTemps, Sound, Extends, SameCode, Isa.Decode,
      Agree, Finishes;
    hide GenStore, ExecStore, GenInits, ExecInits, GenAssign, ExecAssign, GenReturn, GenSlot, Slot;
    StartsLoaded(t, m0, limit, cx, g.code, s, st);
    ReachesSelf(s);
    var end := s.pc + Size(g.code);
    match x
    case VarDecl(name, init) =>
      s' := VarDeclRuns(t, m0, limit, cx, name, init, g, if init.Some? then Eval(cx.layout, init.value, st) else None,
          s, st);
    case ArrayDecl(name, size, inits) =>
      var cx1 := cx.(layout := Declare(cx.layout, name, size));
      SoundSame(cx, cx1);
      AgreeSame(cx, cx1, st, s, s);
      var p := GenInits(cx1, cx.layout.next, inits, 0).value;
      s' := InitsRun(t, m0, limit, cx1, cx.layout.next, inits, 0, p, o, s, st);
      InitsFacts(cx1, cx.layout.next, inits, 0);
      SoundOf(cx1, p.cx);
      FreeFacts(p.cx);
      FinishesGrown(t, m0, limit, p.cx, g.cx, end, end, o, s, s, s');
    case Assign(name, aop, value) =>
      var p := GenAssign(cx, name, aop, value).value;
      s' := AssignRuns(t, m0, limit, cx, name, aop, value, p, o, s, st);
      AssignFacts(cx, name, aop, value);
      FreeFacts(p.cx);
      FinishesGrown(t, m0, limit, p.cx, g.cx, end, end, o, s, s, s');
    case ArrayAssign(name, index, aop, value) =>
      SlotFacts(cx, name, index);
      var a := GenSlot(cx, name, index).value;
      var p := GenStore(a.cx, a.reg, aop, value).value;
      Split(s.mem, t, s.pc, a.code, p.code);
      var s1 := SlotRuns(t, cx, name, index, s, st);
      s' := StoreStmtRuns(t, m0, limit, cx, a, aop, value, Slot(cx.layout, name, index, st).value, p, o, s, s1, st);
    case DerefAssign(ptr, aop, value) =>
      ExprFacts(cx, ptr);
      var a := GenExpr(cx, ptr).value;
      var p := GenStore(a.cx, a.reg, aop, value).value;
      Split(s.mem, t, s.pc, a.code, p.code);
      var s1 := ExprRuns(t, cx, ptr, s, st);
      s' := StoreStmtRuns(t, m0, limit, cx, a, aop, value, Eval(cx.layout, ptr, st).value, p, o, s, s1, st);
    case Return(result) =>
      var p := GenReturn(cx, result).value;
      s' := ReturnRuns(t, m0, limit, cx, result, p, if result.Some? then Eval(cx.layout, result.value, st) else None,
          s, st);
      ReturnFacts(cx, result);
      SoundOf(cx, p.cx);
      FreeFacts(p.cx);
      ReturnedAnywhere(t, m0, limit, cx, g.cx, 0, end, o, s, s');
    case ExprStmt(e) =>
      s' := ExprRuns(t, cx, e, s, st);
      ExprFacts(cx, e);
      var v := GenExpr(cx, e).value;
      ComputesThen(cx, v, cx.nextReg, Eval(cx.layout, e, st).value, s'.regs[FLAGS_TMP], st, s, s');
      SoundOf(cx, v.cx);
      FreeFacts(v.cx);
      AgreeGrown(v.cx, g.cx, st, s');
      FinishesHere(t, m0, limit, g.cx, end, st, s, s');
  }

  lemma SoundOf(cx: Cx, cx': Cx)
    requires Extends(cx, cx')
    ensures Sound(cx') && cx'.main == cx.main
  {
  }

  lemma ReturnedAnywhere(t: Symbols, m0: Mem, limit: nat, cx: Cx, cx': Cx, end: int, end': int, o: Outcome, s: Arch,
      s': Arch)
    requires Finishes(t, m0, limit, cx, end, o, s, s') && o.Returned? && cx'.main == cx.main
    ensures Finishes(t, m0, limit, cx', end', o, s, s')
  {
    hide Reaches, Isa.Decode, SameCode;
  }

  lemma FinishesHere(t: Symbols, m0: Mem, limit: nat, cx: Cx, end: int, st: Store, s: Arch, s': Arch)
    requires Reaches(s, s') && SameCode(m0, s'.mem, limit) && s'.pc == end && Agree(cx, st, s')
    ensures Finishes(t, m0, limit, cx, end, Normal(st), s, s')
  {
  }

  /** break and continue. */
  lemma LeaveRuns(t: Symbols, m0: Mem, limit: nat, fuel: nat, cx: Cx, x: Stmt, g: Out, s: Arch,
      st: Store) returns (s': Arch)
    requires x.Break? || x.Continue?
    requires GenStmt(cx, x) == Some(g) && Starts(t, m0, limit, cx, g.code, s, st)
    ensures Finishes(t, m0, limit, g.cx, s.pc + Size(g.code), Exec(fuel, cx.layout, limit, x, st), s, s')
  {
    hide CodeAt, Size, IsaStep, Reaches, Sound, SameCode, Isa.Decode, Agree;
    var l := if x.Break? then cx.loops[|cx.loops| - 1].1 else cx.loops[|cx.loops| - 1].0;
    assert g.code == [JumpTo(l)] + [];
    CodeNow(m0, s.mem, limit, t, s.pc, g.code);
    s' := RunJump(t, l, [], s);
    AgreeSame(cx, cx, st, s, s');
  }

  /** Compiled statements do what the statements mean. From a machine state that agrees with the source state,
      the code g of x leads to the end of the code, to the loop label that break or continue names, or to the
      final HLT or RET, with memory, result and every variable as the meaning o of x says, and the program's own
      code untouched. */
  lemma {:induction false} StmtRuns(t: Symbols, m0: Mem, limit: nat, fuel: nat, cx: Cx, x: Stmt, g: Out, o: Outcome,
      s: Arch, st: Store)
    returns (s': Arch)
    requires GenStmt(cx, x) == Some(g) && Starts(t, m0, limit, cx, g.code, s, st)
    requires Exec(fuel, cx.layout, limit, x, st) == o && Defines(o)
    ensures Finishes(t, m0, limit, g.cx, s.pc + Size(g.code), o, s, s')
    decreases fuel, x, 3
  {
    hide CodeAt, Size, GenSeq, ExecBlock, ExecLoop, Starts, Finishes;
    match x
    case If(_, _, _) => s' := IfRuns(t, m0, limit, fuel, cx, x, g, o, s, st);
    case While(_, _) => s' := WhileRuns(t, m0, limit, fuel, cx, x, g, o, s, st);
    case For(_, _, _, _) => s' := ForRuns(t, m0, limit, fuel, cx, x, g, o, s, st);
    case Block(stmts) => s' := BlockRuns(t, m0, limit, fuel, cx, stmts, g, o, s, st);
    case Break => s' := LeaveRuns(t, m0, limit, fuel, cx, x, g, s, st);
    case Continue => s' := LeaveRuns(t, m0, limit, fuel, cx, x, g, s, st);
    case _ => s' := SimpleRuns(t, m0, limit, fuel, cx, x, g, o, s, st);
  }
}
