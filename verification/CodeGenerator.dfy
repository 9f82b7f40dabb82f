/** The code generator as the source writes it: one object whose fields grow as code is emitted. Every method
    is tied to the function of CodeGen that gives its lines, its result register and its new fields. */
module CodeGenerator {
  import opened Isa
  import opened Wrappers
  import opened Ast
  import opened Assembly
  import G = CodeGen
  import P = Programs

  lemma Joined(x: seq<Line>, y: seq<Line>, z: seq<Line>)
    ensures (x + y) + z == x + (y + z)
  {
  }

  lemma Joined4(l: seq<Line>, a: seq<Line>, b: seq<Line>, c: seq<Line>, d: seq<Line>)
    ensures l + a + b + c + d == l + (a + b + c + d)
  {
    Joined(l, a, b);
    Joined(l, a + b, c);
    Joined(l, a + b + c, d);
  }

  class CodeGen {
    var lines: seq<Line>
    var varReg: map<string, Reg>
    var nextReg: nat
    var labelCnt: nat
    var loopStack: seq<(Symbol, Symbol)>
    var globals: map<string, int>
    var arrays: map<string, (int, nat)>
    var globalNext: int
    var inMain: bool

    constructor ()
      ensures lines == [] && Context() == G.Cx(map[], G.FIRST_REG, 0, G.Layout(map[], map[], G.GLOBAL_BASE_ADDR), [],
              false)
    {
      lines, varReg, nextReg, labelCnt, loopStack := [], map[], G.FIRST_REG, 0, [];
      globals, arrays, globalNext, inMain := map[], map[], G.GLOBAL_BASE_ADDR, false;
    }

    ghost function Context(): G.Cx
      reads this
    {
      G.Cx(varReg, nextReg, labelCnt, G.Layout(globals, arrays, globalNext), loopStack, inMain)
    }

    /** Code g was appended to `before`, and its result is in register r; a compile error leaves both empty. */
    ghost predicate Emitted(before: seq<Line>, g: Option<G.Gen>, r: Option<Reg>)
      reads this
    {
      r.Some? == g.Some? && (g.Some? ==>
        r.value == g.value.reg && lines == before + g.value.code && Context() == g.value.cx)
    }

    /** The same for statements, which have no result. */
    ghost predicate Produced(before: seq<Line>, o: Option<G.Out>, ok: bool)
      reads this
    {
      ok == o.Some? && (ok ==> lines == before + o.value.code && Context() == o.value.cx)
    }

    // ---- Registers and labels

    method AllocTemp() returns (r: Option<Reg>)
      modifies this`nextReg
      ensures r.Some? == G.AllocTemp(old(Context())).Some?
      ensures r.Some? ==> (r.value, Context()) == G.AllocTemp(old(Context())).value
    {
      if nextReg > G.MAX_REGS {
        return None;
      }
      var reg := nextReg;
      if reg == G.FLAGS_TMP {
        nextReg := nextReg + 1;
        reg := nextReg;
      }
      nextReg := nextReg + 1;
      r := Some(reg);
    }

    method AllocVar(name: string) returns (r: Option<Reg>)
      modifies this`nextReg, this`varReg
      ensures r.Some? == G.AllocVar(old(Context()), name).Some?
      ensures r.Some? ==> (r.value, Context()) == G.AllocVar(old(Context()), name).value
    {
      if name in varReg {
        return Some(varReg[name]);
      }
      r := AllocTemp();
      if r.Some? {
        varReg := varReg[name := r.value];
      }
    }

    method FreeTemps()
      modifies this`nextReg
      ensures Context() == G.FreeTemps(old(Context()))
    {
      if varReg != map[] {
        nextReg := G.MaxReg(varReg, NUM_REGISTERS) + 1;
      } else {
        nextReg := G.FIRST_REG;
      }
    }

    method NewLabel(prefix: string) returns (l: Symbol)
      modifies this`labelCnt
      ensures (l, Context()) == G.NewLabel(old(Context()), prefix)
    {
      l := Numbered(prefix, labelCnt);
      labelCnt := labelCnt + 1;
    }

    // ---- Expressions

    method Variable(name: string) returns (r: Option<Reg>)
      modifies this`lines, this`varReg, this`nextReg, this`labelCnt
      ensures Emitted(old(lines), G.GenVar(old(Context()), name), r)
    {
      hide G.LoadImm;
      if name in globals {
        var address := globals[name];
        r := AllocTemp();
        if r.Some? {
          lines := lines + G.LoadImm(G.FLAGS_TMP, address);
          lines := lines + [G.LoadWord(r.value, G.FLAGS_TMP)];
        }
      } else {
        r := AllocVar(name);
      }
    }

    method ElementAddr(name: string, index: Expr) returns (r: Option<Reg>)
      modifies this`lines, this`varReg, this`nextReg, this`labelCnt
      ensures Emitted(old(lines), G.GenElementAddr(old(Context()), name, index), r)
      decreases index, 2
    {
      hide G.LoadImm, G.GenExpr;
      if name !in arrays {
        return None;
      }
      var base := arrays[name].0;
      var address :- AllocTemp();
      if index.IntLiteral? {
        lines := lines + G.LoadImm(address, base + index.value);
      } else {
        var b :- AllocTemp();
        var i :- Expression(index);
        lines := lines + G.LoadImm(b, base);
        lines := lines + [G.RegOp(ADD, address, b, i)];
      }
      r := Some(address);
    }

    method Slot(name: string, index: Expr) returns (r: Option<Reg>)
      modifies this`lines, this`varReg, this`nextReg, this`labelCnt
      ensures Emitted(old(lines), G.GenSlot(old(Context()), name, index), r)
      decreases index, 3
    {
      hide G.GenExpr, G.GenVar, G.GenElementAddr;
      if name in arrays {
        r := ElementAddr(name, index);
      } else {
        var p :- Variable(name);
        var i :- Expression(index);
        var address :- AllocTemp();
        lines := lines + [G.RegOp(ADD, address, p, i)];
        r := Some(address);
      }
    }

    /** A binary operation, into `dest` if the caller names a register. */
    method BinaryInto(e: Expr, dest: Option<Reg>) returns (r: Option<Reg>)
      requires e.Binary? && !IsLogical(e.op)
      modifies this`lines, this`varReg, this`nextReg, this`labelCnt
      ensures Emitted(old(lines), G.GenBinary(old(Context()), e, dest), r)
      decreases e, 0
    {
      hide G.GenExpr, G.ArithmeticOpcode, G.Compare;
      var rl :- Expression(e.left);
      var rr :- Expression(e.right);
      var rd: Reg;
      if dest.Some? {
        rd := dest.value;
      } else {
        rd :- AllocTemp();
      }
      if IsArithmetic(e.op) {
        lines := lines + [G.RegOp(G.ArithmeticOpcode(e.op), rd, rl, rr)];
      } else {
        Comparison(e.op, rd, rl, rr);
      }
      r := Some(rd);
    }

    method Comparison(op: BinaryOp, rd: Reg, rl: Reg, rr: Reg)
      requires IsComparison(op)
      modifies this`lines, this`varReg, this`nextReg, this`labelCnt
      ensures (lines, Context()) == (old(lines) + G.Compare(op, rd, rl, rr, old(Context())).0,
              G.Compare(op, rd, rl, rr, old(Context())).1)
    {
      if op.Less? {
        lines := lines + [G.RegOp(SLT, rd, rl, rr)];
      } else if op.Greater? {
        lines := lines + [G.RegOp(SLT, rd, rr, rl)];
      } else if op.LessEqual? {
        lines := lines + [G.RegOp(SLT, rd, rr, rl), Ins(InsI(XORI, rd, rd, Num(1)))];
      } else if op.GreaterEqual? {
        lines := lines + [G.RegOp(SLT, rd, rl, rr), Ins(InsI(XORI, rd, rd, Num(1)))];
      } else {
        Equality(op, rd, rl, rr);
      }
    }

    method Equality(op: BinaryOp, rd: Reg, rl: Reg, rr: Reg)
      requires op.Equal? || op.NotEqual?
      modifies this`lines, this`labelCnt
      ensures (lines, Context()) == (old(lines) + G.Compare(op, rd, rl, rr, old(Context())).0,
              G.Compare(op, rd, rl, rr, old(Context())).1)
    {
      var lt := NewLabel("CMP_T");
      var le := NewLabel("CMP_E");
      var sub, br := G.RegOp(SUB, G.FLAGS_TMP, rl, rr), G.BranchTo(if op.Equal? then BEQ else BNE, G.FLAGS_TMP, lt);
      lines := lines + [sub];
      lines := lines + [br];
      FlagLines(rd, 1, lt, le);
      ghost var tail := [G.Movi(rd, 0), G.JumpTo(le), Mark(lt), G.Movi(rd, 1), Mark(le)];
      Joined(old(lines), [sub], [br]);
      Joined(old(lines), [sub] + [br], tail);
      assert [sub] + [br] == [sub, br];
      assert G.Compare(op, rd, rl, rr, old(Context())).0 == [sub, br] + tail;
    }

    /** The common end of comparisons, !, && and ||. */
    method FlagLines(rd: Reg, taken: int, lt: Symbol, le: Symbol)
      modifies this`lines
      ensures lines == old(lines) + [G.Movi(rd, 1 - taken), G.JumpTo(le), Mark(lt), G.Movi(rd, taken), Mark(le)]
    {
      lines := lines + [G.Movi(rd, 1 - taken), G.JumpTo(le)];
      lines := lines + [Mark(lt)];
      lines := lines + [G.Movi(rd, taken)];
      lines := lines + [Mark(le)];
    }

    method Logical(e: Expr) returns (r: Option<Reg>)
      requires e.Binary? && IsLogical(e.op)
      modifies this`lines, this`varReg, this`nextReg, this`labelCnt
      ensures Emitted(old(lines), G.GenLogical(old(Context()), e), r)
      decreases e, 0
    {
      hide G.GenExpr;
      var conj := e.op.LogicalAnd?;
      var ls := NewLabel(if conj then "AND_FALSE" else "OR_TRUE");
      var le := NewLabel(if conj then "AND_END" else "OR_END");
      var skip := if conj then BEQ else BNE;
      var rd :- AllocTemp();
      ghost var left := G.GenExpr(Context(), e.left);
      var rl :- Expression(e.left);
      lines := lines + [G.BranchTo(skip, rl, ls)];
      ghost var right := G.GenExpr(Context(), e.right);
      var rr :- Expression(e.right);
      lines := lines + [G.BranchTo(skip, rr, ls)];
      Joined4(old(lines), left.value.code, [G.BranchTo(skip, rl, ls)], right.value.code, [G.BranchTo(skip, rr, ls)]);
      ghost var code := left.value.code + [G.BranchTo(skip, rl, ls)] + right.value.code + [G.BranchTo(skip, rr, ls)];
      var taken := if conj then 0 else 1;
      FlagLines(rd, taken, ls, le);
      Joined(old(lines), code, [G.Movi(rd, 1 - taken), G.JumpTo(le), Mark(ls), G.Movi(rd, taken), Mark(le)]);
      r := Some(rd);
    }

    method UnaryOperation(op: UnaryOp, operand: Expr) returns (r: Option<Reg>)
      modifies this`lines, this`varReg, this`nextReg, this`labelCnt
      ensures Emitted(old(lines), G.GenUnary(old(Context()), op, operand), r)
      decreases operand, 2
    {
      hide G.GenExpr;
      var x :- Expression(operand);
      var rd :- AllocTemp();
      match op {
        case Negate => lines := lines + [G.RegOp(NEG, rd, x, 0)];
        case Complement => lines := lines + [G.RegOp(NOT, rd, x, 0)];
        case LogicalNot =>
          var lt := NewLabel("NOT_ONE");
          var le := NewLabel("NOT_END");
          lines := lines + [G.BranchTo(BEQ, x, lt)];
          FlagLines(rd, 1, lt, le);
      }
      r := Some(rd);
    }

    method Expression(e: Expr) returns (r: Option<Reg>)
      modifies this`lines, this`varReg, this`nextReg, this`labelCnt
      ensures Emitted(old(lines), G.GenExpr(old(Context()), e), r)
      decreases e, 1
    {
      hide G.GenSlot, G.GenVar, G.GenElementAddr, G.GenBinary, G.GenLogical, G.GenUnary, G.LoadImm;
      match e
      case IntLiteral(v) =>
        var rd :- AllocTemp();
        lines := lines + G.LoadImm(rd, v);
        r := Some(rd);
      case VarRef(n) => r := Variable(n);
      case ArrayRef(n, index) =>
        var a :- Slot(n, index);
        var rd :- AllocTemp();
        lines := lines + [G.LoadWord(rd, a)];
        r := Some(rd);
      case AddrOf(n) =>
        if n !in globals {
          return None;
        }
        var rd :- AllocTemp();
        lines := lines + G.LoadImm(rd, globals[n]);
        r := Some(rd);
      case AddrOfElement(n, index) => r := ElementAddr(n, index);
      case Deref(ptr) =>
        var p :- Expression(ptr);
        var rd :- AllocTemp();
        lines := lines + [G.LoadWord(rd, p)];
        r := Some(rd);
      case Binary(op, _, _) =>
        if IsLogical(op) {
          r := Logical(e);
        } else {
          r := BinaryInto(e, None);
        }
      case Unary(op, operand) => r := UnaryOperation(op, operand);
      case FuncCall(_, _) => r := None;
      case StringLit(_) => r := None;
    }

    // ---- Statements

    method Assignment(name: string, aop: AssignOp, value: Expr) returns (ok: bool)
      modifies this`lines, this`varReg, this`nextReg, this`labelCnt
      ensures Produced(old(lines), G.GenAssign(old(Context()), name, aop, value), ok)
    {
      hide G.GenExpr, G.GenBinary, G.LoadImm, G.ArithmeticOpcode;
      if name in globals {
        lines := lines + G.LoadImm(G.FLAGS_TMP, globals[name]);
        ok := StoreValue(G.FLAGS_TMP, aop, value);
        return;
      }
      var reg := AllocVar(name);
      if reg.None? {
        return false;
      }
      if aop.Compound? && !IsArithmetic(aop.op) {
        return false;
      }
      var v: Option<Reg>;
      if aop.Set? && value.Binary? && !IsLogical(value.op) {
        v := BinaryInto(value, reg);
      } else {
        v := Expression(value);
        if v.Some? {
          if aop.Set? {
            Move(reg.value, v.value);
          } else {
            lines := lines + [G.RegOp(G.ArithmeticOpcode(aop.op), reg.value, reg.value, v.value)];
          }
        }
      }
      ok := v.Some?;
    }

    method Move(rd: Reg, r: Reg)
      modifies this`lines
      ensures lines == old(lines) + if r != rd then [G.RegOp(MOV, rd, r, 0)] else []
    {
      if r != rd {
        lines := lines + [G.RegOp(MOV, rd, r, 0)];
      }
    }

    /** `*ra = value` or `*ra op= value`. */
    method StoreValue(ra: Reg, aop: AssignOp, value: Expr) returns (ok: bool)
      modifies this`lines, this`varReg, this`nextReg, this`labelCnt
      ensures Produced(old(lines), G.GenStore(old(Context()), ra, aop, value), ok)
    {
      hide G.GenExpr, G.ArithmeticOpcode;
      var v := Expression(value);
      if v.None? {
        return false;
      }
      if aop.Set? {
        lines := lines + [G.StoreWord(v.value, ra)];
        return true;
      }
      if !IsArithmetic(aop.op) {
        return false;
      }
      var rc := AllocTemp();
      if rc.None? {
        return false;
      }
      lines := lines + [G.LoadWord(rc.value, ra)];
      lines := lines + [G.RegOp(G.ArithmeticOpcode(aop.op), rc.value, rc.value, v.value)];
      lines := lines + [G.StoreWord(rc.value, ra)];
      ok := true;
    }

    method Initialisers(base: int, inits: seq<Expr>) returns (ok: bool)
      modifies this`lines, this`varReg, this`nextReg, this`labelCnt
      ensures Produced(old(lines), G.GenInits(old(Context()), base, inits, 0), ok)
    {
      hide G.GenExpr, G.LoadImm;
      var i := 0;
      ghost var before, all := lines, G.GenInits(Context(), base, inits, 0);
      while i < |inits|
        invariant i <= |inits|
        invariant var rest := G.GenInits(Context(), base, inits, i);
                  && all.Some? == rest.Some?
                  && (all.Some? ==> before + all.value.code == lines + rest.value.code && all.value.cx == rest.value.cx)
      {
        var v := Expression(inits[i]);
        if v.None? {
          return false;
        }
        lines := lines + G.LoadImm(G.FLAGS_TMP, base + i);
        lines := lines + [G.StoreWord(v.value, G.FLAGS_TMP)];
        i := i + 1;
      }
      ok := true;
    }

    method ReturnStmt(result: Option<Expr>) returns (ok: bool)
      modifies this`lines, this`varReg, this`nextReg, this`labelCnt
      ensures Produced(old(lines), G.GenReturn(old(Context()), result), ok)
    {
      hide G.GenExpr;
      if result.Some? {
        var v := Expression(result.value);
        if v.None? {
          return false;
        }
        Move(1, v.value);
      }
      Ending();
      ok := true;
    }

    method Ending()
      modifies this`lines
      ensures lines == old(lines) + [G.Ending(Context())]
    {
      if inMain {
        lines := lines + [Ins(InsJ(HLT, Num(0)))];
      } else {
        lines := lines + [Ins(InsJ(RET, Num(0)))];
      }
    }

    method IfStmt(cond: Expr, thenBody: seq<Stmt>, elseBody: seq<Stmt>) returns (ok: bool)
      modifies this
      ensures Produced(old(lines), G.GenIf(old(Context()), cond, thenBody, elseBody), ok)
      ensures ok ==> loopStack == old(loopStack)
      decreases If(cond, thenBody, elseBody), 1
    {
      hide G.GenBranches;
      var le := NewLabel("ELSE");
      var ln := NewLabel("ENDIF");
      ok := Branches(cond, thenBody, elseBody, le, ln);
    }

    method Branches(cond: Expr, thenBody: seq<Stmt>, elseBody: seq<Stmt>, le: Symbol, ln: Symbol) returns (ok: bool)
      modifies this
      ensures Produced(old(lines), G.GenBranches(old(Context()), cond, thenBody, elseBody, le, ln), ok)
      ensures ok ==> loopStack == old(loopStack)
      decreases If(cond, thenBody, elseBody), 0
    {
      hide G.GenTest, G.GenSeq, G.GenOptional, G.GenStmt, G.GenIf, G.GenWhile, G.GenFor, G.GenExpr;
      ghost var g := G.GenTest(Context(), Some(cond), le);
      ok := Test(Some(cond), le);
      if !ok {
        return;
      }
      ghost var t := G.GenSeq(Context(), thenBody);
      ok := Statements(thenBody);
      if !ok {
        return;
      }
      var skip := if elseBody != [] then [G.JumpTo(ln)] else [];
      lines := lines + skip;
      lines := lines + [Mark(le)];
      ghost var f := G.GenSeq(Context(), elseBody);
      ok := Statements(elseBody);
      if !ok {
        return;
      }
      lines := lines + [Mark(ln)];
      Joined4(old(lines), g.value.code, t.value.code, skip, [Mark(le)]);
      ghost var code := g.value.code + t.value.code + skip + [Mark(le)];
      Joined(old(lines), code, f.value.code);
      Joined(old(lines), code + f.value.code, [Mark(ln)]);
    }

    method WhileStmt(cond: Expr, body: seq<Stmt>) returns (ok: bool)
      modifies this
      ensures Produced(old(lines), G.GenWhile(old(Context()), cond, body), ok)
      ensures ok ==> loopStack == old(loopStack)
      decreases While(cond, body), 1
    {
      hide G.GenWhileLoop;
      var lt := NewLabel("WHILE_TEST");
      var le := NewLabel("WHILE_END");
      loopStack := loopStack + [(lt, le)];
      ok := WhileLoop(cond, body, lt, le);
      if ok {
        loopStack := loopStack[..|loopStack| - 1];
      }
    }

    method WhileLoop(cond: Expr, body: seq<Stmt>, lt: Symbol, le: Symbol) returns (ok: bool)
      modifies this
      ensures Produced(old(lines), G.GenWhileLoop(old(Context()), cond, body, lt, le), ok)
      ensures ok ==> loopStack == old(loopStack)
      decreases While(cond, body), 0
    {
      hide G.GenTest, G.GenSeq, G.GenOptional, G.GenStmt, G.GenIf, G.GenWhile, G.GenFor, G.GenExpr;
      lines := lines + [Mark(lt)];
      ghost var g := G.GenTest(Context(), Some(cond), le);
      ok := Test(Some(cond), le);
      if !ok {
        return;
      }
      ghost var b := G.GenSeq(Context(), body);
      ok := Statements(body);
      if !ok {
        return;
      }
      lines := lines + [G.JumpTo(lt), Mark(le)];
      Joined4(old(lines), [Mark(lt)], g.value.code, b.value.code, [G.JumpTo(lt), Mark(le)]);
    }

    method ForStmt(x: Stmt) returns (ok: bool)
      requires x.For?
      modifies this
      ensures Produced(old(lines), G.GenFor(old(Context()), x), ok)
      ensures ok ==> loopStack == old(loopStack)
      decreases x, 1
    {
      hide G.GenForLoop, G.GenTest, G.GenSeq, G.GenOptional, G.GenStmt, G.GenIf, G.GenWhile, G.GenExpr;
      var lt := NewLabel("FOR_TEST");
      var lu := NewLabel("FOR_UPD");
      var le := NewLabel("FOR_END");
      ghost var i := G.GenOptional(Context(), x.forInit);
      ok := Optional(x.forInit);
      if !ok {
        return;
      }
      loopStack := loopStack + [(lu, le)];
      ghost var l := G.GenForLoop(Context(), x, lt, lu, le);
      ok := ForLoop(x, lt, lu, le);
      if !ok {
        return;
      }
      Joined(old(lines), i.value.code, l.value.code);
      loopStack := loopStack[..|loopStack| - 1];
    }

    method ForLoop(x: Stmt, lt: Symbol, lu: Symbol, le: Symbol) returns (ok: bool)
      requires x.For?
      modifies this
      ensures Produced(old(lines), G.GenForLoop(old(Context()), x, lt, lu, le), ok)
      ensures ok ==> loopStack == old(loopStack)
      decreases x, 0
    {
      hide G.GenTest, G.GenSeq, G.GenOptional, G.GenStmt, G.GenIf, G.GenWhile, G.GenFor, G.GenExpr;
      lines := lines + [Mark(lt)];
      ghost var c := G.GenTest(Context(), x.forCond, le);
      ok := Test(x.forCond, le);
      if !ok {
        return;
      }
      ghost var b := G.GenSeq(Context(), x.body);
      ok := Statements(x.body);
      if !ok {
        return;
      }
      lines := lines + [Mark(lu)];
      ghost var u := G.GenOptional(Context(), x.update);
      ok := Optional(x.update);
      if !ok {
        return;
      }
      lines := lines + [G.JumpTo(lt), Mark(le)];
      Joined4(old(lines), [Mark(lt)], c.value.code, b.value.code, [Mark(lu)]);
      ghost var code := [Mark(lt)] + c.value.code + b.value.code + [Mark(lu)];
      Joined(old(lines), code, u.value.code);
      Joined(old(lines), code + u.value.code, [G.JumpTo(lt), Mark(le)]);
    }

    /** The initialiser or the update of a for loop, either of which may be missing. */
    method Optional(x: Option<Stmt>) returns (ok: bool)
      modifies this
      ensures Produced(old(lines), G.GenOptional(old(Context()), x), ok)
      ensures ok ==> loopStack == old(loopStack)
      decreases x, 0
    {
      ok := true;
      if x.Some? {
        ok := Statement(x.value);
      }
    }

    method Test(cond: Option<Expr>, le: Symbol) returns (ok: bool)
      modifies this`lines, this`varReg, this`nextReg, this`labelCnt
      ensures Produced(old(lines), G.GenTest(old(Context()), cond, le), ok)
    {
      ok := true;
      if cond.Some? {
        var c := Expression(cond.value);
        if c.None? {
          return false;
        }
        lines := lines + [G.BranchTo(BEQ, c.value, le)];
      }
    }

    method Statements(stmts: seq<Stmt>) returns (ok: bool)
      modifies this
      ensures Produced(old(lines), G.GenSeq(old(Context()), stmts), ok)
      ensures ok ==> loopStack == old(loopStack)
      decreases stmts, 0
    {
      hide G.GenStmt;
      var i := 0;
      ok := true;
      ghost var before, all := lines, G.GenSeq(Context(), stmts);
      while i < |stmts|
        invariant i <= |stmts| && ok && loopStack == old(loopStack)
        invariant var rest := G.GenSeq(Context(), stmts[i..]);
                  && all.Some? == rest.Some?
                  && (all.Some? ==> before + all.value.code == lines + rest.value.code && all.value.cx == rest.value.cx)
      {
        assert stmts[i..][1..] == stmts[i + 1..] && stmts[i..][0] == stmts[i];
        ok := Statement(stmts[i]);
        if !ok {
          return;
        }
        i := i + 1;
      }
    }

    method Declaration(name: string, init: Option<Expr>) returns (ok: bool)
      modifies this`lines, this`varReg, this`nextReg, this`labelCnt
      ensures Produced(old(lines), G.GenStmt(old(Context()), VarDecl(name, init)), ok)
    {
      hide G.GenExpr, G.AllocVar, G.FreeTemps;
      var reg := AllocVar(name);
      if reg.None? {
        return false;
      }
      if init.Some? {
        var v := Expression(init.value);
        if v.None? {
          return false;
        }
        Move(reg.value, v.value);
      }
      FreeTemps();
      ok := true;
    }

    method ArrayDeclaration(name: string, size: nat, inits: seq<Expr>) returns (ok: bool)
      modifies this
      ensures Produced(old(lines), G.GenStmt(old(Context()), ArrayDecl(name, size, inits)), ok)
      ensures loopStack == old(loopStack)
    {
      hide G.GenInits, G.FreeTemps;
      var base := globalNext;
      arrays := arrays[name := (base, size)];
      globalNext := globalNext + size;
      ok := Initialisers(base, inits);
      FreeTemps();
    }

    method ElementAssignment(name: string, index: Expr, aop: AssignOp, value: Expr) returns (ok: bool)
      modifies this`lines, this`varReg, this`nextReg, this`labelCnt
      ensures Produced(old(lines), G.GenStmt(old(Context()), ArrayAssign(name, index, aop, value)), ok)
    {
      hide G.GenSlot, G.GenStore, G.FreeTemps;
      var a := Slot(name, index);
      if a.None? {
        return false;
      }
      ok := StoreValue(a.value, aop, value);
      FreeTemps();
    }

    method DerefAssignment(ptr: Expr, aop: AssignOp, value: Expr) returns (ok: bool)
      modifies this`lines, this`varReg, this`nextReg, this`labelCnt
      ensures Produced(old(lines), G.GenStmt(old(Context()), DerefAssign(ptr, aop, value)), ok)
    {
      hide G.GenExpr, G.GenStore, G.FreeTemps;
      var p := Expression(ptr);
      if p.None? {
        return false;
      }
      ok := StoreValue(p.value, aop, value);
      FreeTemps();
    }

    method Statement(x: Stmt) returns (ok: bool)
      modifies this
      ensures Produced(old(lines), G.GenStmt(old(Context()), x), ok)
      ensures ok ==> loopStack == old(loopStack)
      decreases x, 2
    {
      hide G.GenExpr, G.GenSlot, G.GenStore, G.GenInits, G.GenAssign, G.GenReturn, G.GenIf, G.GenWhile, G.GenFor,
        G.GenSeq, G.AllocVar, G.FreeTemps;
      match x
      case VarDecl(name, init) => ok := Declaration(name, init);
      case ArrayDecl(name, size, inits) => ok := ArrayDeclaration(name, size, inits);
      case Assign(name, aop, value) =>
        ok := Assignment(name, aop, value);
        FreeTemps();
      case ArrayAssign(name, index, aop, value) => ok := ElementAssignment(name, index, aop, value);
      case DerefAssign(ptr, aop, value) => ok := DerefAssignment(ptr, aop, value);
      case If(cond, thenBody, elseBody) => ok := IfStmt(cond, thenBody, elseBody);
      case While(cond, body) => ok := WhileStmt(cond, body);
      case For(_, _, _, _) => ok := ForStmt(x);
      case Return(result) =>
        ok := ReturnStmt(result);
        FreeTemps();
      case Break =>
        if loopStack == [] {
          return false;
        }
        lines := lines + [G.JumpTo(loopStack[|loopStack| - 1].1)];
        ok := true;
      case Continue =>
        if loopStack == [] {
          return false;
        }
        lines := lines + [G.JumpTo(loopStack[|loopStack| - 1].0)];
        ok := true;
      case ExprStmt(e) =>
        var v := Expression(e);
        FreeTemps();
        ok := v.Some?;
      case Block(stmts) => ok := Statements(stmts);
    }

    // ---- Programs

    method DeclareGlobals(gs: seq<P.Global>)
      modifies this`globals, this`arrays, this`globalNext
      ensures Context() == old(Context()).(layout := P.GlobalLayout(gs, old(Context().layout)))
    {
      var i := 0;
      ghost var all := P.GlobalLayout(gs, Context().layout);
      while i < |gs|
        invariant 0 <= i <= |gs|
        invariant P.GlobalLayout(gs[i..], Context().layout) == all
      {
        assert gs[i..][0] == gs[i] && gs[i..][1..] == gs[i + 1..];
        match gs[i] {
          case Array(name, size, _) =>
            arrays := arrays[name := (globalNext, size)];
            globalNext := globalNext + size;
          case Scalar(name, _) =>
            globals := globals[name := globalNext];
            globalNext := globalNext + 1;
        }
        i := i + 1;
      }
      assert gs[i..] == [];
    }

    method EmitGlobal(g: P.Global)
      requires P.Knows(Context().layout, g)
      modifies this`lines
      ensures lines == old(lines) + P.GlobalLines(g, P.AddressOf(Context().layout, g))
    {
      match g
      case Array(name, size, inits) =>
        var org := [Ins(Org(arrays[name].0))];
        lines := lines + org;
        EmitElements(inits, size);
        Joined(old(lines), org, P.ElementLines(inits, size, 0));
      case Scalar(name, init) =>
        lines := lines + [Ins(Org(globals[name])), P.WordLine(P.InitialValue(init))];
    }

    /** The .org and .word lines of all globals. */
    method EmitData(gs: seq<P.Global>)
      requires forall k :: 0 <= k < |gs| ==> P.Knows(Context().layout, gs[k])
      modifies this`lines
      ensures lines == old(lines) + P.DataLines(gs, Context().layout)
    {
      hide P.GlobalLines, P.AddressOf, P.Knows;
      var i := 0;
      ghost var layout := Context().layout;
      ghost var all := lines + P.DataLines(gs, layout);
      while i < |gs|
        invariant 0 <= i <= |gs| && Context().layout == layout
        invariant lines + P.DataLines(gs[i..], layout) == all
      {
        assert gs[i..][0] == gs[i] && gs[i..][1..] == gs[i + 1..];
        Joined(lines, P.GlobalLines(gs[i], P.AddressOf(layout, gs[i])), P.DataLines(gs[i + 1..], layout));
        EmitGlobal(gs[i]);
        i := i + 1;
      }
      assert gs[i..] == [];
    }

    method EmitElements(inits: seq<Expr>, size: nat)
      modifies this`lines
      ensures lines == old(lines) + P.ElementLines(inits, size, 0)
    {
      var k := 0;
      ghost var all := lines + P.ElementLines(inits, size, 0);
      while k < size
        invariant 0 <= k <= size
        invariant lines + P.ElementLines(inits, size, k) == all
      {
        Joined(lines, [P.WordLine(P.ElementValue(inits, k))], P.ElementLines(inits, size, k + 1));
        lines := lines + [P.WordLine(P.ElementValue(inits, k))];
        k := k + 1;
      }
    }

    /** A program with one function, main, which has no parameters. */
    method Generate(p: P.Program) returns (ok: bool)
      modifies this
      ensures ok == P.GenProgram(p).Some?
      ensures ok ==> lines == P.GenProgram(p).value
    {
      hide G.GenSeq, P.DataLines, P.FinalLayout, P.GlobalLayout, P.GenProgram;
      lines, labelCnt := [], 0;
      globals, arrays, globalNext := map[], map[], G.GLOBAL_BASE_ADDR;
      DeclareGlobals(p.globals);
      lines := lines + [Ins(Org(0))];
      lines := lines + [G.JumpTo(P.MAIN)];
      varReg, nextReg, loopStack, inMain := map[], G.FIRST_REG, [], true;
      lines := lines + [Mark(P.MAIN)];
      assert Context() == P.StartContext(p) && lines == [Ins(Org(0)), G.JumpTo(P.MAIN), Mark(P.MAIN)];
      ok := Statements(p.body);
      if !ok {
        P.NoProgram(p);
        return;
      }
      ghost var o := G.GenSeq(P.StartContext(p), p.body).value;
      Ending();
      P.LayoutIsFinal(p);
      EmitData(p.globals);
      P.ProgramLines(p, o);
    }
  }
}
