/** What statements keep at compile time. */
module CompilerStmtStatic {
  import opened Isa
  import opened Wrappers
  import opened Ast
  import opened Assembly
  import opened CodeGen
  import opened Semantics
  import opened CompilerStatic

  /** Later contexts know every variable of earlier ones, in the same register. */
  ghost predicate Grown(cx: Cx, cx': Cx) {
    && Sound(cx') && cx'.loops == cx.loops && cx'.main == cx.main
    && forall x | x in cx.vars :: x in cx'.vars && cx'.vars[x] == cx.vars[x]
  }

  lemma GrownTrans(cx: Cx, cx1: Cx, cx2: Cx)
    requires Grown(cx, cx1) && Grown(cx1, cx2)
    ensures Grown(cx, cx2)
  {
  }

  lemma ExtendsGrown(cx: Cx, cx': Cx)
    requires Extends(cx, cx')
    ensures Grown(cx, cx') && cx'.layout == cx.layout
  {
  }

  lemma FreeFacts(cx: Cx)
    requires Sound(cx)
    ensures Grown(cx, FreeTemps(cx)) && FreeTemps(cx).layout == cx.layout && FreeTemps(cx).vars == cx.vars
  {
  }

  /** Only the loop stack or the layout differs. */
  lemma SoundSame(cx: Cx, cx': Cx)
    requires Sound(cx) && cx'.vars == cx.vars && cx'.nextReg == cx.nextReg
    ensures Sound(cx')
  {
  }

  lemma AssignFacts(cx: Cx, name: string, aop: AssignOp, value: Expr)
    requires Sound(cx) && GenAssign(cx, name, aop, value).Some?
    ensures Grown(cx, GenAssign(cx, name, aop, value).value.cx)
    ensures GenAssign(cx, name, aop, value).value.cx.layout == cx.layout
  {
    if name in cx.layout.globals {
      ExprFacts(cx, value);
      if aop.Compound? { TempFacts(GenExpr(cx, value).value.cx); }
    } else {
      VarFacts(cx, name);
      var cx1 := AllocVar(cx, name).value.1;
      if aop.Set? && value.Binary? && !IsLogical(value.op) {
        BinaryFacts(cx1, value, Some(AllocVar(cx, name).value.0));
      } else {
        ExprFacts(cx1, value);
      }
    }
  }

  lemma StoreFacts(cx: Cx, ra: Reg, aop: AssignOp, value: Expr)
    requires Sound(cx) && GenStore(cx, ra, aop, value).Some?
    ensures Extends(cx, GenStore(cx, ra, aop, value).value.cx)
  {
    ExprFacts(cx, value);
    if aop.Compound? { TempFacts(GenExpr(cx, value).value.cx); }
  }

  lemma {:induction false} InitsFacts(cx: Cx, base: int, inits: seq<Expr>, i: nat)
    requires Sound(cx) && i <= |inits| && GenInits(cx, base, inits, i).Some?
    ensures Extends(cx, GenInits(cx, base, inits, i).value.cx)
    decreases |inits| - i
  {
    if i < |inits| {
      ExprFacts(cx, inits[i]);
      InitsFacts(GenExpr(cx, inits[i]).value.cx, base, inits, i + 1);
    }
  }

  lemma TestFacts(cx: Cx, cond: Option<Expr>, le: Symbol)
    requires Sound(cx) && GenTest(cx, cond, le).Some?
    ensures Extends(cx, GenTest(cx, cond, le).value.cx)
  {
    if cond.Some? { ExprFacts(cx, cond.value); }
  }

  lemma ReturnFacts(cx: Cx, result: Option<Expr>)
    requires Sound(cx) && GenReturn(cx, result).Some?
    ensures Extends(cx, GenReturn(cx, result).value.cx)
  {
    if result.Some? { ExprFacts(cx, result.value); }
  }

  /** A statement's context grows, and its layout follows the declarations in it. */
  lemma {:induction false} StmtFacts(cx: Cx, st: Stmt)
    requires Sound(cx) && GenStmt(cx, st).Some?
    ensures Grown(cx, GenStmt(cx, st).value.cx) && GenStmt(cx, st).value.cx.layout == After(cx.layout, st)
    decreases st, 1
  {
    hide GenExpr, GenSlot, GenAssign, GenStore, GenInits, GenReturn, FreeTemps, AllocVar, Extends, GenIf, GenWhile,
      GenFor;
    match st
    case VarDecl(name, init) =>
      VarFacts(cx, name);
      var cx1 := AllocVar(cx, name).value.1;
      ExtendsGrown(cx, cx1);
      if init.None? {
        FreeFacts(cx1);
      } else {
        ExprFacts(cx1, init.value);
        var v := GenExpr(cx1, init.value).value;
        ExtendsGrown(cx1, v.cx);
        FreeFacts(v.cx);
      }
    case ArrayDecl(name, size, inits) =>
      var cx1 := cx.(layout := Declare(cx.layout, name, size));
      SoundSame(cx, cx1);
      InitsFacts(cx1, cx.layout.next, inits, 0);
      var o := GenInits(cx1, cx.layout.next, inits, 0).value;
      ExtendsGrown(cx1, o.cx);
      FreeFacts(o.cx);
    case Assign(name, aop, value) =>
      AssignFacts(cx, name, aop, value);
      FreeFacts(GenAssign(cx, name, aop, value).value.cx);
    case ArrayAssign(name, index, aop, value) =>
      SlotFacts(cx, name, index);
      var a := GenSlot(cx, name, index).value;
      ExtendsGrown(cx, a.cx);
      StoreFacts(a.cx, a.reg, aop, value);
      var o := GenStore(a.cx, a.reg, aop, value).value;
      ExtendsGrown(a.cx, o.cx);
      FreeFacts(o.cx);
    case DerefAssign(ptr, aop, value) =>
      ExprFacts(cx, ptr);
      var p := GenExpr(cx, ptr).value;
      ExtendsGrown(cx, p.cx);
      StoreFacts(p.cx, p.reg, aop, value);
      var o := GenStore(p.cx, p.reg, aop, value).value;
      ExtendsGrown(p.cx, o.cx);
      FreeFacts(o.cx);
    case If(cond, thenBody, elseBody) => IfFacts(cx, cond, thenBody, elseBody);
    case While(cond, body) => WhileFacts(cx, cond, body);
    case For(init, cond, update, body) => ForFacts(cx, st);
    case Return(result) =>
      ReturnFacts(cx, result);
      var o := GenReturn(cx, result).value;
      ExtendsGrown(cx, o.cx);
      FreeFacts(o.cx);
    case ExprStmt(e) =>
      ExprFacts(cx, e);
      var v := GenExpr(cx, e).value;
      ExtendsGrown(cx, v.cx);
      FreeFacts(v.cx);
    case Block(stmts) => SeqFacts(cx, stmts);
    case _ =>
  }

  lemma IfFacts(cx: Cx, cond: Expr, thenBody: seq<Stmt>, elseBody: seq<Stmt>)
    requires Sound(cx) && GenIf(cx, cond, thenBody, elseBody).Some?
    ensures Grown(cx, GenIf(cx, cond, thenBody, elseBody).value.cx)
    ensures GenIf(cx, cond, thenBody, elseBody).value.cx.layout == AfterSeq(AfterSeq(cx.layout, thenBody), elseBody)
    decreases If(cond, thenBody, elseBody), 0
  {
    hide GenTest, GenSeq, Extends;
    var (le, cx1) := NewLabel(cx, "ELSE");
    var (ln, cx2) := NewLabel(cx1, "ENDIF");
    SoundSame(cx, cx2);
    TestFacts(cx2, Some(cond), le);
    var c := GenTest(cx2, Some(cond), le).value;
    ExtendsGrown(cx2, c.cx);
    SeqFacts(c.cx, thenBody);
    SeqFacts(GenSeq(c.cx, thenBody).value.cx, elseBody);
  }

  lemma WhileFacts(cx: Cx, cond: Expr, body: seq<Stmt>)
    requires Sound(cx) && GenWhile(cx, cond, body).Some?
    ensures Grown(cx, GenWhile(cx, cond, body).value.cx)
    ensures GenWhile(cx, cond, body).value.cx.layout == AfterSeq(cx.layout, body)
    decreases While(cond, body), 0
  {
    hide GenTest, GenSeq, Extends;
    var (lt, cx1) := NewLabel(cx, "WHILE_TEST");
    var (le, cx2) := NewLabel(cx1, "WHILE_END");
    var cx3 := cx2.(loops := cx.loops + [(lt, le)]);
    SoundSame(cx, cx3);
    TestFacts(cx3, Some(cond), le);
    var c := GenTest(cx3, Some(cond), le).value;
    ExtendsGrown(cx3, c.cx);
    SeqFacts(c.cx, body);
    var b := GenSeq(c.cx, body).value;
    SoundSame(b.cx, b.cx.(loops := cx.loops));
  }

  lemma ForFacts(cx: Cx, st: Stmt)
    requires Sound(cx) && st.For? && GenFor(cx, st).Some?
    ensures Grown(cx, GenFor(cx, st).value.cx) && GenFor(cx, st).value.cx.layout == After(cx.layout, st)
    decreases st, 0
  {
    hide GenTest, GenStmt, GenSeq, Extends, FreeTemps;
    var (lt, cx1) := NewLabel(cx, "FOR_TEST");
    var (lu, cx2) := NewLabel(cx1, "FOR_UPD");
    var (le, cx3) := NewLabel(cx2, "FOR_END");
    SoundSame(cx, cx3);
    if st.forInit.Some? { StmtFacts(cx3, st.forInit.value); }
    var i := GenOptional(cx3, st.forInit).value;
    var cx4 := i.cx.(loops := cx.loops + [(lu, le)]);
    SoundSame(i.cx, cx4);
    var l := GenForLoop(cx4, st, lt, lu, le).value;
    TestFacts(cx4, st.forCond, le);
    var c := GenTest(cx4, st.forCond, le).value;
    ExtendsGrown(cx4, c.cx);
    SeqFacts(c.cx, st.body);
    var b := GenSeq(c.cx, st.body).value;
    var u := GenOptional(b.cx, st.update).value;
    if st.update.Some? { StmtFacts(b.cx, st.update.value); }
    SoundSame(u.cx, u.cx.(loops := cx.loops));
  }

  lemma {:induction false} SeqFacts(cx: Cx, stmts: seq<Stmt>)
    requires Sound(cx) && GenSeq(cx, stmts).Some?
    ensures Grown(cx, GenSeq(cx, stmts).value.cx) && GenSeq(cx, stmts).value.cx.layout == AfterSeq(cx.layout, stmts)
    decreases stmts, 0
  {
    hide GenStmt;
    if stmts != [] {
      StmtFacts(cx, stmts[0]);
      SeqFacts(GenStmt(cx, stmts[0]).value.cx, stmts[1..]);
    }
  }
}
