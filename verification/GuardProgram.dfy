/** `int g = 1; int main() { if (g) return 7; }`, compiled, assembled, loaded and run on the pipeline. */
module GuardProgram {
  import opened Words
  import opened Isa
  import opened Memory
  import opened Wrappers
  import opened Ast
  import opened Assembly
  import opened AssemblerSpec
  import opened Sequential
  import opened CodeGen
  import opened Semantics
  import opened Programs
  import opened GlobalData
  import opened Conditions
  import Pipeline
  import Progress

  // ---- The program and its code

  const SEVEN: seq<Stmt> := [Return(Some(IntLiteral(7)))]

  const GUARD := Program([Scalar("g", Some(IntLiteral(1)))], [If(VarRef("g"), SEVEN, [])])

  const SKIP := Numbered("ELSE", 0)

  const OVER := Numbered("ENDIF", 1)

  const GUARD_LAYOUT := Layout(map["g" := 0x4000], map[], 0x4001)

  lemma GuardLayouts()
    ensures StartLayout(GUARD) == FinalLayout(GUARD) == GUARD_LAYOUT
  {
    var l0 := Layout(map[], map[], GLOBAL_BASE_ADDR);
    assert GUARD.globals[1..] == [] && GUARD.body[1..] == [];
    assert GlobalLayout([], GUARD_LAYOUT) == GUARD_LAYOUT;
    assert AfterSeq(GUARD_LAYOUT, []) == GUARD_LAYOUT;
    assert SEVEN[1..] == [] && AfterSeq(GUARD_LAYOUT, SEVEN) == GUARD_LAYOUT;
    assert After(GUARD_LAYOUT, GUARD.body[0]) == AfterSeq(AfterSeq(GUARD_LAYOUT, SEVEN), []) == GUARD_LAYOUT;
    assert AfterSeq(GUARD_LAYOUT, GUARD.body) == AfterSeq(After(GUARD_LAYOUT, GUARD.body[0]), GUARD.body[1..]);
  }

  const GUARD_CX := Cx(map[], FIRST_REG, 0, GUARD_LAYOUT, [], true)

  lemma ConditionGenerates()
    ensures GenTest(GUARD_CX.(labels := 2), Some(VarRef("g")), SKIP)
         == Some(Out([Movi(26, 0x4000), LoadWord(2, 26), BranchTo(BEQ, 2, SKIP)], GUARD_CX.(labels := 2, nextReg := 3)))
  {
    var cx := GUARD_CX.(labels := 2);
    var load, word, branch := Movi(26, 0x4000), LoadWord(2, 26), BranchTo(BEQ, 2, SKIP);
    assert LoadImm(FLAGS_TMP, 0x4000) == [load];
    assert AllocTemp(cx) == Some((2, cx.(nextReg := 3)));
    assert GenVar(cx, "g") == Some(Gen([load] + [word], 2, cx.(nextReg := 3)));
    assert [load] + [word] + [branch] == [load, word, branch];
  }

  lemma ReturnGenerates()
    ensures GenSeq(GUARD_CX.(labels := 2, nextReg := 3), SEVEN)
         == Some(Out([Movi(3, 7), RegOp(MOV, 1, 3, 0), Ins(InsJ(HLT, Num(0)))], GUARD_CX.(labels := 2)))
  {
    var cx := GUARD_CX.(labels := 2, nextReg := 3);
    var seven, mov, halt := Movi(3, 7), RegOp(MOV, 1, 3, 0), Ins(InsJ(HLT, Num(0)));
    assert SEVEN[1..] == [] && LoadImm(3, 7) == [seven];
    assert GenExpr(cx, IntLiteral(7)) == Some(Gen([seven], 3, cx.(nextReg := 4)));
    assert [seven] + [mov] + [halt] == [seven, mov, halt];
    assert GenReturn(cx, Some(IntLiteral(7))) == Some(Out([seven, mov, halt], cx.(nextReg := 4)));
    assert FreeTemps(cx.(nextReg := 4)) == GUARD_CX.(labels := 2);
    var o := Out([Movi(3, 7), RegOp(MOV, 1, 3, 0), Ins(InsJ(HLT, Num(0)))], GUARD_CX.(labels := 2));
    assert GenStmt(cx, SEVEN[0]) == Some(o);
    assert GenSeq(o.cx, []) == Some(Out([], o.cx)) && o.code + [] == o.code;
  }

  function BodyCode(): seq<Line> {
    [Movi(26, 0x4000), LoadWord(2, 26), BranchTo(BEQ, 2, SKIP),
     Movi(3, 7), RegOp(MOV, 1, 3, 0), Ins(InsJ(HLT, Num(0))), Mark(SKIP), Mark(OVER)]
  }

  lemma IfGenerates()
    ensures GenIf(GUARD_CX, VarRef("g"), SEVEN, []) == Some(Out(BodyCode(), GUARD_CX.(labels := 2)))
  {
    ConditionGenerates();
    ReturnGenerates();
    assert GenSeq(GUARD_CX.(labels := 2), []) == Some(Out([], GUARD_CX.(labels := 2)));
    hide GenTest, GenSeq, Movi, LoadWord, BranchTo, RegOp;
    var cx := GUARD_CX.(labels := 2);
    assert NewLabel(GUARD_CX, "ELSE") == (SKIP, GUARD_CX.(labels := 1))
        && NewLabel(GUARD_CX.(labels := 1), "ENDIF") == (OVER, cx);
    var c := GenTest(cx, Some(VarRef("g")), SKIP).value.code;
    var t := GenSeq(cx.(nextReg := 3), SEVEN).value.code;
    assert c + t + [] + [Mark(SKIP)] + [] + [Mark(OVER)] == BodyCode();
  }

  lemma GuardGenerates()
    ensures StartContext(GUARD) == GUARD_CX
            && GenSeq(GUARD_CX, GUARD.body) == Some(Out(BodyCode(), GUARD_CX.(labels := 2)))
  {
    GuardLayouts();
    IfGenerates();
    hide StartLayout, FinalLayout, GenIf, BodyCode;
    assert GUARD.body[1..] == [];
    var o := Out(BodyCode(), GUARD_CX.(labels := 2));
    assert GenStmt(GUARD_CX, GUARD.body[0]) == Some(o);
    assert GenSeq(o.cx, []) == Some(Out([], o.cx)) && o.code + [] == o.code;
  }

  // ---- Its words

  lemma NextLine(m: Mem, t: Symbols, a: nat, lines: seq<Line>, rest: seq<Line>)
    requires CodeAt(m, t, a, lines) && lines != [] && rest == lines[1..] && IsInstruction(lines[0].body)
    ensures a < MEM_SIZE && BodyResolvable(t, lines[0].body) && Isa.Decode(m[a]) == Assembled(t, lines[0].body, a)
    ensures CodeAt(m, t, a + 1, rest)
  {
    hide Isa.Decode, Assembled;
  }

  lemma MarkedLine(m: Mem, t: Symbols, a: nat, lines: seq<Line>)
    requires CodeAt(m, t, a, lines) && lines != [] && lines[0].mark.Some?
    ensures lines[0].mark.value in t && t[lines[0].mark.value] == a
  {
    hide Isa.Decode, Assembled;
  }

  lemma BodyWords(m: Mem, t: Symbols)
    requires CodeAt(m, t, 1, BodyCode())
    ensures Isa.Decode(m[1]) == InstrI(MOVI, 26, 0, 0x4000) && Isa.Decode(m[2]) == InstrI(LW, 2, 26, 0)
    ensures Isa.Decode(m[3]) == InstrB(BEQ, 2, 0, 4) && Isa.Decode(m[4]) == InstrI(MOVI, 3, 0, 7)
  {
    hide Isa.Decode, CodeAt;
    var b := BodyCode();
    NextLine(m, t, 1, b, b[1..]);
    NextLine(m, t, 2, b[1..], b[2..]);
    NextLine(m, t, 3, b[2..], b[3..]);
    NextLine(m, t, 4, b[3..], b[4..]);
    NextLine(m, t, 5, b[4..], b[5..]);
    NextLine(m, t, 6, b[5..], b[6..]);
    MarkedLine(m, t, 7, b[6..]);
  }

  lemma BodySize()
    ensures Size(BodyCode()) == 6
  {
    var b := BodyCode();
    assert b[0..] == b && b[0..][1..] == b[1..] && b[1..][1..] == b[2..] && b[2..][1..] == b[3..]
        && b[3..][1..] == b[4..];
    assert b[4..][1..] == b[5..] && b[5..][1..] == b[6..] && b[6..][1..] == b[7..] && b[7..][1..] == [];
    assert Size(b[7..]) == 0 && Size(b[6..]) == 0 && Size(b[5..]) == 1 && Size(b[4..]) == 2;
    assert Size(b[3..]) == 3 && Size(b[2..]) == 4 && Size(b[1..]) == 5;
  }

  lemma GuardSize()
    ensures MainCode(GUARD).Some? && Size(MainCode(GUARD).value) == 8
  {
    GuardGenerates();
    BodySize();
    hide GenSeq, StartLayout;
    assert MainCode(GUARD) == Some([JumpTo(MAIN), Mark(MAIN)] + BodyCode() + [Ins(InsJ(HLT, Num(0)))]);
    var l0, l1, l2 := JumpTo(MAIN), Mark(MAIN), Ins(InsJ(HLT, Num(0)));
    assert [l0, l1][1..] == [l1] && [l1][1..] == [] && [l2][1..] == [];
    assert Size([l1]) == 0 && Size([l0, l1]) == 1 && Size([l2]) == 1;
    hide BodyCode, MainCode, Size;
    SizeConcat([l0, l1] + BodyCode(), [l2]);
    SizeConcat([l0, l1], BodyCode());
  }

  lemma GuardData()
    ensures var g := GUARD.globals[0];
            && AddressOf(StartLayout(GUARD), g) == 0x4000 && Occupies(StartLayout(GUARD), g, 0x4000)
                && Occupies(FinalLayout(GUARD), g, 0x4000)
            && !Occupies(FinalLayout(GUARD), g, 8) && EmittedWords(g)[0] == 1 && Distinct(GUARD.globals)
                && !Moved(GUARD, 0)
  {
    GuardLayouts();
    hide StartLayout, FinalLayout, AllArrayNames;
  }

  lemma GuardCodeAt(words: seq<Word>, m: Mem) returns (t: Symbols)
    requires AssemblesTo(GUARD, words) && Holds(m, words)
    ensures CodeAt(m, t, 0, MainCode(GUARD).value)
  {
    GuardSize();
    hide GenSeq, MainCode, StartLayout, DataLines, Size, CodeAt, IsImage, Holds, Pass1, Pass2;
    var out;
    t, out := ProgramAssembles(GUARD);
    ImageHolds(words, out, m, 8);
  }

  lemma GuardCodeWords(m: Mem, t: Symbols)
    requires MainCode(GUARD).Some? && CodeAt(m, t, 0, MainCode(GUARD).value) && m[8] == 0
    ensures GuardWords(m)
  {
    GuardSize();
    GuardGenerates();
    BodySize();
    hide Isa.Decode, GenSeq, MainCode, BodyCode, Size, StartLayout;
    MainParts(GUARD, m, t);
    BodyWords(m, t);
    FirstWord(m, t, [Mark(MAIN)] + (BodyCode() + [Ins(InsJ(HLT, Num(0)))]));
    LastWord(m, t);
  }

  lemma FirstWord(m: Mem, t: Symbols, rest: seq<Line>)
    requires CodeAt(m, t, 0, [JumpTo(MAIN)] + rest) && MAIN in t && t[MAIN] == 1
    ensures Isa.Decode(m[0]) == InstrJ(JMP, 1)
  {
    hide Isa.Decode;
    assert ([JumpTo(MAIN)] + rest)[0] == JumpTo(MAIN);
  }

  lemma LastWord(m: Mem, t: Symbols)
    requires CodeAt(m, t, 7, [Ins(InsJ(HLT, Num(0)))])
    ensures Isa.Decode(m[7]) == InstrJ(HLT, 0)
  {
    hide Isa.Decode;
  }

  lemma GuardLoaded(words: seq<Word>, m: Mem)
    requires AssemblesTo(GUARD, words) && Holds(m, words)
    ensures GuardWords(m) && m[0x4000] == 1
  {
    GuardSize();
    GuardData();
    hide GuardWords, AssemblesTo, GenSeq, MainCode, StartLayout, FinalLayout, Size, CodeAt, Occupies, EmittedWords,
      Holds, AddressOf, Distinct, Moved;
    FoundWord(GUARD, words, m, 0, 0x4000);
    GapWord(GUARD, words, m, 8, 0, 0x4000);
    var t := GuardCodeAt(words, m);
    GuardCodeWords(m, t);
  }

  // ---- What the program means, and what the sequential machine does

  lemma GuardMeans(m: Mem)
    requires m[0x4000] == 1
    ensures Meaning(GUARD, m, 0).Returned? && Meaning(GUARD, m, 0).result == Some(7)
  {
    GuardLayouts();
    hide StartLayout, FinalLayout;
    var l, st := GUARD_LAYOUT, Store(map[], m);
    assert Eval(l, VarRef("g"), st) == Some(1) && Eval(l, IntLiteral(7), st) == Some(7);
    assert Exec(0, l, CODE_TOP, SEVEN[0], st) == Returned(Some(7), st);
    assert ExecSeq(0, l, CODE_TOP, SEVEN, st) == Returned(Some(7), st);
    assert ExecBlock(0, l, CODE_TOP, SEVEN, st).Returned?;
    assert Exec(0, l, CODE_TOP, GUARD.body[0], st).Returned?;
  }

  /** The meaning of main is to return 7, and the sequential machine halts with 7 in R1; the pipeline halts with 0. */
  lemma CompiledGuardFails(words: seq<Word>, m: Mem) returns (n: nat, k: nat)
    requires AssemblesTo(GUARD, words) && Holds(m, words)
    ensures Meaning(GUARD, m, 0).Returned? && Meaning(GUARD, m, 0).result == Some(7)
    ensures var s := IsaRun(Progress.Initial(m, 0), k); AtHalt(s) && s.regs[1] == 7
    ensures var c := Pipeline.Cycles(Pipeline.Reset(m, 0), n); c.halted && c.rf[1] == 0
  {
    GuardLoaded(words, m);
    GuardMeans(m);
    GuardSize();
    hide AssemblesTo, Holds, MainCode, Meaning, IsaRun, AtHalt, Size, Pipeline.Cycles, Pipeline.Reset, GuardWords,
      SteadyRun;
    n := GuardSkips(m);
    k := CompiledProgramRuns(GUARD, words, m, 0, Progress.Initial(m, 0).regs);
  }
}
