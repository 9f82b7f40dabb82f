/** A compiled condition on a global variable is false on the pipeline, whatever the variable holds. */
module Conditions {
  import opened Words
  import opened Isa
  import opened Memory
  import opened Registers
  import opened Pipeline
  import opened Sequential
  import opened Refinement
  import opened Progress
  import opened Misreads
  import opened Gaps

  // ---- The load and the branch of a condition

  /** At s stands the code of a condition on a global: load it into r, and branch if r is 0. */
  predicate TestsLoaded(s: Arch, r: Reg, base: Reg, off: int) {
    && OnCode(s) && s.pc + 1 < MEM_SIZE && r != 0 && r != LR_REG && r != SP_REG
    && Isa.Decode(Fetch(s)) == InstrI(LW, r, base, 0) && Isa.Decode(NextWord(s)) == InstrB(BEQ, r, 0, off)
    && !Stalls(Fetch(s), NextWord(s)) && !ActsEarly(OpField(NextWord(s.(pc := s.pc + 1))))
  }

  lemma TestedWord(s: Arch, r: Reg, base: Reg, off: int)
    requires TestsLoaded(s, r, base, off)
    ensures IsLoad(OpField(Fetch(s))) && Writes(Fetch(s)) == r && !ReadsUnforwarded(NextWord(s), r)
    ensures IsaStep(s) == Arch(SetReg(s.regs, r, s.mem[Index(Wrap(s.regs[base] + 0))]), s.mem, s.pc + 1)
    ensures OnCode(s) && s.pc + 1 < MEM_SIZE && r != 0 && !Stalls(Fetch(s), NextWord(s))
    ensures Ordinary(Fetch(s)) && !TakesJump(s) && !AtHalt(s) && StoreIndex(s) < 0
  {
  }

  lemma BranchesOnZero(s: Arch, r: Reg, off: int)
    requires OnCode(s) && r != 0 && Isa.Decode(Fetch(s)) == InstrB(BEQ, r, 0, off) && !ActsEarly(OpField(NextWord(s)))
    ensures SafeAt(As(s, r, 0)) && Misread(s, r, 0) == s.(pc := Index(s.pc + off))
  {
  }

  /** Two cycles after the load the pipeline is on its way to the branch target, whatever was loaded. */
  lemma ConditionIsFalse(c: Cpu, s: Arch, r: Reg, base: Reg, off: int)
    requires Rel(c, s) && Commits(c) && c.ifid.valid && TestsLoaded(s, r, base, off)
    ensures var c2 := Step(Step(c)); Rel(c2, IsaStep(s).(pc := Index(s.pc + 1 + off))) && Delay(c2) <= 33
  {
    TestedWord(s, r, base, off);
    TestedNext(s, r, base, off);
    hide *;
    IsPair(c, s);
    MissedLoadRuns(c, s);
  }

  lemma TestedNext(s: Arch, r: Reg, base: Reg, off: int)
    requires TestsLoaded(s, r, base, off)
    ensures SafeAt(As(IsaStep(s), r, 0)) && Misread(IsaStep(s), r, 0) == IsaStep(s).(pc := Index(s.pc + 1 + off))
  {
    TestedWord(s, r, base, off);
    hide SafeAt, Misread, IsaStep, As, Isa.Decode, Stalls, ActsEarly, OpField, Ordinary, Writes;
    BranchesOnZero(IsaStep(s), r, off);
  }

  lemma IsPair(c: Cpu, s: Arch)
    requires Rel(c, s) && Commits(c) && c.ifid.valid && OnCode(s) && s.pc + 1 < MEM_SIZE
             && !Stalls(Fetch(s), NextWord(s))
    requires Ordinary(Fetch(s)) && !TakesJump(s) && !AtHalt(s) && StoreIndex(s) < 0
    ensures Pair(c, s)
  {
  }

  // ---- Behind a jump

  /** A jump is done: the pipeline is full again at its target. */
  lemma Refills(c: Cpu, s: Arch)
    requires Rel(c, s) && JumpPending(c.exmem) && !c.halted && c.execStall == 0 && !HaltInMemWb(c) && !HaltInExMem(c)
    requires s.pc + 1 < MEM_SIZE && Latency(c.idex.opcode) == 0
    ensures var c2 := Step(Step(c)); Rel(c2, s) && Commits(c2) && c2.ifid.valid
  {
    StepJump(c, s);
    Redirected(c, s);
    hide Rel, Clock, JumpPending, Latency;
    Refetched(Step(c), s);
  }

  lemma Redirected(c: Cpu, s: Arch)
    requires Rel(c, s) && JumpPending(c.exmem) && !c.halted && c.execStall == 0 && !HaltInMemWb(c) && !HaltInExMem(c)
    requires s.pc + 1 < MEM_SIZE && Latency(c.idex.opcode) == 0
    ensures var c1 := Clock(c);
            && !c1.halted && !c1.trapped && c1.execStall == 0 && !c1.exmem.valid && !c1.idex.valid && c1.ifid.valid
            && c1.pc == s.pc + 1 && !c1.fetchStopped && !HaltInMemWb(c1)
  {
    CancelledExecution(c);
    StallIs(c);
    RedirectIs(c);
    RedirectLeaves(StageId(AfterEx(c)), c.exmem.jumpPc);
    IdKeeps(AfterEx(c));
    hide AfterEx, StageId, Clock, Latency, IdRegister, CompletedRegs, CompletedMem, WriteBack, Redirect;
    StillRuns(c);
  }

  lemma RedirectIs(c: Cpu)
    requires c.execStall == 0 && JumpPending(c.exmem) && !AfterEx(c).trapped
    ensures Clock(c) == Redirect(StageId(AfterEx(c)), c.exmem.jumpPc)
  {
    hide ExRegister, ExRegs, IdRegister, OpField, MemRegister, MemContents, WriteBack, Latency, Redirect, StageId;
  }

  lemma StillRuns(c: Cpu)
    requires !c.halted && !HaltInMemWb(c)
    ensures !AfterEx(c).halted
  {
    hide ExRegister, ExRegs, OperandA, OperandB, MemRegister, MemContents, WriteBack, Latency;
  }

  lemma RedirectLeaves(e: Cpu, target: nat)
    requires target + 1 < MEM_SIZE
    ensures var f := Redirect(e, target);
            && !f.exmem.valid && !f.idex.valid && f.ifid.valid && f.pc == target + 1 && !f.fetchStopped
            && f.halted == e.halted && f.trapped == e.trapped && f.execStall == e.execStall && f.memwb == e.memwb
  {
  }

  lemma Refetched(c: Cpu, s: Arch)
    requires Rel(c, s) && !c.halted && !c.trapped && c.execStall == 0 && !c.exmem.valid && !c.idex.valid && c.ifid.valid
    requires c.pc == s.pc + 1 < MEM_SIZE && !c.fetchStopped && !HaltInMemWb(c)
    ensures Rel(Step(c), s) && Commits(Step(c)) && Step(c).ifid.valid
  {
    StepFetch(c, s);
    CancelledExecution(c);
    LatencyBound(c);
    ClockIs(c);
    DecodedNext(AfterEx(c));
    FetchedNext(StageId(AfterEx(c)));
    FrontEndKeeps(AfterEx(c));
    IdKeeps(AfterEx(c));
    hide StageId, StageIf, Rel, IdRegister, OpField, Defined, WriteBack, MemRegister, MemContents;
  }

  // ---- A compiled `if (g) return 7;`

  /** The machine code of the program and what lies around it: HLT at 6, and at 7 where the branch leads. */
  predicate GuardWords(m: Mem) {
    && Isa.Decode(m[0]) == InstrJ(JMP, 1) && Isa.Decode(m[1]) == InstrI(MOVI, 26, 0, 0x4000)
    && Isa.Decode(m[2]) == InstrI(LW, 2, 26, 0) && Isa.Decode(m[3]) == InstrB(BEQ, 2, 0, 4)
    && Isa.Decode(m[4]) == InstrI(MOVI, 3, 0, 7) && Isa.Decode(m[7]) == InstrJ(HLT, 0) && m[8] == 0
  }

  function AtMain(m: Mem): Arch { Initial(m, 0).(pc := 1) }

  function AtTest(m: Mem): Arch { Arch(Initial(m, 0).regs[26 := 0x4000], m, 2) }

  function AtEnd(m: Mem): Arch { Arch(Initial(m, 0).regs[26 := 0x4000][2 := m[0x4000]], m, 7) }

  lemma GuardSteps(m: Mem)
    requires GuardWords(m)
    ensures var s := Initial(m, 0);
            OpField(m[0]) == JMP && SafeAt(s) && TakesJump(s) && !AtHalt(s) && !Stalls(m[0], m[1])
                && IsaStep(s) == AtMain(m)
    ensures var s := AtMain(m);
            && OpField(m[1]) == MOVI && SafeAt(s) && Ordinary(m[1]) && !TakesJump(s) && !AtHalt(s)
                && !Stalls(m[1], m[2]) && StoreIndex(s) < 0
            && IsaStep(s) == AtTest(m)
  {
    hide Isa.Decode, LoadValue, StoreValue;
    FieldsOfDecoded(m[0]);
    FieldsOfDecoded(m[1]);
    FieldsOfDecoded(m[2]);
  }

  /** The opcode that decoding shows is the opcode field. */
  lemma FieldsOfDecoded(w: Word)
    ensures match Isa.Decode(w)
            case InstrR(op, _, _, _, _) => op == OpField(w)
            case InstrI(op, rd, _, _) => op == OpField(w) && rd == Field25(w)
            case InstrS(op, _, _, _) => op == OpField(w)
            case InstrB(op, _, rs2, off) => op == OpField(w) && rs2 == Field20(w)
                && (0 <= off < 0x800 ==> Field15(w) == 0)
            case InstrJ(op, _) => op == OpField(w)
            case InstrU(op, _, _) => op == OpField(w)
            case Undefined(op) => op == OpField(w)
  {
    LowField(w);
  }

  lemma LowField(w: Word)
    ensures 0 <= Sext16(w) < 0x800 ==> Field15(w) == 0
  {
    assert w / 0x800 == w / 0x1_0000 * 32 + w % 0x1_0000 / 0x800;
  }

  lemma GuardTests(m: Mem)
    requires GuardWords(m)
    ensures TestsLoaded(AtTest(m), 2, 26, 4) && IsaStep(AtTest(m)).(pc := Index(2 + 1 + 4)) == AtEnd(m)
  {
    hide Isa.Decode, StoreValue;
    FieldsOfDecoded(m[2]);
    FieldsOfDecoded(m[3]);
    FieldsOfDecoded(m[4]);
  }

  lemma GuardEnds(m: Mem)
    requires GuardWords(m)
    ensures SafeAt(AtEnd(m)) && AtHalt(AtEnd(m)) && AtEnd(m).regs[1] == 0
  {
    hide Isa.Decode;
    FieldsOfDecoded(m[7]);
    ZeroDecodes();
  }

  lemma ZeroDecodes()
    ensures Isa.Decode(0) == InstrR(ADD, 0, 0, 0, 0) && OpField(0) == ADD
  {
  }

  /** The jump to main is executed, and main's first two words are in the pipeline. */
  lemma GuardEnters(m: Mem)
    requires GuardWords(m)
    ensures var c := Cycles(Reset(m, 0), 5); Rel(c, AtMain(m)) && Commits(c) && c.ifid.valid
  {
    GuardSteps(m);
    Starts(m, 0);
    var s, c2 := Initial(m, 0), Cycles(Reset(m, 0), 2);
    JumpsNext(m, c2);
    FourCycles(Reset(m, 0));
    assert Cycles(Reset(m, 0), 5) == Step(Cycles(Reset(m, 0), 4));
    hide Rel, Commits, Step, SafeAt, IsaStep, Cycles, Reset, Isa.Decode, GuardWords, Initial, Latency;
    StepRefines(c2, s);
    Refills(Step(c2), AtMain(m));
  }

  lemma JumpsNext(m: Mem, c: Cpu)
    requires c == Decoded(m, 0) && Rel(c, Initial(m, 0)) && Commits(c) && OpField(m[0]) == JMP && OpField(m[1]) == MOVI
    requires TakesJump(Initial(m, 0)) && !AtHalt(Initial(m, 0)) && !Stalls(m[0], m[1])
    ensures var c3 := Step(c);
            && JumpPending(c3.exmem) && !c3.halted && c3.execStall == 0 && !HaltInMemWb(c3) && !HaltInExMem(c3)
            && Latency(c3.idex.opcode) == 0
  {
    CommitBehind(c, Initial(m, 0));
    ClockFromEx(c);
    OpcodeHeld(m[0], c.rf, 1);
    NoLatency(c);
    FrontEndKeeps(AfterEx(c));
    IdDecodes(AfterEx(c));
    hide AfterEx, Clock, StageId, StageIf, Stall, IdRegister, CompletedRegs, CompletedMem, TakesJump, Stalls, IsaStep,
      Isa.Decode, Rel;
  }

  lemma IdDecodes(e: Cpu)
    requires !Stall(e) && e.ifid.valid && Defined(OpField(e.ifid.instruction))
    ensures StageId(e).idex.opcode == OpField(e.ifid.instruction)
  {
    OpcodeHeld(e.ifid.instruction, e.rf, e.ifid.pcPlus1);
    hide IdRegister, Stall, OpField;
  }

  lemma GuardReachesTest(m: Mem)
    requires GuardWords(m)
    ensures var c := Cycles(Reset(m, 0), 6); Rel(c, AtTest(m)) && Commits(c) && c.ifid.valid
  {
    GuardSteps(m);
    GuardEnters(m);
    var c := Cycles(Reset(m, 0), 5);
    assert Cycles(Reset(m, 0), 6) == Step(c);
    hide Rel, Step, SafeAt, IsaStep, Cycles, Reset, Isa.Decode, GuardWords, Initial, TakesJump, AtHalt, StoreIndex,
      Stalls, Ordinary;
    StepRefines(c, AtMain(m));
    PairSteps(c, AtMain(m));
    MoviIsQuick(c, AtMain(m));
  }

  /** The pipeline skips `return 7;` and halts with 0 in R1, whatever g is. */
  lemma GuardSkips(m: Mem) returns (n: nat)
    requires GuardWords(m)
    ensures Cycles(Reset(m, 0), n).halted && Cycles(Reset(m, 0), n).rf[1] == 0
  {
    GuardReachesTest(m);
    GuardTests(m);
    GuardEnds(m);
    var c := Cycles(Reset(m, 0), 6);
    assert Cycles(Reset(m, 0), 8) == Step(Cycles(Reset(m, 0), 7)) && Cycles(Reset(m, 0), 7) == Step(c);
    hide Rel, Commits, Step, SafeAt, AtHalt, IsaStep, Cycles, Reset, Isa.Decode, GuardWords, Initial, TestsLoaded,
      Delay;
    ConditionIsFalse(c, AtTest(m), 2, 26, 4);
    n := HaltsAt(m, 0, 8, AtEnd(m));
  }
}
