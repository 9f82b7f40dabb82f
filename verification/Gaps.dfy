/** Programs on which the pipeline and the sequential machine part, one for each kind of gap in the hazard logic. */
module Gaps {
  import opened Words
  import opened Isa
  import opened Memory
  import opened Registers
  import opened Pipeline
  import opened Sequential
  import opened Refinement
  import opened Progress
  import opened Misreads
  import Alu
  import Control

  const HLT_WORD: Word := 0xC800_0000

  // ---- From a related state to the halt

  /** A pipeline state related to s, where HLT stands k instructions further on, halts with what s leads to. */
  lemma HaltsWith(c: Cpu, s: Arch, k: nat, before: Cpu, j: nat) returns (n: nat)
    requires Rel(c, s) && SafeRun(s) && AtHalt(IsaRun(s, k)) && Delay(c) <= 33 && c == Cycles(before, j)
    ensures var r := Cycles(before, n); r.halted && r.rf == IsaRun(s, k).regs && r.mem == IsaRun(s, k).mem
  {
    hide *;
    var i := HaltsWithin(c, s, k);
    Refines(c, s, i);
    HaltUniqueAt(Cycles(c, i), s, k, Retired(c, i));
    CyclesAdd(before, j, i);
    n := j + i;
  }

  lemma HaltUniqueAt(c: Cpu, s: Arch, k: nat, i: nat)
    requires Rel(c, IsaRun(s, i)) && c.halted && AtHalt(IsaRun(s, k))
    ensures c.rf == IsaRun(s, k).regs && c.mem == IsaRun(s, k).mem
  {
    hide IsaRun, AtHalt;
    HaltUnique(s, k, i);
  }

  /** A run that reaches HLT after one step over safe states is safe. */
  lemma SafeUntilHalt(s: Arch)
    requires SafeAt(s) && SafeAt(IsaStep(s)) && AtHalt(IsaStep(s))
    ensures SafeRun(s) && IsaRun(s, 1) == IsaStep(s)
  {
    hide SafeAt, IsaStep, AtHalt;
    assert IsaRun(s, 0) == s && IsaRun(s, 1) == IsaStep(s);
    forall k: nat
      ensures SafeAt(IsaRun(s, k))
    {
      if k > 1 {
        IsaRunAdd(s, 1, k - 1);
        HaltIsFinal(IsaStep(s), k - 1);
      }
    }
  }

  lemma SafeAtHalt(s: Arch)
    requires SafeAt(s) && AtHalt(s)
    ensures SafeRun(s)
  {
    hide SafeAt, AtHalt;
    forall k: nat
      ensures SafeAt(IsaRun(s, k))
    {
      HaltIsFinal(s, k);
    }
  }

  // ---- The first two cycles

  function Fetched(m: Mem, a: nat): Cpu
    requires a + 2 < MEM_SIZE
  {
    Reset(m, a).(ifid := IfId(m[a], a + 1, true), pc := a + 1)
  }

  function Decoded(m: Mem, a: nat): Cpu
    requires a + 2 < MEM_SIZE
  {
    Fetched(m, a).(idex := IdRegister(m[a], Reset(m, a).rf, a + 1), ifid := IfId(m[a + 1], a + 2, true), pc := a + 2)
  }

  lemma Starts(m: Mem, a: nat)
    requires a + 2 < MEM_SIZE && Defined(OpField(m[a]))
    ensures var c, s := Cycles(Reset(m, a), 2), Initial(m, a); c == Decoded(m, a) && Rel(c, s) && Commits(c)
  {
    hide Isa.Decode, Alu.Execute, StoreValue, LoadValue, Redirect, IdRegister, OpField;
    var c0 := Reset(m, a);
    assert Step(c0) == Fetched(m, a) && Step(Fetched(m, a)) == Decoded(m, a);
    assert Cycles(c0, 0) == c0 && Cycles(c0, 1) == Fetched(m, a);
    ValidRegister(m[a], c0.rf, a + 1);
  }

  lemma ValidRegister(w: Word, rf: Regs, pcPlus1: nat)
    ensures IdRegister(w, rf, pcPlus1).valid
  {
  }

  /** The words at a and a + 1 are the first two of a run. */
  lemma StartsPair(m: Mem, a: nat)
    requires a + 2 < MEM_SIZE && Defined(OpField(m[a])) && Ordinary(m[a]) && !Stalls(m[a], m[a + 1])
    requires var s := Initial(m, a); !TakesJump(s) && !AtHalt(s) && StoreIndex(s) != a + 1 && StoreIndex(s) != a + 2
    ensures Pair(Cycles(Reset(m, a), 2), Initial(m, a))
  {
    Starts(m, a);
    hide Cycles, Reset, TakesJump, StoreIndex, Stalls, Ordinary, Rel, IdRegister, Defined, AtHalt;
  }

  /** Some cycles after start-up the pipeline stands for s, and s is at HLT: it halts as s has it. */
  lemma HaltsAt(m: Mem, a: nat, j: nat, s: Arch) returns (n: nat)
    requires Rel(Cycles(Reset(m, a), j), s) && Delay(Cycles(Reset(m, a), j)) <= 33 && SafeAt(s) && AtHalt(s)
    ensures var c := Cycles(Reset(m, a), n); c.halted && c.rf == s.regs && c.mem == s.mem
  {
    hide *;
    SafeAtHalt(s);
    HaltIsFinal(s, 0);
    n := HaltsWith(Cycles(Reset(m, a), j), s, 0, Reset(m, a), j);
  }

  lemma FourCycles(c: Cpu)
    ensures Cycles(c, 4) == Step(Step(Cycles(c, 2))) && Cycles(c, 3) == Step(Cycles(c, 2))
  {
    hide Step;
    assert Cycles(c, 4) == Step(Cycles(c, 3));
  }

  // ---- A load and a branch on the loaded register

  /** 0: LW R1, 100(R0); 1: BEQ R1, R0, 3; 2: HLT; 4: HLT; and a word at 100 that is not 0. */
  predicate LoadThenBranch(m: Mem) {
    && m[0] == 0x7020_0064 && m[1] == 0x9020_0003 && m[2] == HLT_WORD && m[3] == NOP_WORD
    && m[4] == 0x5C40_0001 && m[5] == HLT_WORD && m[6] == NOP_WORD && m[100] != 0
  }
  lemma WordsDecode()
    ensures Isa.Decode(0x7020_0064) == InstrI(LW, 1, 0, 100) && Isa.Decode(0x9020_0003) == InstrB(BEQ, 1, 0, 3)
    ensures Isa.Decode(0x5C40_0001) == InstrI(MOVI, 2, 0, 1) && Isa.Decode(HLT_WORD) == InstrJ(HLT, 0)
  {
  }

  lemma MoreWordsDecode()
    ensures Isa.Decode(0x8400_0064) == InstrS(SW, 0, 0, 100) && Isa.Decode(0xA800_0002) == InstrJ(JMP, 2)
    ensures Isa.Decode(0xBC00_0000) == InstrR(PUSH, 0, 0, 0, 0) && Isa.Decode(HLT_WORD) == InstrJ(HLT, 0)
    ensures Isa.Decode(NOP_WORD) == InstrJ(NOP, 0)
  {
  }

  /** The sequential machine loads, does not branch, and stops at word 2 with R2 untouched. */
  lemma BranchNotTaken(m: Mem)
    requires LoadThenBranch(m)
    ensures var s := IsaRun(Initial(m, 0), 2); AtHalt(s) && s.regs[2] == 0
  {
    WordsDecode();
    hide Isa.Decode, Alu.Execute, StoreValue;
    var s0 := Initial(m, 0);
    var s1 := IsaStep(s0);
    assert s1 == Arch(s0.regs[1 := m[100]], m, 1);
    assert IsaRun(s0, 0) == s0 && IsaRun(s0, 1) == s1;
  }

  /** From word 4 on both machines agree: R2 becomes 1. */
  lemma TargetRuns(m: Mem, regs: Regs)
    requires LoadThenBranch(m)
    ensures var s := Arch(regs, m, 4); SafeRun(s) && AtHalt(IsaRun(s, 1)) && IsaRun(s, 1).regs[2] == 1
  {
    WordsDecode();
    var s := Arch(regs, m, 4);
    MoveOne(s);
    assert SafeAt(s) && SafeAt(IsaStep(s)) by { hide Isa.Decode; }
    SafeUntilHalt(s);
  }

  lemma MoveOne(s: Arch)
    requires OnCode(s) && Isa.Decode(Fetch(s)) == InstrI(MOVI, 2, 0, 1)
    ensures IsaStep(s) == s.(regs := s.regs[2 := 1], pc := s.pc + 1)
  {
    MovedValue(s.regs[0]);
    hide Isa.Decode, Alu.Execute, LoadValue, StoreValue;
  }

  lemma MovedValue(a: Word)
    ensures Alu.Execute(MOVI, a, Wrap(1)) == 1
  {
  }

  function Loaded(m: Mem): Arch { Arch(Initial(m, 0).regs[1 := m[100]], m, 1) }

  lemma LoadStarts(m: Mem)
    requires LoadThenBranch(m)
    ensures Pair(Cycles(Reset(m, 0), 2), Initial(m, 0)) && IsaStep(Initial(m, 0)) == Loaded(m)
  {
    WordsDecode();
    hide Isa.Decode, Alu.Execute, StoreValue, Cycles, Reset, Rel;
    StartsPair(m, 0);
  }

  lemma BranchMisread(m: Mem)
    requires LoadThenBranch(m)
    ensures SafeAt(As(Loaded(m), 1, 0)) && Misread(Loaded(m), 1, 0) == Loaded(m).(pc := 4)
  {
    WordsDecode();
    hide Isa.Decode, Alu.Execute, StoreValue;
  }

  lemma LoadWord1(m: Mem)
    requires LoadThenBranch(m)
    ensures var s := Initial(m, 0);
            Writes(Fetch(s)) == 1 && IsLoad(OpField(Fetch(s))) && !ReadsUnforwarded(NextWord(s), 1)
  {
    WordsDecode();
    hide Isa.Decode;
  }

  /** The branch takes R1 to hold 0 and jumps. */
  lemma BranchTaken(m: Mem)
    requires LoadThenBranch(m)
    ensures var c, s := Cycles(Reset(m, 0), 4), Arch(Initial(m, 0).regs[1 := m[100]], m, 4); Rel(c, s) && Delay(c) <= 33
  {
    LoadStarts(m);
    BranchMisread(m);
    LoadWord1(m);
    hide Isa.Decode, IsaStep, SafeAt, Pair, Misread, Rel, Delay, Cycles, Reset, Step, Initial, LoadThenBranch, Writes,
      ReadsUnforwarded;
    MissedLoadRuns(Cycles(Reset(m, 0), 2), Initial(m, 0));
    FourCycles(Reset(m, 0));
  }

  /** The pipeline halts with R2 = 1 where the program, executed in order, halts with R2 = 0. */
  lemma LoadThenBranchParts(m: Mem) returns (n: nat)
    requires LoadThenBranch(m)
    ensures Cycles(Reset(m, 0), n).halted && Cycles(Reset(m, 0), n).rf[2] == 1
    ensures AtHalt(IsaRun(Initial(m, 0), 2)) && IsaRun(Initial(m, 0), 2).regs[2] == 0
  {
    hide *;
    BranchNotTaken(m);
    BranchTaken(m);
    var regs: Regs := LoadedRegs(m);
    TargetRuns(m, regs);
    n := HaltsWith(Cycles(Reset(m, 0), 4), Arch(regs, m, 4), 1, Reset(m, 0), 4);
  }

  function LoadedRegs(m: Mem): (r: Regs)
    ensures r == Initial(m, 0).regs[1 := m[100]]
  {
    Initial(m, 0).regs[1 := m[100]]
  }

  // ---- POP and a read of the popped register

  /** 0: POP R1; 1: ADDI R2, R1, 0; 2: HLT; and a word on the stack that is not 0. */
  predicate PopThenRead(m: Mem) {
    m[0] == 0xC020_0000 && m[1] == 0x0441_0000 && m[2] == HLT_WORD && m[3] == NOP_WORD && m[0x1_0000] != 0
  }

  lemma PopDecodes()
    ensures Isa.Decode(0xC020_0000) == InstrR(POP, 1, 0, 0, 0) && Isa.Decode(0x0441_0000) == InstrI(ADDI, 2, 1, 0)
    ensures Isa.Decode(HLT_WORD) == InstrJ(HLT, 0)
  {
  }

  function Popped(m: Mem): Arch { Arch(Initial(m, 0).regs[SP_REG := 0x1_0001][1 := m[0x1_0000]], m, 1) }

  lemma PopStarts(m: Mem)
    requires PopThenRead(m)
    ensures var s := Initial(m, 0);
            && Pair(Cycles(Reset(m, 0), 2), s) && IsaStep(s) == Popped(m)
            && Writes(Fetch(s)) == 1 && OpField(Fetch(s)) == POP && !ReadsUnforwarded(NextWord(s), 1)
  {
    PopDecodes();
    hide Isa.Decode, Alu.Execute, StoreValue, Cycles, Reset, Rel;
    StartsPair(m, 0);
  }

  lemma PopMisread(m: Mem)
    requires PopThenRead(m)
    ensures var p := Popped(m);
            && SafeAt(As(p, 1, 0)) && Misread(p, 1, 0) == Arch(p.regs[2 := 0], m, 2)
            && IsaStep(p) == Arch(p.regs[2 := m[0x1_0000]], m, 2)
  {
    PopDecodes();
    hide Isa.Decode, StoreValue, Initial;
  }

  lemma SafeAtTwo(m: Mem, regs: Regs)
    requires m[2] == HLT_WORD && m[3] == NOP_WORD
    ensures SafeAt(Arch(regs, m, 2)) && AtHalt(Arch(regs, m, 2))
  {
    MoreWordsDecode();
    hide Isa.Decode;
  }

  /** The pipeline halts with R2 = 0, the program leaves the popped word in R2. */
  lemma PopThenReadParts(m: Mem) returns (n: nat)
    requires PopThenRead(m)
    ensures Cycles(Reset(m, 0), n).halted && Cycles(Reset(m, 0), n).rf[2] == 0
    ensures AtHalt(IsaRun(Initial(m, 0), 2)) && IsaRun(Initial(m, 0), 2).regs[2] == m[0x1_0000] != 0
  {
    PopStarts(m);
    PopMisread(m);
    hide Isa.Decode, IsaStep, SafeAt, AtHalt, Pair, Misread, Rel, Delay, Cycles, Reset, Step, Initial, Writes,
      ReadsUnforwarded;
    var s, p := Initial(m, 0), Popped(m);
    SafeAtTwo(m, p.regs[2 := 0]);
    SafeAtTwo(m, p.regs[2 := m[0x1_0000]]);
    assert IsaRun(s, 0) == s && IsaRun(s, 1) == p && IsaRun(s, 2) == IsaStep(p);
    MissedLoadRuns(Cycles(Reset(m, 0), 2), s);
    FourCycles(Reset(m, 0));
    n := HaltsAt(m, 0, 4, Misread(p, 1, 0));
  }

  // ---- R30 written and used by PUSH

  /** 0: MOVI R30, 200; 1: PUSH R0; 2: HLT; and a word at 199 that is not 0. */
  predicate PushPending(m: Mem) {
    m[0] == 0x5FC0_00C8 && m[1] == 0xBC00_0000 && m[2] == HLT_WORD && m[3] == NOP_WORD && m[199] != 0
  }

  lemma PushDecodes()
    ensures Isa.Decode(0x5FC0_00C8) == InstrI(MOVI, 30, 0, 200) && Isa.Decode(0xBC00_0000) == InstrR(PUSH, 0, 0, 0, 0)
    ensures Isa.Decode(HLT_WORD) == InstrJ(HLT, 0)
  {
  }

  function Pointed(m: Mem): Arch { Arch(Initial(m, 0).regs[SP_REG := 200], m, 1) }

  lemma PushStarts(m: Mem)
    requires PushPending(m)
    ensures var s := Initial(m, 0);
            && Pair(Cycles(Reset(m, 0), 2), s) && IsaStep(s) == Pointed(m) && s.regs[SP_REG] == 0x1_0000
            && Writes(Fetch(s)) == SP_REG && OpField(Fetch(s)) == MOVI && ReadsUnforwarded(NextWord(s), SP_REG)
                && !Reads(NextWord(s), SP_REG)
  {
    PushDecodes();
    hide Isa.Decode, StoreValue, LoadValue, Cycles, Reset, Rel;
    StartsPair(m, 0);
  }

  lemma PushMisread(m: Mem)
    requires PushPending(m)
    ensures var p := Pointed(m);
            && SafeAt(As(p, SP_REG, 0x1_0000)) && Misread(p, SP_REG, 0x1_0000) == Arch(p.regs, m[0xFFFF := 0], 2)
            && IsaStep(p) == Arch(p.regs[SP_REG := 199], m[199 := 0], 2)
  {
    PushDecodes();
    hide Isa.Decode, LoadValue, Alu.Execute;
  }

  /** MOVI takes one cycle in EX. */
  lemma MoviIsQuick(c: Cpu, s: Arch)
    requires Pair(c, s) && OpField(Fetch(s)) == MOVI
    ensures Step(c).execStall == 0
  {
    hide Clock, IdRegister, CompletedRegs, CompletedMem, TakesJump, StoreIndex, Stalls, Ready, Cancellable;
    assert c.idex == IdRegister(Fetch(s), c.rf, s.pc + 1);
    OpcodeHeld(Fetch(s), c.rf, s.pc + 1);
    NoLatency(c);
  }

  /** The pipeline pushes to the old stack, and the new R30 undoes its decrement; the program clears word 199. */
  lemma PushPendingParts(m: Mem) returns (n: nat)
    requires PushPending(m)
    ensures Cycles(Reset(m, 0), n).halted && Cycles(Reset(m, 0), n).rf[SP_REG] == 200
            && Cycles(Reset(m, 0), n).mem[199] != 0
    ensures AtHalt(IsaRun(Initial(m, 0), 2)) && IsaRun(Initial(m, 0), 2).regs[SP_REG] == 199
            && IsaRun(Initial(m, 0), 2).mem[199] == 0
  {
    PushStarts(m);
    PushMisread(m);
    hide Isa.Decode, IsaStep, SafeAt, AtHalt, Pair, Misread, Rel, Delay, Cycles, Reset, Step, Initial, Writes, Reads,
      ReadsUnforwarded;
    var s, p, c2 := Initial(m, 0), Pointed(m), Cycles(Reset(m, 0), 2);
    SafeAtTwo(m[0xFFFF := 0], p.regs);
    SafeAtTwo(m[199 := 0], p.regs[SP_REG := 199]);
    assert IsaRun(s, 0) == s && IsaRun(s, 1) == p && IsaRun(s, 2) == IsaStep(p);
    StaleReadRuns(c2, s);
    MoviIsQuick(c2, s);
    FourCycles(Reset(m, 0));
    OneCycle(Step(c2));
    n := HaltsAt(m, 0, 4, Misread(p, SP_REG, 0x1_0000));
  }

  lemma OneCycle(c: Cpu)
    ensures Cycles(c, 1) == Step(c)
  {
    hide Step;
    assert Cycles(c, 0) == c;
  }

  // ---- R31 written and used by RET

  /** From 8 on: MOVI R31, 4; RET. 0: HLT. 4: MOVI R2, 1; HLT. */
  predicate ReturnPending(m: Mem) {
    && m[8] == 0x5FE0_0004 && m[9] == 0xB800_0000 && m[10] == NOP_WORD
    && m[0] == HLT_WORD && m[1] == NOP_WORD && m[4] == 0x5C40_0001 && m[5] == HLT_WORD
  }

  lemma ReturnDecodes()
    ensures Isa.Decode(0x5FE0_0004) == InstrI(MOVI, 31, 0, 4) && Isa.Decode(0xB800_0000) == InstrJ(RET, 0)
    ensures Isa.Decode(HLT_WORD) == InstrJ(HLT, 0) && Isa.Decode(0x5C40_0001) == InstrI(MOVI, 2, 0, 1)
  {
  }

  function Linked(m: Mem): Arch { Arch(Initial(m, 8).regs[LR_REG := 4], m, 9) }

  lemma ReturnStarts(m: Mem)
    requires ReturnPending(m)
    ensures var s := Initial(m, 8);
            && Pair(Cycles(Reset(m, 8), 2), s) && IsaStep(s) == Linked(m) && s.regs[LR_REG] == 0 && s.regs[2] == 0
            && Writes(Fetch(s)) == LR_REG && OpField(Fetch(s)) == MOVI && ReadsUnforwarded(NextWord(s), LR_REG)
                && !Reads(NextWord(s), LR_REG)
  {
    ReturnDecodes();
    hide Isa.Decode, StoreValue, LoadValue, Cycles, Reset, Rel;
    StartsPair(m, 8);
  }

  lemma ReturnMisread(m: Mem)
    requires ReturnPending(m)
    ensures var p := Linked(m);
            SafeAt(As(p, LR_REG, 0)) && Misread(p, LR_REG, 0) == p.(pc := 0) && IsaStep(p) == p.(pc := 4)
  {
    ReturnDecodes();
    hide Isa.Decode, LoadValue, StoreValue, Alu.Execute;
  }

  lemma SafeAtZero(m: Mem, regs: Regs)
    requires m[0] == HLT_WORD && m[1] == NOP_WORD
    ensures SafeAt(Arch(regs, m, 0)) && AtHalt(Arch(regs, m, 0))
  {
    MoreWordsDecode();
    hide Isa.Decode;
  }

  lemma ReturnTarget(m: Mem)
    requires ReturnPending(m)
    ensures var s := IsaStep(Linked(m).(pc := 4)); s == Arch(Linked(m).regs[2 := 1], m, 5) && AtHalt(s)
  {
    ReturnDecodes();
    hide Isa.Decode;
    MoveOne(Linked(m).(pc := 4));
  }

  /** The pipeline returns to 0 and halts there with R2 = 0; the program returns to 4 and leaves 1 in R2. */
  lemma ReturnPendingParts(m: Mem) returns (n: nat)
    requires ReturnPending(m)
    ensures Cycles(Reset(m, 8), n).halted && Cycles(Reset(m, 8), n).rf[2] == 0
    ensures AtHalt(IsaRun(Initial(m, 8), 3)) && IsaRun(Initial(m, 8), 3).regs[2] == 1
  {
    ReturnStarts(m);
    ReturnMisread(m);
    ReturnTarget(m);
    hide Isa.Decode, IsaStep, SafeAt, AtHalt, Pair, Misread, Rel, Delay, Cycles, Reset, Step, Initial, Writes, Reads,
      ReadsUnforwarded;
    var s, p, c2 := Initial(m, 8), Linked(m), Cycles(Reset(m, 8), 2);
    SafeAtZero(m, p.regs);
    assert IsaRun(s, 0) == s && IsaRun(s, 1) == p && IsaRun(s, 2) == IsaStep(p);
    StaleReadRuns(c2, s);
    MoviIsQuick(c2, s);
    FourCycles(Reset(m, 8));
    OneCycle(Step(c2));
    n := HaltsAt(m, 8, 4, Misread(p, LR_REG, 0));
  }

  // ---- A shift by a constant with a register in the unused field

  /** 0: MOVI R1, 1; 1: SHLI R2, R1, 3 with R1 in the field of the second operand; 2: HLT. */
  predicate ShiftField(m: Mem) { m[0] == 0x5C20_0001 && m[1] == 0x4C41_08C0 && m[2] == HLT_WORD && m[3] == NOP_WORD }

  lemma ShiftDecodes()
    ensures Isa.Decode(0x5C20_0001) == InstrI(MOVI, 1, 0, 1) && Isa.Decode(0x4C41_08C0) == InstrR(SHLI, 2, 1, 1, 3)
    ensures OpField(0x4C41_08C0) == SHLI && Field25(0x4C41_08C0) == 2 && Field20(0x4C41_08C0) == 1
            && Field15(0x4C41_08C0) == 1
    ensures Alu.Execute(SHLI, 1, 1) == 2 && Alu.Execute(SHLI, 1, 3) == 8
  {
  }

  function Shifting(m: Mem): Arch { Arch(Initial(m, 0).regs[1 := 1], m, 1) }

  lemma ShiftStarts(m: Mem)
    requires ShiftField(m)
    ensures var s := Initial(m, 0);
            && Pair(Cycles(Reset(m, 0), 2), s) && IsaStep(s) == Shifting(m) && SafeAt(s)
            && Writes(Fetch(s)) == 1 && OpField(Fetch(s)) == MOVI
  {
    ShiftDecodes();
    hide Isa.Decode, StoreValue, LoadValue, Cycles, Reset, Rel;
    StartsPair(m, 0);
  }

  lemma ShiftFollows(m: Mem)
    requires ShiftField(m)
    ensures var p := Shifting(m);
            IsShiftImmediate(OpField(Fetch(p))) && MayFollow(Fetch(p), NextWord(p))
                && IsaStep(p) == Arch(p.regs[2 := 8], m, 2)
  {
    ShiftDecodes();
    MoreWordsDecode();
    hide Isa.Decode, Alu.Execute;
  }

  /** The pipeline shifts by R1 and halts with R2 = 2; the program shifts by 3 and leaves 8. */
  lemma ShiftFieldParts(m: Mem) returns (n: nat)
    requires ShiftField(m)
    ensures Cycles(Reset(m, 0), n).halted && Cycles(Reset(m, 0), n).rf[2] == 2
    ensures AtHalt(IsaRun(Initial(m, 0), 2)) && IsaRun(Initial(m, 0), 2).regs[2] == 8
  {
    ShiftStarts(m);
    ShiftFollows(m);
    ShiftDecodes();
    var s, p, c2 := Initial(m, 0), Shifting(m), Cycles(Reset(m, 0), 2);
    PairSteps(c2, s);
    WriteExecuted(c2, s, 1);
    MoviIsQuick(c2, s);
    hide Isa.Decode, Alu.Execute, IsaStep, SafeAt, AtHalt, Pair, Delay, Cycles, Reset, Step, Initial, Writes,
      MayFollow, AfterEx, CompletedRegs, CompletedMem, IdRegister, ExRegs;
    StepRefines(c2, s);
    SafeAtTwo(m, p.regs[2 := 2]);
    SafeAtTwo(m, p.regs[2 := 8]);
    assert IsaRun(s, 0) == s && IsaRun(s, 1) == p && IsaRun(s, 2) == IsaStep(p);
    FourCycles(Reset(m, 0));
    ForwardedShiftRuns(Step(c2), p);
    n := HaltsAt(m, 0, 4, Arch(p.regs[2 := 2], m, 2));
  }

  // ---- A store into the next word

  /** 0: SW R0, 1(R0); 1: MOVI R1, 1; 2: HLT. */
  predicate StoreAhead(m: Mem) { m[0] == 0x8400_0001 && m[1] == 0x5C20_0001 && m[2] == HLT_WORD && m[3] == NOP_WORD }

  lemma StoreDecodes()
    ensures Isa.Decode(0x8400_0001) == InstrS(SW, 0, 0, 1) && Isa.Decode(0x5C20_0001) == InstrI(MOVI, 1, 0, 1)
    ensures Isa.Decode(0) == InstrR(ADD, 0, 0, 0, 0)
  {
  }

  function Overwritten(m: Mem): Arch { Arch(Initial(m, 0).regs, m[1 := 0], 1) }

  lemma StoreStarts(m: Mem)
    requires StoreAhead(m)
    ensures var s := Initial(m, 0);
              StoresAhead(Cycles(Reset(m, 0), 2), s) && IsaStep(s) == Overwritten(m) && s.regs[1] == 0
  {
    StoreDecodes();
    Starts(m, 0);
    hide Isa.Decode, LoadValue, Cycles, Reset, Rel, IdRegister;
  }

  lemma StoreFollows(m: Mem)
    requires StoreAhead(m)
    ensures var p := Overwritten(m);
            && IsaStep(p) == p.(pc := 2)
            && SafeAt(p.(mem := m)) && IsaStep(p.(mem := m)) == Arch(p.regs[1 := 1], m, 2)
            && OpField(m[1]) == MOVI
  {
    StoreDecodes();
    MoreWordsDecode();
    hide Isa.Decode, LoadValue, StoreValue;
  }

  /** The pipeline executes the word that was there and halts with R1 = 1; the program has just cleared it. */
  lemma StoreAheadParts(m: Mem) returns (n: nat)
    requires StoreAhead(m)
    ensures Cycles(Reset(m, 0), n).halted && Cycles(Reset(m, 0), n).rf[1] == 1
    ensures AtHalt(IsaRun(Initial(m, 0), 2)) && IsaRun(Initial(m, 0), 2).regs[1] == 0
  {
    StoreStarts(m);
    StoreFollows(m);
    var s, p, c2 := Initial(m, 0), Overwritten(m), Cycles(Reset(m, 0), 2);
    hide Isa.Decode, IsaStep, SafeAt, AtHalt, StoresAhead, Delay, Rel, Cycles, Reset, Step, Initial;
    SafeAtTwo(m[1 := 0], p.regs);
    SafeAtTwo(m[1 := 0], p.regs[1 := 1]);
    assert IsaRun(s, 0) == s && IsaRun(s, 1) == p && IsaRun(s, 2) == IsaStep(p);
    FourCycles(Reset(m, 0));
    StoreUnseenRuns(c2, s);
    n := HaltsAt(m, 0, 4, Arch(p.regs[1 := 1], m[1 := 0], 2));
  }

  // ---- A store behind HLT

  /** 0: HLT; 1: SW R0, 100(R0); and a word at 100 that is not 0. */
  predicate StoreBehindHalt(m: Mem) { m[0] == HLT_WORD && m[1] == 0x8400_0064 && m[100] != 0 }

  function HaltDecoded(m: Mem): Cpu {
    Reset(m, 0).(idex := IdEx(HLT, Control.IDLE.(halt := true), 0, 0, 0, 0, 0, 0, 0, 1, true),
        ifid := IfId(m[1], 2, true), pc := 2)
  }

  function HaltExecuted(m: Mem): Cpu {
    HaltDecoded(m).(exmem := ExMem(Control.IDLE.(halt := true), 0, 0, 0, 0, 0, false, true),
                    idex := IdEx(SW, Control.IDLE.(memWrite := true), 0, 0, 0, 0, 0, 0, 100, 2, true),
                    ifid := IfId(m[1], 2, false), fetchStopped := true)
  }

  lemma HaltExecutes(m: Mem)
    requires StoreBehindHalt(m)
    ensures Cycles(Reset(m, 0), 3) == HaltExecuted(m)
  {
    MoreWordsDecode();
    hide Isa.Decode, Alu.Execute, StoreValue;
    var c0 := Reset(m, 0);
    var c1 := c0.(ifid := IfId(m[0], 1, true), pc := 1);
    assert Step(c0) == c1 && Step(c1) == HaltDecoded(m) && Step(HaltDecoded(m)) == HaltExecuted(m);
    assert Cycles(c0, 0) == c0 && Cycles(c0, 1) == c1 && Cycles(c0, 2) == HaltDecoded(m);
  }

  /** EX works on the store while MEM hands HLT on. */
  lemma StoreBehindHaltCycle(c: Cpu)
    requires c.exmem == ExMem(Control.IDLE.(halt := true), 0, 0, 0, 0, 0, false, true) && c.memwb == EMPTY_MEMWB
    requires c.idex == IdEx(SW, Control.IDLE.(memWrite := true), 0, 0, 0, 0, 0, 0, 100, 2, true)
    requires c.fetchStopped && !c.ifid.valid && c.execStall == 0 && !c.halted && !c.trapped
    ensures var r := Clock(c);
            && r.memwb == MemWb(Control.IDLE.(halt := true), 0, 0, 0, true) && r.mem == c.mem && !r.halted && !r.trapped
            && r.exmem == ExMem(Control.IDLE.(memWrite := true), 0, 0, 0, 100, 0, false, true) && r.execStall == 0
            && !r.idex.valid
  {
    hide Alu.Execute, LoadValue, StoreValue, IdRegister, OpField, Isa.Decode, Control.Decode, SetReg, EvalBranch,
      Redirect;
    var c3 := AfterEx(c);
    assert c3.exmem == ExMem(Control.IDLE.(memWrite := true), 0, 0, 0, 100, 0, false, true);
    assert c3.memwb == MemWb(Control.IDLE.(halt := true), 0, 0, 0, true) && c3.mem == c.mem && !c3.trapped;
    assert !Stall(c3) && Clock(c) == StageIf(StageId(c3));
  }

  lemma StoreExecutes(m: Mem)
    requires StoreBehindHalt(m)
    ensures var c := Cycles(Reset(m, 0), 4);
            && c.memwb == MemWb(Control.IDLE.(halt := true), 0, 0, 0, true) && c.mem == m && !c.halted && !c.trapped
            && c.exmem == ExMem(Control.IDLE.(memWrite := true), 0, 0, 0, 100, 0, false, true) && c.execStall == 0
            && !c.idex.valid
  {
    hide Clock;
    HaltExecutes(m);
    StoreBehindHaltCycle(HaltExecuted(m));
  }

  lemma HaltingCycle(c: Cpu)
    requires HaltInMemWb(c) && !c.halted && !c.trapped && c.execStall == 0 && !c.idex.valid && !JumpPending(c.exmem)
    ensures Step(c).halted && Step(c).mem == CompletedMem(c)
  {
    hide StoreValue, LoadValue, Alu.Execute, IdRegister;
  }

  /** The store reaches MEM in the cycle that halts: the pipeline stops with word 100 cleared, where the program
      stops at its first instruction. */
  lemma StoreBehindHaltParts(m: Mem)
    requires StoreBehindHalt(m)
    ensures AtHalt(Initial(m, 0)) && Initial(m, 0).mem[100] != 0
    ensures Cycles(Reset(m, 0), 5).halted && Cycles(Reset(m, 0), 5).mem[100] == 0
  {
    hide Clock, Step, StoreValue, Reset, Isa.Decode;
    StartsAtHalt(m);
    StoreExecutes(m);
    ClearedWord(m);
    HaltingCycle(Cycles(Reset(m, 0), 4));
  }

  lemma StartsAtHalt(m: Mem)
    requires StoreBehindHalt(m)
    ensures AtHalt(Initial(m, 0)) && Initial(m, 0).mem == m
  {
  }

  lemma ClearedWord(m: Mem)
    ensures StoreValue(m, 100, 2, 0)[100] == 0
  {
  }

  // ---- A PUSH behind a taken jump

  /** 0: JMP 2; 1: PUSH R0; 2: HLT. */
  predicate PushBehindJump(m: Mem) {
    m[0] == 0xA800_0002 && m[1] == 0xBC00_0000 && m[2] == HLT_WORD && m[3] == NOP_WORD
  }

  lemma JumpOnly(m: Mem)
    requires PushBehindJump(m)
    ensures IsaRun(Initial(m, 0), 1) == Initial(m, 0).(pc := 2) && AtHalt(IsaRun(Initial(m, 0), 1))
  {
    MoreWordsDecode();
    hide Isa.Decode, Alu.Execute, StoreValue;
    var s0 := Initial(m, 0);
    assert IsaRun(s0, 0) == s0 && IsaRun(s0, 1) == IsaStep(s0);
  }

  function JumpDecoded(m: Mem): Cpu {
    Reset(m, 0).(idex := IdEx(JMP, Control.IDLE.(jump := true), 0, 0, 0, 0, 0, 2, 0, 1, true),
        ifid := IfId(m[1], 2, true), pc := 2)
  }

  function JumpExecuted(m: Mem): Cpu {
    JumpDecoded(m).(exmem := ExMem(Control.IDLE.(jump := true), 0, 0, 0, 0, 2, true, true),
                    idex := IdEx(PUSH, Control.IDLE.(memWrite := true, push := true), 0, 0, 0, 0, 0, 0, 0, 2, true),
                    ifid := IfId(m[2], 3, true), pc := 3)
  }

  lemma JumpExecutes(m: Mem)
    requires PushBehindJump(m)
    ensures Cycles(Reset(m, 0), 3) == JumpExecuted(m)
  {
    MoreWordsDecode();
    hide Isa.Decode, Alu.Execute, StoreValue, LoadValue;
    var c0 := Reset(m, 0);
    var c1 := c0.(ifid := IfId(m[0], 1, true), pc := 1);
    assert Step(c0) == c1 && Step(c1) == JumpDecoded(m) && Step(JumpDecoded(m)) == JumpExecuted(m);
    assert Cycles(c0, 0) == c0 && Cycles(c0, 1) == c1 && Cycles(c0, 2) == JumpDecoded(m);
  }

  /** EX carries out the PUSH that the jump in front of it cancels in the same cycle. */
  lemma PushBehindJumpCycle(c: Cpu)
    requires c.exmem == ExMem(Control.IDLE.(jump := true), 0, 0, 0, 0, 2, true, true) && c.memwb == EMPTY_MEMWB
    requires c.idex == IdEx(PUSH, Control.IDLE.(memWrite := true, push := true), 0, 0, 0, 0, 0, 0, 0, 2, true)
    requires c.rf[SP_REG] == 0x1_0000 && c.execStall == 0 && !c.halted && !c.trapped
    ensures var r := Clock(c);
            && !r.exmem.valid && !r.idex.valid && r.ifid == IfId(c.mem[2], 3, true) && r.pc == 3 && r.mem == c.mem
            && r.memwb == MemWb(Control.IDLE.(jump := true), 0, 0, 0, true) && r.rf == c.rf[SP_REG := 0xFFFF]
            && !r.fetchStopped && r.execStall == 0 && !r.halted && !r.trapped
  {
    hide Alu.Execute, LoadValue, StoreValue, IdRegister, OpField, Isa.Decode, Control.Decode, EvalBranch, Stall;
    var c3 := AfterEx(c);
    assert c3.rf == c.rf[SP_REG := 0xFFFF] && c3.mem == c.mem && !c3.trapped && c3.execStall == 0;
    assert c3.memwb == MemWb(Control.IDLE.(jump := true), 0, 0, 0, true);
    assert Clock(c) == Redirect(StageId(c3), 2);
  }

  /** After four cycles the cancelled PUSH has moved the stack pointer. */
  lemma PushActs(m: Mem)
    requires PushBehindJump(m)
    ensures var c, s := Cycles(Reset(m, 0), 4), Arch(Initial(m, 0).regs[SP_REG := 0xFFFF], m, 2);
              Rel(c, s) && Delay(c) <= 33
  {
    StartStack(m);
    JumpExecutes(m);
    hide Clock, Isa.Decode, LoadValue, StoreValue;
    PushBehindJumpCycle(JumpExecuted(m));
  }

  lemma StopsAtTwo(m: Mem, regs: Regs)
    requires PushBehindJump(m)
    ensures var s := Arch(regs, m, 2); SafeRun(s) && AtHalt(IsaRun(s, 0)) && IsaRun(s, 0).regs == regs
  {
    MoreWordsDecode();
    hide Isa.Decode;
    SafeAtHalt(Arch(regs, m, 2));
  }

  /** The pipeline halts with R30 one lower than the program leaves it, which never pushes. */
  lemma PushBehindJumpParts(m: Mem) returns (n: nat)
    requires PushBehindJump(m)
    ensures Cycles(Reset(m, 0), n).halted && Cycles(Reset(m, 0), n).rf[SP_REG] == 0xFFFF
    ensures AtHalt(IsaRun(Initial(m, 0), 1)) && IsaRun(Initial(m, 0), 1).regs[SP_REG] == 0x1_0000
  {
    StartStack(m);
    hide Rel, SafeRun, AtHalt, Cycles, IsaRun, Initial, Delay, PushBehindJump, Reset;
    JumpOnly(m);
    PushActs(m);
    var regs: Regs := PushedRegs(m);
    StopsAtTwo(m, regs);
    n := HaltsWith(Cycles(Reset(m, 0), 4), Arch(regs, m, 2), 0, Reset(m, 0), 4);
  }

  lemma StartStack(m: Mem)
    ensures Initial(m, 0).regs[SP_REG] == 0x1_0000
  {
  }

  function PushedRegs(m: Mem): (r: Regs)
    ensures r == Initial(m, 0).regs[SP_REG := 0xFFFF]
  {
    Initial(m, 0).regs[SP_REG := 0xFFFF]
  }
}
