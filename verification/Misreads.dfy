/** What the pipeline does at the words that the hazard logic overlooks: the word behind takes the register to
    hold another value, and everything else is as the instruction set says. */
module Misreads {
  import opened Words
  import opened Isa
  import opened Memory
  import opened Registers
  import opened Pipeline
  import opened Sequential
  import opened Refinement
  import opened Progress
  import Alu
  import Control

  /** The state with register r holding v. */
  function As(s: Arch, r: Reg, v: Word): Arch { s.(regs := SetReg(s.regs, r, v)) }

  /** The word writes r in WB. */
  predicate Overwrites(w: Word, r: Reg) {
    Writes(w) == r || ((OpField(w) == CALL || OpField(w) == CALLR) && r == LR_REG)
  }

  /** One step in which the instruction takes register r to hold v; r itself keeps its value, unless the
      instruction's last act is to write it. */
  function Misread(s: Arch, r: Reg, v: Word): Arch
    requires OnCode(s)
  {
    var t := IsaStep(As(s, r, v));
    if Overwrites(Fetch(s), r) then t else As(t, r, s.regs[r])
  }

  // ---- Behind an instruction, without asking whether the next one is ready

  /** The simulation relation with a word in ID/EX, but for its readiness. */
  predicate Near(c: Cpu, s: Arch) {
    && !c.trapped && !c.halted && !HaltInMemWb(c) && !HaltInExMem(c) && !JumpPending(c.exmem) && !c.fetchStopped
    && s.regs == CompletedRegs(c) && s.mem == CompletedMem(c)
    && c.idex.valid && OnCode(s) && Holds(c.idex, Fetch(s), c.rf, s.pc + 1)
    && c.pc == s.pc + 1 + (if c.ifid.valid then 1 else 0)
    && (c.ifid.valid ==> s.pc + 1 < MEM_SIZE && c.ifid == IfId(s.mem[s.pc + 1], s.pc + 2, true))
  }

  /** A word that is executed, with the next one fetched behind it and not held back. */
  predicate Pair(c: Cpu, s: Arch) {
    && Rel(c, s) && Commits(c) && c.ifid.valid && OnCode(s) && s.pc + 1 < MEM_SIZE
    && Ordinary(Fetch(s)) && !TakesJump(s) && !AtHalt(s) && !Stalls(Fetch(s), NextWord(s))
    && StoreIndex(s) != s.pc + 1 && StoreIndex(s) != s.pc + 2
  }

  lemma EnterNear(c3: Cpu, s: Arch)
    requires !c3.trapped && !c3.halted && !HaltInMemWb(c3) && !HaltInExMem(c3) && !JumpPending(c3.exmem)
    requires s.regs == CompletedRegs(c3) && s.mem == CompletedMem(c3) && OnCode(s)
    requires !c3.fetchStopped && c3.pc == s.pc + 1 && c3.ifid == IfId(s.mem[s.pc], s.pc + 1, true) && !Stall(c3)
    requires c3.pc < MEM_SIZE ==> c3.mem[c3.pc] == s.mem[c3.pc]
    ensures Near(StageIf(StageId(c3)), s) && (c3.pc < MEM_SIZE ==> StageIf(StageId(c3)).ifid.valid)
  {
    FrontEndKeeps(c3);
    DecodedNext(c3);
    FetchedNext(StageId(c3));
    IdKeeps(c3);
    hide StageId, StageIf, MemRegister, MemContents, WriteBack, Stall, IdRegister, OpField, Defined;
  }

  lemma PairSteps(c: Cpu, s: Arch)
    requires Pair(c, s)
    ensures Near(Step(c), IsaStep(s)) && IsaStep(s).pc == s.pc + 1 && IsaStep(s).mem[s.pc + 1] == s.mem[s.pc + 1]
    ensures Step(c).exmem == AfterEx(c).exmem && Step(c).memwb == MemRegister(c.exmem, c.mem)
    ensures Step(c).rf == ExRegs(c.idex, WriteBack(c.rf, c.memwb)) && (s.pc + 2 < MEM_SIZE ==> Step(c).ifid.valid)
  {
    CommitBehind(c, s);
    ClockFromEx(c);
    var c3 := AfterEx(c);
    FrontEndKeeps(c3);
    StoreFrame(s, s.pc + 1);
    if s.pc + 2 < MEM_SIZE { StoreFrame(s, s.pc + 2); }
    hide AfterEx, Clock, Isa.Decode, IsaStep, StageId, StageIf, Near, StoreIndex, TakesJump, Stall, Stalls,
      MemContents, WriteBack, MemRegister, ExRegs, Ordinary;
    EnterNear(c3, IsaStep(s));
  }

  // ---- Two pipelines that differ in what MEM/WB writes to r

  predicate Calls(ide: IdEx) {
    Executes(ide) && ide.ctrl == Control.IDLE.(jump := true, call := true, regWrite := true) && !Traps(ide)
  }

  lemma ExecutedShape(ide: IdEx, a: Word, b: Word, rf: Regs)
    ensures var x := ExRegister(ide, a, b, rf);
            && x.ctrl == ide.ctrl && x.valid == ide.valid
            && (x.rd == ide.rd || (ide.ctrl.jump && ide.ctrl.call && x.rd == LR_REG))
            && (Calls(ide) ==> x.rd == LR_REG)
  {
    hide Alu.Execute, EvalBranch;
  }

  /** The word writes a register in WB. */
  lemma WritingWords(w: Word, held: Regs, ide: IdEx, pcPlus1: nat)
    requires !IsSystem(OpField(w)) && Holds(ide, w, held, pcPlus1)
    ensures ide.valid && (ide.ctrl.regWrite && !ide.ctrl.jump && ide.rd != 0 ==> !ide.ctrl.halt && Writes(w) == ide.rd)
    ensures Writes(w) != 0 && OpField(w) != CALL && OpField(w) != CALLR ==>
              ide.ctrl.regWrite && !ide.ctrl.jump && !ide.ctrl.halt && Writes(w) == ide.rd
    ensures ide.ctrl.jump && ide.ctrl.regWrite <==> OpField(w) == CALL || OpField(w) == CALLR
    ensures OpField(w) == CALL || OpField(w) == CALLR ==>
            ide.ctrl == Control.IDLE.(jump := true, call := true, regWrite := true) && Writes(w) == 0
  {
    var op := OpField(w);
    if Defined(op) { assert ide.ctrl == Control.Decode(w) && ide.opcode == op; }
  }

  /** The word's last act writes r exactly when its EX/MEM register does. */
  lemma OverwritesIff(w: Word, held: Regs, ide: IdEx, pcPlus1: nat, a: Word, b: Word, rf: Regs, r: Reg)
    requires !IsSystem(OpField(w)) && Holds(ide, w, held, pcPlus1) && r != 0
    ensures var x := ExRegister(ide, a, b, rf);
            x.valid && !x.ctrl.halt && x.ctrl.regWrite && x.rd == r <==> Overwrites(w, r)
  {
    DecodedSignals(w, held, ide, pcPlus1);
    WritingWords(w, held, ide, pcPlus1);
    ExecutedShape(ide, a, b, rf);
    hide ExRegister, Writes, Holds, OpField;
  }

  /** wb writes v to r, and nothing halts. */
  predicate Delivers(wb: MemWb, r: Reg, v: Word) {
    wb.valid && wb.ctrl.regWrite && !wb.ctrl.halt && wb.rd == r && WbValue(wb) == v
  }

  lemma SwapDelivery(e: Cpu, t: Arch, wb: MemWb, r: Reg, v: Word)
    requires Rel(e, t) && !e.halted && r != 0 && e.memwb.rd == r && !e.memwb.ctrl.halt && Delivers(wb, r, v)
    ensures var x := e.exmem;
            Rel(e.(memwb := wb), if x.valid && !x.ctrl.halt && x.ctrl.regWrite && x.rd == r then t else As(t, r, v))
  {
    hide Isa.Decode, MemContents, Cancellable, Ready, IdRegister, Control.Decode, LoadValue;
  }

  lemma IdDelivery(e: Cpu, wb: MemWb)
    ensures Stall(e.(memwb := wb)) == Stall(e) && StageId(e.(memwb := wb)) == StageId(e).(memwb := wb)
  {
    hide IdRegister, OpField, FlushIdEx, DetectLoadUse, Defined;
  }

  lemma IfDelivery(e: Cpu, wb: MemWb)
    ensures StageIf(e.(memwb := wb)) == StageIf(e).(memwb := wb)
  {
  }

  /** ID and IF do not look at MEM/WB. */
  lemma FrontEndDelivery(e: Cpu, wb: MemWb)
    ensures Stall(e.(memwb := wb)) == Stall(e)
    ensures StageIf(StageId(e.(memwb := wb))) == StageIf(StageId(e)).(memwb := wb)
  {
    hide *;
    IdDelivery(e, wb);
    IfDelivery(StageId(e), wb);
  }

  /** The EX/MEM registers x and y make no difference to MEM and EX, except for what MEM hands on to WB. */
  predicate Alike(c: Cpu, x: ExMem, y: ExMem) {
    var ide, wb, rf := c.idex, c.memwb, WriteBack(c.rf, c.memwb);
    && !JumpPending(x) && !JumpPending(y) && MemContents(x, c.mem) == MemContents(y, c.mem)
    && ExRegister(ide, OperandA(ide, x, wb), OperandB(ide, x, wb), rf) == ExRegister(ide, OperandA(ide, y, wb),
        OperandB(ide, y, wb), rf)
  }

  lemma ExecutesAlike(c: Cpu, x: ExMem)
    requires Alike(c, c.exmem, x)
    ensures AfterEx(c) == AfterEx(c.(exmem := x)).(memwb := MemRegister(c.exmem, c.mem))
  {
    hide ExRegister, ExRegs, OperandA, OperandB, MemRegister, MemContents, JumpPending, Traps, UsesAlu, Latency,
      Executes;
  }

  /** Only MEM/WB differs after the cycle. */
  lemma SameButDelivery(c: Cpu, x: ExMem)
    requires Alike(c, c.exmem, x) && !c.halted && !c.trapped && c.execStall == 0
    ensures var d := c.(exmem := x); Step(c) == Step(d).(memwb := MemRegister(c.exmem, c.mem))
  {
    ExecutesAlike(c, x);
    var d := c.(exmem := x);
    var wb := MemRegister(c.exmem, c.mem);
    FrontEndDelivery(AfterEx(d), wb);
    hide AfterEx, StageId, StageIf, Stall, MemRegister, ExRegister, MemContents;
    ClockIs(c);
    ClockIs(d);
  }

  lemma ClockIs(c: Cpu)
    requires c.execStall == 0 && !JumpPending(c.exmem)
    ensures var c3 := AfterEx(c);
            Clock(c) == if c3.trapped then c3 else if Stall(c3) then c3.(idex := FlushIdEx(c3.idex))
                else StageIf(StageId(c3))
  {
    hide ExRegister, ExRegs, OperandA, OperandB, MemRegister, MemContents, IdRegister, OpField, Traps;
  }

  // ---- The next word takes r to hold v

  /** What the cycle leaves in EX/MEM. */
  lemma ExecutedRegister(c: Cpu)
    requires c.execStall == 0 && !JumpPending(c.exmem) && !c.halted && !c.trapped && !HaltInMemWb(c)
    ensures Step(c).exmem == AfterEx(c).exmem && Step(c).memwb == MemRegister(c.exmem, c.mem) && !Step(c).halted
  {
    ClockIs(c);
    FrontEndKeeps(AfterEx(c));
    hide StageId, StageIf, Stall, MemRegister, ExRegister, MemContents;
  }

  lemma DelayIgnoresDelivery(e: Cpu, wb: MemWb)
    requires !e.memwb.ctrl.halt && !wb.ctrl.halt
    ensures Delay(e.(memwb := wb)) == Delay(e)
  {
  }

  /** If with x in EX/MEM the pipeline stands for the state in which r holds v, then the next word takes r to hold v. */
  lemma TakesFor(c: Cpu, s: Arch, x: ExMem, r: Reg, v: Word)
    requires Near(c, s) && c.execStall == 0 && r != 0 && SafeAt(As(s, r, v))
    requires Rel(c.(exmem := x), As(s, r, v)) && Alike(c, c.exmem, x) && x.rd == r && !x.ctrl.halt
    requires Delivers(MemRegister(c.exmem, c.mem), r, s.regs[r])
    ensures Rel(Step(c), Misread(s, r, v)) && Delay(Step(c)) <= 33
  {
    var d, wb, w := c.(exmem := x), MemRegister(c.exmem, c.mem), Fetch(s);
    var t := As(s, r, v);
    assert Fetch(t) == w && Commits(d) && !IsSystem(OpField(w));
    hide Rel, Near, SafeAt, Alike, MemRegister, Delivers, IsaStep, Clock, Step, Overwrites, Delay, AfterEx, Holds;
    StepRefines(d, t);
    DelayBound(d, t);
    SameButDelivery(c, x);
    ExecutedRegister(d);
    AfterIs(d);
    OverwritesIff(w, c.rf, c.idex, s.pc + 1, OperandA(c.idex, x, c.memwb), OperandB(c.idex, x, c.memwb),
        WriteBack(c.rf, c.memwb), r);
    HandsOn(x, c.mem);
    SwapDelivery(Step(d), IsaStep(t), wb, r, s.regs[r]);
    DeliversNoHalt(wb, r, s.regs[r]);
    DelayIgnoresDelivery(Step(d), wb);
  }

  lemma AfterIs(d: Cpu)
    ensures AfterEx(d).exmem
         == ExRegister(d.idex, OperandA(d.idex, d.exmem, d.memwb), OperandB(d.idex, d.exmem, d.memwb),
             WriteBack(d.rf, d.memwb))
  {
    hide ExRegister, OperandA, OperandB, MemRegister, MemContents;
  }

  lemma HandsOn(x: ExMem, m: Mem)
    ensures MemRegister(x, m).rd == x.rd && MemRegister(x, m).ctrl == x.ctrl
  {
  }

  lemma DeliversNoHalt(wb: MemWb, r: Reg, v: Word)
    requires Delivers(wb, r, v)
    ensures !wb.ctrl.halt
  {
  }

  // ---- A load or POP whose register the next word reads too early

  /** EX/MEM holds a load of r. */
  predicate LoadsInto(x: ExMem, r: Reg) {
    && x.valid && x.rd == r && x.aluResult == 0 && !x.takeJump
    && x.ctrl.regWrite && x.ctrl.memRead && !x.ctrl.halt && !x.ctrl.memWrite
  }

  lemma LoadExecuted(c: Cpu, s: Arch)
    requires Pair(c, s) && (IsLoad(OpField(Fetch(s))) || OpField(Fetch(s)) == POP)
    ensures LoadsInto(AfterEx(c).exmem, Writes(Fetch(s))) && !UsesAlu(c.idex)
  {
    AfterIs(c);
    hide AfterEx, CompletedRegs, CompletedMem, LoadValue, StoreIndex, TakesJump, Stalls;
    var w := Fetch(s);
    assert c.idex == IdRegister(w, c.rf, s.pc + 1);
    LoadRegister(w, c.rf, s.pc + 1, OperandA(c.idex, c.exmem, c.memwb), OperandB(c.idex, c.exmem, c.memwb),
        WriteBack(c.rf, c.memwb));
  }

  lemma LoadRegister(w: Word, held: Regs, pcPlus1: nat, a: Word, b: Word, rf: Regs)
    requires IsLoad(OpField(w)) || OpField(w) == POP
    ensures LoadsInto(ExRegister(IdRegister(w, held, pcPlus1), a, b, rf), Writes(w))
            && !UsesAlu(IdRegister(w, held, pcPlus1))
  {
  }

  /** Without the load, r would be 0: that is what forwarding shows to the next word. */
  lemma LoadShowsZero(c: Cpu, s: Arch, r: Reg)
    requires Near(c, s) && LoadsInto(c.exmem, r) && r != 0 && !ReadsUnforwarded(Fetch(s), r)
    ensures var x := c.exmem.(ctrl := c.exmem.ctrl.(memRead := false));
            Rel(c.(exmem := x), As(s, r, 0)) && Alike(c, c.exmem, x)
    ensures Delivers(MemRegister(c.exmem, c.mem), r, s.regs[r])
  {
    hide ExRegister, Isa.Decode, IdRegister, LoadValue, Reads;
  }

  /** A word that reads, directly behind a load or POP and unstalled, the loaded register is executed as if that
      register held 0, whatever was loaded. */
  lemma MissedLoadRuns(c: Cpu, s: Arch)
    requires Pair(c, s) && (IsLoad(OpField(Fetch(s))) || OpField(Fetch(s)) == POP)
    requires var r := Writes(Fetch(s)); r != 0 && !ReadsUnforwarded(NextWord(s), r) && SafeAt(As(IsaStep(s), r, 0))
    ensures var c2 := Step(Step(c)); Rel(c2, Misread(IsaStep(s), Writes(Fetch(s)), 0)) && Delay(c2) <= 33
  {
    var r, c1, s1 := Writes(Fetch(s)), Step(c), IsaStep(s);
    PairSteps(c, s);
    LoadExecuted(c, s);
    LatencyBound(c);
    hide AfterEx, Near, SafeAt, Rel, Step, IsaStep, LoadsInto, Stalls, TakesJump, StoreIndex, ReadsUnforwarded, Writes;
    LoadShowsZero(c1, s1, r);
    TakesFor(c1, s1, c1.exmem.(ctrl := c1.exmem.ctrl.(memRead := false)), r, 0);
  }

  // ---- R31 and R30 read past the forwarding paths

  lemma FrozenStep(c: Cpu)
    requires !c.halted && !c.trapped && c.execStall > 0
    ensures Step(c) == c.(execStall := c.execStall - 1)
  {
    hide StageWb, StageMem, StageEx, StageId, StageIf, Redirect, Stall;
  }

  /** The cycles that a multiplication or division holds the pipeline pass without effect. */
  lemma {:induction false} Thaws(c: Cpu, k: nat)
    requires !c.halted && !c.trapped && k <= c.execStall
    ensures Cycles(c, k) == c.(execStall := c.execStall - k)
  {
    hide Step, Clock;
    if k > 0 {
      Thaws(c, k - 1);
      FrozenStep(c.(execStall := c.execStall - (k - 1)));
    }
  }

  /** The cycles that an instruction takes beyond its own in EX. */
  function ExtraCycles(w: Word): nat {
    match Isa.Decode(w)
    case InstrR(op, _, _, _, _) => if op == MUL || op == MULH then 2
      else if op == DIV || op == DIVU || op == REM then 31 else 0
    case _ => 0
  }

  /** Multiplications take three cycles in EX and divisions 32, other instructions one; nothing executes meanwhile. */
  lemma CyclesInEx(c: Cpu, s: Arch)
    requires Rel(c, s) && Commits(c) && OnCode(s) && Ordinary(Fetch(s))
    ensures var c1, n := Step(c), ExtraCycles(Fetch(s));
            c1.execStall == n && Cycles(c1, n) == c1.(execStall := 0) && forall k: nat :: k < n ==>
                !Commits(Cycles(c1, k))
  {
    var c1, n := Step(c), ExtraCycles(Fetch(s));
    StallAfter(c, s);
    CommitBehind(c, s);
    ClockIs(c);
    FrontEndKeepsLatency(AfterEx(c), 0);
    FrontEndKeepsLatency(StageId(AfterEx(c)), 0);
    FrontEndKeeps(AfterEx(c));
    hide AfterEx, Clock, StageId, StageIf, Stall, ExtraCycles, IsaStep, TakesJump, Stalls, CompletedRegs, CompletedMem,
      JumpPending;
    Thaws(c1, n);
    forall k: nat | k < n ensures !Commits(Cycles(c1, k)) { Thaws(c1, k); }
  }

  lemma StallAfter(c: Cpu, s: Arch)
    requires Rel(c, s) && Commits(c) && OnCode(s) && Ordinary(Fetch(s))
    ensures AfterEx(c).execStall == ExtraCycles(Fetch(s))
  {
    var w := Fetch(s);
    AluWords(w, c.rf, c.idex, s.pc + 1);
    hide ExRegister, ExRegs, OperandA, OperandB, MemRegister, MemContents, CompletedRegs, CompletedMem, Ready,
      Cancellable, IdRegister;
  }

  lemma AluWords(w: Word, held: Regs, ide: IdEx, pcPlus1: nat)
    requires Ordinary(w) && Holds(ide, w, held, pcPlus1)
    ensures (if UsesAlu(ide) then Latency(ide.opcode) else 0) == ExtraCycles(w)
  {
    var op := OpField(w);
    if Defined(op) { assert ide.ctrl == Control.Decode(w) && ide.opcode == op; }
  }

  /** EX/MEM holds an instruction that will write r. */
  predicate WillWrite(x: ExMem, r: Reg) { x.valid && x.rd == r && x.ctrl.regWrite && !x.ctrl.halt && !x.takeJump }

  lemma WriteExecuted(c: Cpu, s: Arch, r: Reg)
    requires Pair(c, s) && Writes(Fetch(s)) == r != 0 && (r == SP_REG ==> OpField(Fetch(s)) != POP)
    ensures WillWrite(AfterEx(c).exmem, r)
    ensures WriteBack(ExRegs(c.idex, WriteBack(c.rf, c.memwb)), MemRegister(c.exmem, c.mem))[r] == s.regs[r]
  {
    AfterIs(c);
    hide AfterEx, CompletedMem, LoadValue, StoreIndex, Stalls;
    var w := Fetch(s);
    assert Holds(c.idex, w, c.rf, s.pc + 1);
    var a, b := OperandA(c.idex, c.exmem, c.memwb), OperandB(c.idex, c.exmem, c.memwb);
    OverwritesIff(w, c.rf, c.idex, s.pc + 1, a, b, WriteBack(c.rf, c.memwb), r);
    CommitBehind(c, s);
    OnlyStackMoves(w, c.rf, c.idex, s.pc + 1, WriteBack(c.rf, c.memwb), MemRegister(c.exmem, c.mem), r);
  }

  lemma OnlyStackMoves(w: Word, held: Regs, ide: IdEx, pcPlus1: nat, rf: Regs, wb: MemWb, r: Reg)
    requires !IsSystem(OpField(w)) && Holds(ide, w, held, pcPlus1) && Writes(w) == r != 0
             && (r == SP_REG ==> OpField(w) != POP)
    ensures WriteBack(ExRegs(ide, rf), wb)[r] == WriteBack(rf, wb)[r]
  {
    var op := OpField(w);
    if Defined(op) { assert ide.ctrl == Control.Decode(w) && ide.opcode == op; }
    hide Isa.Decode, IdRegister;
  }

  /** Without the pending write, r holds what it held before. */
  lemma PendingHidden(c: Cpu, s: Arch, r: Reg, v: Word)
    requires Near(c, s) && WillWrite(c.exmem, r) && r != 0 && WriteBack(c.rf, c.memwb)[r] == v
    requires ReadsUnforwarded(Fetch(s), r) && !Reads(Fetch(s), r)
    ensures var x := c.exmem.(ctrl := c.exmem.ctrl.(regWrite := false));
            Rel(c.(exmem := x), As(s, r, v)) && Alike(c, c.exmem, x)
    ensures Delivers(MemRegister(c.exmem, c.mem), r, s.regs[r])
  {
    UnforwardedOperands(c, s, r);
    hide ExRegister, Isa.Decode, Control.Decode, IdRegister, LoadValue, OperandA, OperandB, Reads, ReadsUnforwarded;
  }

  /** RET, PUSH and POP work on no operand that waits for r. */
  lemma UnforwardedOperands(c: Cpu, s: Arch, r: Reg)
    requires Near(c, s) && WillWrite(c.exmem, r) && r != 0 && ReadsUnforwarded(Fetch(s), r) && !Reads(Fetch(s), r)
    ensures var ide, wb, x := c.idex, c.memwb, c.exmem.(ctrl := c.exmem.ctrl.(regWrite := false));
            forall rf: Regs :: ExRegister(ide, OperandA(ide, c.exmem, wb), OperandB(ide, c.exmem, wb), rf)
                            == ExRegister(ide, OperandA(ide, x, wb), OperandB(ide, x, wb), rf)
  {
    hide CompletedRegs, CompletedMem, LoadValue, Alu.Execute, EvalBranch, WbValue;
    var w := Fetch(s);
    assert c.idex == IdRegister(w, c.rf, s.pc + 1) && c.idex.ctrl == Control.Decode(w);
  }

  /** RET behind an instruction that writes R31, and PUSH or POP behind one that writes R30, is executed as if that
      register still held its old value. */
  lemma StaleReadRuns(c: Cpu, s: Arch)
    requires Pair(c, s)
    requires var r := Writes(Fetch(s));
             && r != 0 && ReadsUnforwarded(NextWord(s), r) && !Reads(NextWord(s), r)
                 && (r == SP_REG ==> OpField(Fetch(s)) != POP)
             && SafeAt(As(IsaStep(s), r, s.regs[r]))
    ensures var r, c2 := Writes(Fetch(s)), Cycles(Step(c), Step(c).execStall + 1);
            Rel(c2, Misread(IsaStep(s), r, s.regs[r])) && Delay(c2) <= 33
  {
    var r, c1, s1 := Writes(Fetch(s)), Step(c), IsaStep(s);
    PairSteps(c, s);
    WriteExecuted(c, s, r);
    var c2 := c1.(execStall := 0);
    assert Near(c2, s1) && !c1.halted && !c1.trapped;
    Thaws(c1, c1.execStall);
    hide AfterEx, Near, SafeAt, Rel, Step, IsaStep, WillWrite, Stalls, TakesJump, StoreIndex, ReadsUnforwarded, Writes,
      Reads;
    PendingHidden(c2, s1, r, s.regs[r]);
    TakesFor(c2, s1, c2.exmem.(ctrl := c2.exmem.ctrl.(regWrite := false)), r, s.regs[r]);
  }

  // ---- Shifts by a constant

  /** A write of r is on its way. */
  predicate PendingWrite(c: Cpu, r: Reg) {
    r != 0 && ((c.exmem.valid && c.exmem.ctrl.regWrite && c.exmem.rd == r)
        || (c.memwb.valid && c.memwb.ctrl.regWrite && c.memwb.rd == r))
  }

  /** The amount that EX shifts by: the register named in the unused field, if a write of it is on its way. */
  function ShiftAmount(c: Cpu, s: Arch): Word
    requires OnCode(s)
  {
    var w := Fetch(s);
    if PendingWrite(c, Field15(w)) then s.regs[Field15(w)] else Field10(w)
  }

  lemma ShiftOperands(c: Cpu, s: Arch)
    requires Rel(c, s) && Commits(c) && OnCode(s) && IsShiftImmediate(OpField(Fetch(s)))
    requires c.exmem.valid && c.exmem.ctrl.regWrite && c.exmem.ctrl.memRead ==> c.exmem.rd != Field15(Fetch(s))
    ensures OperandA(c.idex, c.exmem, c.memwb) == s.regs[Field20(Fetch(s))]
    ensures OperandB(c.idex, c.exmem, c.memwb) == ShiftAmount(c, s)
  {
    var w := Fetch(s);
    assert c.idex == IdRegister(w, c.rf, s.pc + 1) && c.idex.rs1 == Field20(w) && c.idex.rs2 == Field15(w)
        && c.idex.rs2Val == Field10(w);
    assert ReadsFirst(w, c.idex.rs1);
    hide IdRegister, Isa.Decode, Control.Decode, Reads;
    ForwardingInvariant(c, Field20(w));
    ForwardingInvariant(c, Field15(w));
  }

  lemma ShiftExecuted(ide: IdEx, w: Word, held: Regs, pcPlus1: nat, a: Word, b: Word, rf: Regs)
    requires IsShiftImmediate(OpField(w)) && Holds(ide, w, held, pcPlus1)
    ensures var x := ExRegister(ide, a, b, rf);
            && x.valid && x.ctrl == Control.IDLE.(regWrite := true) && x.rd == Field25(w) == Writes(w) && !x.takeJump
            && x.aluResult == Alu.Execute(OpField(w), a, b) && ExRegs(ide, rf) == rf && !Traps(ide) && Executes(ide)
                && !ide.ctrl.halt
            && !ide.ctrl.memRead
  {
    hide Alu.Execute;
  }

  /** EX/MEM holds an ALU result for the register. */
  predicate Computes(x: ExMem, rd: Reg, v: Word) {
    x.valid && x.ctrl == Control.IDLE.(regWrite := true) && x.rd == rd && x.aluResult == v && !x.takeJump
  }

  lemma StallIs(c: Cpu)
    requires c.execStall == 0 && Latency(c.idex.opcode) == 0
    ensures AfterEx(c).execStall == 0
  {
    hide Latency, ExRegister, ExRegs, OperandA, OperandB, MemRegister, MemContents, Traps, UsesAlu;
  }

  lemma OpcodeHeld(w: Word, rf: Regs, pcPlus1: nat)
    ensures IdRegister(w, rf, pcPlus1).opcode == OpField(w)
  {
  }

  /** An instruction without latency takes one cycle in EX. */
  lemma NoLatency(c: Cpu)
    requires c.execStall == 0 && Latency(c.idex.opcode) == 0 && !JumpPending(c.exmem)
    ensures Clock(c).execStall == 0
  {
    StallIs(c);
    ClockIs(c);
    hide AfterEx, Clock, StageIf, StageId, Stall, JumpPending;
    FrontEndKeepsLatency(AfterEx(c), 0);
    FrontEndKeepsLatency(StageId(AfterEx(c)), 0);
  }

  /** The state after EX of an instruction that computes v for rd. */
  lemma ComputedNext(c: Cpu, s: Arch, rd: Reg, v: Word)
    requires Rel(c, s) && Commits(c) && OnCode(s) && Writes(Fetch(s)) == rd && MayFollow(Fetch(s), NextWord(s))
             && !IsLoad(OpField(Fetch(s)))
    requires Computes(AfterEx(c).exmem, rd, v) && ExRegs(c.idex, WriteBack(c.rf, c.memwb)) == WriteBack(c.rf, c.memwb)
    requires !Traps(c.idex) && !c.idex.ctrl.halt && !c.idex.ctrl.memRead
    ensures Rel(Step(c), Arch(SetReg(s.regs, rd, v), s.mem, s.pc + 1))
  {
    var c3 := AfterEx(c);
    ClockFromEx(c);
    assert !Stall(c3);
    hide AfterEx, Clock, ExRegister, ExRegs, StageId, StageIf, Isa.Decode, IdRegister, LoadValue, StoreValue, Reads,
      ReadsUnforwarded, Stall, Writes, Traps;
    EnterSequential(c3, Arch(SetReg(s.regs, rd, v), s.mem, s.pc + 1));
  }

  /** A shift by a constant whose unused register field is not 0: if a write of that register is on its way, the
      pipeline shifts by the register instead. */
  lemma ForwardedShiftRuns(c: Cpu, s: Arch)
    requires Rel(c, s) && Commits(c) && OnCode(s) && IsShiftImmediate(OpField(Fetch(s)))
             && MayFollow(Fetch(s), NextWord(s))
    requires c.exmem.valid && c.exmem.ctrl.regWrite && c.exmem.ctrl.memRead ==> c.exmem.rd != Field15(Fetch(s))
    ensures var w := Fetch(s);
            Rel(Step(c), Arch(SetReg(s.regs, Field25(w),
                Alu.Execute(OpField(w), s.regs[Field20(w)], ShiftAmount(c, s))), s.mem, s.pc + 1))
    ensures Delay(Step(c)) <= 33
  {
    hide AfterEx, Clock, ExRegs, Alu.Execute, ShiftAmount, MayFollow, Writes, CompletedRegs, CompletedMem, Ready, Traps;
    var w, rf, a, b := Fetch(s), WriteBack(c.rf, c.memwb), OperandA(c.idex, c.exmem, c.memwb),
        OperandB(c.idex, c.exmem, c.memwb);
    ShiftOperands(c, s);
    ShiftExecuted(c.idex, w, c.rf, s.pc + 1, a, b, rf);
    AfterIs(c);
    OpcodeHeld(w, c.rf, s.pc + 1);
    assert c.idex.opcode == OpField(w);
    NoLatency(c);
    hide ExRegister, IdRegister, Isa.Decode;
    ComputedNext(c, s, Field25(w), Alu.Execute(OpField(w), a, b));
  }

  // ---- A store into the next word, which has been fetched already

  /** The EX/MEM register of a store, without the store. */
  function Unstored(x: ExMem): ExMem { x.(ctrl := x.ctrl.(memWrite := false)) }

  predicate TouchesMemory(op: Opcode) { IsLoad(op) || IsStore(op) || WritesStack(op) }

  /** A store or PUSH to the word behind it. */
  predicate StoresAhead(c: Cpu, s: Arch) {
    && Rel(c, s) && Commits(c) && c.ifid.valid && OnCode(s) && s.pc + 1 < MEM_SIZE
    && Ordinary(Fetch(s)) && StoreIndex(s) == s.pc + 1
  }

  lemma StoreExecuted(c: Cpu, s: Arch)
    requires StoresAhead(c, s)
    ensures var x := AfterEx(c).exmem;
              x.valid && x.ctrl.memWrite && !x.ctrl.memRead && !x.ctrl.regWrite && !x.ctrl.halt && !x.takeJump
    ensures !UsesAlu(c.idex) && !TakesJump(s) && !AtHalt(s) && !Stalls(Fetch(s), NextWord(s))
    ensures IsaStep(s).pc == s.pc + 1 && forall i: nat :: i < MEM_SIZE && i != s.pc + 1 ==>
            IsaStep(s).mem[i] == s.mem[i]
  {
    AfterIs(c);
    var w := Fetch(s);
    assert IsStore(OpField(w)) || OpField(w) == PUSH;
    assert c.idex == IdRegister(w, c.rf, s.pc + 1);
    StoreRegister(w, c.rf, s.pc + 1, OperandA(c.idex, c.exmem, c.memwb), OperandB(c.idex, c.exmem, c.memwb),
        WriteBack(c.rf, c.memwb));
    forall i: nat | i < MEM_SIZE && i != s.pc + 1 ensures IsaStep(s).mem[i] == s.mem[i] { StoreFrame(s, i); }
    hide AfterEx, CompletedRegs, CompletedMem, LoadValue, StoreValue, ReplaceLane, OperandA, OperandB, ExRegister,
      IdRegister;
  }

  lemma StoreRegister(w: Word, held: Regs, pcPlus1: nat, a: Word, b: Word, rf: Regs)
    requires IsStore(OpField(w)) || OpField(w) == PUSH
    ensures var x := ExRegister(IdRegister(w, held, pcPlus1), a, b, rf);
            x.valid && x.ctrl.memWrite && !x.ctrl.memRead && !x.ctrl.regWrite && !x.ctrl.halt && !x.takeJump
    ensures !UsesAlu(IdRegister(w, held, pcPlus1))
  {
  }

  /** Without the store, the pipeline stands for the state in which memory is as before. */
  lemma UnstoredNear(c: Cpu, s: Arch)
    requires StoresAhead(c, s)
    ensures Near(Step(c).(exmem := Unstored(Step(c).exmem)), IsaStep(s).(mem := s.mem))
    ensures Step(c).exmem == AfterEx(c).exmem && MemContents(Step(c).exmem, Step(c).mem) == IsaStep(s).mem
            && Step(c).mem == s.mem
  {
    StoreExecuted(c, s);
    CommitBehind(c, s);
    ClockFromEx(c);
    var c3 := AfterEx(c);
    FrontEndKeeps(c3);
    FrontEndExMem(c3, Unstored(c3.exmem));
    hide AfterEx, Clock, Isa.Decode, IsaStep, StageId, StageIf, Near, StoreIndex, TakesJump, Stall, Stalls, Ordinary,
      IdRegister, StoreValue;
    EnterNear(c3.(exmem := Unstored(c3.exmem)), IsaStep(s).(mem := s.mem));
  }

  lemma FrontEndExMem(e: Cpu, x: ExMem)
    ensures Stall(e.(exmem := x)) == Stall(e) && StageIf(StageId(e.(exmem := x))) == StageIf(StageId(e)).(exmem := x)
  {
    hide *;
    IdExMem(e, x);
    IfExMem(StageId(e), x);
  }

  lemma IdExMem(e: Cpu, x: ExMem)
    ensures Stall(e.(exmem := x)) == Stall(e) && StageId(e.(exmem := x)) == StageId(e).(exmem := x)
  {
    hide IdRegister, OpField, FlushIdEx, DetectLoadUse, Defined;
  }

  lemma IfExMem(e: Cpu, x: ExMem)
    ensures StageIf(e.(exmem := x)) == StageIf(e).(exmem := x)
  {
  }

  lemma StoredExecutes(c: Cpu, M: Mem)
    requires c.exmem.valid && !c.exmem.ctrl.regWrite && M == MemContents(c.exmem, c.mem)
    ensures AfterEx(c) == AfterEx(c.(exmem := Unstored(c.exmem))).(mem := M, memwb := MemRegister(c.exmem, c.mem))
  {
    hide ExRegister, ExRegs, MemRegister, MemContents, Traps, UsesAlu, Latency, Executes, WbValue;
  }

  lemma FrontEndStored(e: Cpu, M: Mem, wb: MemWb)
    requires e.pc < MEM_SIZE ==> M[e.pc] == e.mem[e.pc]
    ensures var f := e.(mem := M, memwb := wb);
            Stall(f) == Stall(e) && StageIf(StageId(f)) == StageIf(StageId(e)).(mem := M, memwb := wb)
  {
    IdStored(e, M, wb);
    IdKeeps(e);
    hide StageId, Stall;
  }

  lemma IdStored(e: Cpu, M: Mem, wb: MemWb)
    ensures var f := e.(mem := M, memwb := wb); Stall(f) == Stall(e) && StageId(f) == StageId(e).(mem := M, memwb := wb)
  {
    hide IdRegister, OpField, FlushIdEx, DetectLoadUse, Defined;
  }

  /** The store makes no difference to the cycle but for memory. */
  lemma StoredStep(c: Cpu, M: Mem)
    requires c.exmem.valid && !c.exmem.ctrl.regWrite && !c.exmem.ctrl.memRead && !c.exmem.takeJump
             && M == MemContents(c.exmem, c.mem)
    requires !c.halted && !c.trapped && c.execStall == 0 && (c.pc < MEM_SIZE ==> M[c.pc] == c.mem[c.pc])
    ensures var d := c.(exmem := Unstored(c.exmem)); Step(c) == Step(d).(mem := M, memwb := MemRegister(c.exmem, c.mem))
  {
    var d, wb := c.(exmem := Unstored(c.exmem)), MemRegister(c.exmem, c.mem);
    StoredExecutes(c, M);
    KeptBeforeFetch(d);
    FrontEndStored(AfterEx(d), M, wb);
    ClockIs(c);
    ClockIs(d);
    hide AfterEx, StageId, StageIf, Stall, MemRegister, MemContents, Clock;
  }

  lemma KeptBeforeFetch(d: Cpu)
    ensures AfterEx(d).pc == d.pc && (!d.exmem.ctrl.memWrite ==> AfterEx(d).mem == d.mem)
  {
    hide ExRegister, ExRegs, OperandA, OperandB, MemRegister, StoreValue;
  }

  /** What a cycle leaves that executes a word which neither halts nor touches memory. */
  lemma NoMemoryWord(d: Cpu, t: Arch)
    requires Rel(d, t) && Commits(d) && OnCode(t) && Ordinary(Fetch(t)) && !TouchesMemory(OpField(Fetch(t)))
             && OpField(Fetch(t)) != HLT
    ensures var x := Step(d).exmem;
            && !x.ctrl.memRead && !x.ctrl.memWrite && !x.ctrl.halt && !Step(d).halted && !Step(d).trapped
            && (!JumpPending(x) ==> IsaStep(t).pc == t.pc + 1) && IsaStep(t).mem == t.mem
            && Step(d).memwb == MemRegister(d.exmem, d.mem)
  {
    CommitBehind(d, t);
    ExecuteCommits(d, t);
    AfterIs(d);
    ExecutedShape(d.idex, OperandA(d.idex, d.exmem, d.memwb), OperandB(d.idex, d.exmem, d.memwb),
        WriteBack(d.rf, d.memwb));
    NoStore(t);
    hide AfterEx, Clock, Isa.Decode, IsaStep, StageId, StageIf, StoreIndex, TakesJump, Stall, Stalls, Ordinary,
      IdRegister, StoreValue, ExRegister,
      MemRegister, MemContents, CompletedRegs, Writes;
    ExecutedRegister(d);
    ClockIs(d);
    FrontEndKeeps(AfterEx(d));
  }

  lemma NoStore(t: Arch)
    requires OnCode(t) && !TouchesMemory(OpField(Fetch(t)))
    ensures IsaStep(t).mem == t.mem
  {
    hide Alu.Execute, LoadValue, EvalBranch;
  }

  /** Memory may change at p, if nothing at p is in the pipeline. */
  lemma LateStore(e: Cpu, t: Arch, M: Mem, wb: MemWb, p: nat)
    requires Rel(e, t) && !e.halted && !e.exmem.ctrl.memRead && !e.exmem.ctrl.memWrite && !e.exmem.ctrl.halt
    requires !e.memwb.ctrl.regWrite && !e.memwb.ctrl.halt && !wb.ctrl.regWrite && !wb.ctrl.halt
    requires forall i: nat :: i < MEM_SIZE && i != p ==> M[i] == t.mem[i]
    requires !JumpPending(e.exmem) ==> t.pc == p + 1
    ensures var f := e.(mem := M, memwb := wb); Rel(f, t.(mem := M)) && Delay(f) == Delay(e)
  {
    hide IdRegister, OpField, Ready, Cancellable, StoreValue, LoadValue, Isa.Decode;
  }

  /** A word that has been fetched already is executed as it was, although the instruction before it stores there. */
  lemma StoreUnseenRuns(c: Cpu, s: Arch)
    requires StoresAhead(c, s) && !TouchesMemory(OpField(NextWord(s))) && OpField(NextWord(s)) != HLT
    requires SafeAt(IsaStep(s).(mem := s.mem))
    ensures var s1, c2 := IsaStep(s), Step(Step(c));
            Rel(c2, IsaStep(s1.(mem := s.mem)).(mem := s1.mem)) && Delay(c2) <= 33
  {
    var c1, s1 := Step(c), IsaStep(s);
    var x, t := Unstored(c1.exmem), s1.(mem := s.mem);
    var d := c1.(exmem := x);
    StoreExecuted(c, s);
    LatencyBound(c);
    UnstoredNear(c, s);
    assert Rel(d, t) && Commits(d) && Fetch(t) == NextWord(s);
    hide AfterEx, Near, SafeAt, Rel, Step, IsaStep, Stalls, TakesJump, StoreIndex, Delay, MemContents, StoresAhead,
      TouchesMemory;
    StepRefines(d, t);
    DelayBound(d, t);
    StoredStep(c1, s1.mem);
    NoMemoryWord(d, t);
    HandsOn(c1.exmem, c1.mem);
    HandsOn(x, c1.mem);
    LateStore(Step(d), IsaStep(t), s1.mem, MemRegister(c1.exmem, c1.mem), t.pc);
  }
}
