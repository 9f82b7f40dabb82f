/** The pipeline refines the sequential machine. */
module Refinement {
  import opened Words
  import opened Isa
  import opened Memory
  import opened Registers
  import opened Pipeline
  import opened Sequential
  import Alu
  import Control

  // ---- The abstraction: let WB and MEM finish what EX has already executed

  function CompletedRegs(c: Cpu): Regs {
    WriteBack(WriteBack(c.rf, c.memwb), MemRegister(c.exmem, c.mem))
  }

  function CompletedMem(c: Cpu): Mem { MemContents(c.exmem, c.mem) }

  predicate HaltInMemWb(c: Cpu) { c.memwb.valid && c.memwb.ctrl.halt }

  predicate HaltInExMem(c: Cpu) { c.exmem.valid && c.exmem.ctrl.halt }

  /** Executing this register and cancelling it afterwards leaves no trace. */
  predicate Cancellable(ide: IdEx) {
    Executes(ide) ==> !Traps(ide) && !ide.ctrl.push && !ide.ctrl.pop
  }

  /** ID/EX holds the word w fetched from pcPlus1 - 1, with operands read from rf. */
  predicate Holds(ide: IdEx, w: Word, rf: Regs, pcPlus1: nat) {
    if Defined(OpField(w)) then ide == IdRegister(w, rf, pcPlus1)
    else ide.valid && ide.ctrl == Control.BUBBLE && ide.rd == 0
  }

  /** No operand of w is still on its way through EX/MEM without a forwarding path. */
  predicate Ready(x: ExMem, w: Word) {
    x.valid && x.ctrl.regWrite && x.rd != 0 ==>
      !ReadsUnforwarded(w, x.rd) && (x.ctrl.memRead ==> !Reads(w, x.rd))
  }

  predicate InFlight(c: Cpu, s: Arch) {
    var fetched := s.pc + if c.idex.valid then 1 else 0;
    && !c.fetchStopped
    && c.pc == fetched + (if c.ifid.valid then 1 else 0)
    && (c.idex.valid ==> OnCode(s) && Holds(c.idex, Fetch(s), c.rf, s.pc + 1) && Ready(c.exmem, Fetch(s)))
    && (c.ifid.valid ==> fetched < MEM_SIZE && c.ifid == IfId(s.mem[fetched], fetched + 1, true))
  }

  /** The simulation relation between the pipeline and the sequential machine. */
  predicate Rel(c: Cpu, s: Arch) {
    && !c.trapped
    && if c.halted then AtHalt(s) && s.regs == c.rf && s.mem == c.mem
       else if HaltInMemWb(c) then
         AtHalt(s) && s.regs == c.rf && s.mem == c.mem && s.mem == CompletedMem(c) && !c.idex.valid
       else if HaltInExMem(c) then
         AtHalt(s) && s.regs == WriteBack(c.rf, c.memwb) && s.mem == c.mem && s.mem == CompletedMem(c)
         && !JumpPending(c.exmem) && !c.ifid.valid && c.fetchStopped
         && Cancellable(c.idex) && (c.idex.valid ==> !c.idex.ctrl.memWrite)
       else
         && s.regs == CompletedRegs(c) && s.mem == CompletedMem(c)
         && if JumpPending(c.exmem) then s.pc == c.exmem.jumpPc < MEM_SIZE && Cancellable(c.idex)
            else InFlight(c, s)
  }

  /** This cycle executes one instruction of the sequential machine. */
  predicate Commits(c: Cpu) {
    !c.halted && !c.trapped && c.execStall == 0 && !HaltInMemWb(c) && !HaltInExMem(c)
    && !JumpPending(c.exmem) && c.idex.valid
  }

  // ---- Forwarding

  /** What calc and resolve choose is the register's value once WB and MEM have finished. */
  lemma ForwardingInvariant(c: Cpu, r: Reg)
    requires !HaltInMemWb(c) && !HaltInExMem(c)
    requires c.exmem.valid && c.exmem.ctrl.regWrite && c.exmem.ctrl.memRead ==> c.exmem.rd != r || r == 0
    ensures ResolveOne(CalcOne(r, c.exmem, c.memwb), c.rf[r], c.exmem, c.memwb) == CompletedRegs(c)[r]
  {
  }

  /** The operands that EX works on are the architectural ones, where the word reads them at all. */
  predicate Operands(s: Arch, ide: IdEx, a: Word, b: Word)
    requires OnCode(s)
  {
    && (ReadsFirst(Fetch(s), ide.rs1) ==> a == s.regs[ide.rs1])
    && (ReadsSecond(Fetch(s), ide.rs2) ==> b == s.regs[ide.rs2])
    && (ide.rs2 == 0 ==> b == ide.rs2Val)
  }

  /** What the older instructions leave, with `wb` the one that MEM hands on in this cycle. */
  predicate Older(s: Arch, rf: Regs, wb: MemWb)
    requires OnCode(s)
  {
    && s.regs == WriteBack(rf, wb)
    && !(wb.valid && wb.ctrl.halt)
    && (wb.valid && wb.ctrl.regWrite && wb.rd != 0 ==> !ReadsUnforwarded(Fetch(s), wb.rd))
  }

  /** Executing w = Fetch(s) in EX, and then letting MEM and WB finish it, is one sequential step. */
  predicate Committed(s: Arch, ide: IdEx, rf: Regs, wb: MemWb, x: ExMem) {
    && IsaStep(s).regs == WriteBack(WriteBack(ExRegs(ide, rf), wb), MemRegister(x, s.mem))
    && IsaStep(s).mem == MemContents(x, s.mem)
    && JumpPending(x) == (OnCode(s) && TakesJump(s))
    && IsaStep(s).pc == (if JumpPending(x) then x.jumpPc else if AtHalt(s) then s.pc else s.pc + 1)
  }

  lemma CommitRegisterAlu(s: Arch, held: Regs, ide: IdEx, a: Word, b: Word, rf: Regs, wb: MemWb)
    requires OnCode(s) && !IsSystem(OpField(Fetch(s)))
    requires Holds(ide, Fetch(s), held, s.pc + 1) && Operands(s, ide, a, b) && Older(s, rf, wb)
    requires IsRegisterAlu(OpField(Fetch(s))) && (IsShiftImmediate(OpField(Fetch(s))) ==> Field15(Fetch(s)) == 0)
    ensures Committed(s, ide, rf, wb, ExRegister(ide, a, b, rf))
  {
    hide LoadValue, StoreValue, Pipeline.EvalBranch;
  }

  lemma CommitImmediateAlu(s: Arch, held: Regs, ide: IdEx, a: Word, b: Word, rf: Regs, wb: MemWb)
    requires OnCode(s) && !IsSystem(OpField(Fetch(s)))
    requires Holds(ide, Fetch(s), held, s.pc + 1) && Operands(s, ide, a, b) && Older(s, rf, wb)
    requires IsImmediateAlu(OpField(Fetch(s)))
    ensures Committed(s, ide, rf, wb, ExRegister(ide, a, b, rf))
  {
    hide LoadValue, StoreValue, Pipeline.EvalBranch;
  }

  lemma CommitMovhi(s: Arch, held: Regs, ide: IdEx, a: Word, b: Word, rf: Regs, wb: MemWb)
    requires OnCode(s) && !IsSystem(OpField(Fetch(s)))
    requires Holds(ide, Fetch(s), held, s.pc + 1) && Operands(s, ide, a, b) && Older(s, rf, wb)
    requires OpField(Fetch(s)) == MOVHI
    ensures Committed(s, ide, rf, wb, ExRegister(ide, a, b, rf))
  {
    assert Control.Decode(Fetch(s)) == Control.IDLE.(regWrite := true);
    assert ide.opcode == MOVHI && ide.rs2 == 0 && b == Low21(Fetch(s));
    var x := ExRegister(ide, a, b, rf);
    assert x.aluResult == Alu.Execute(MOVHI, 0, b);
  }

  lemma CommitPush(s: Arch, held: Regs, ide: IdEx, a: Word, b: Word, rf: Regs, wb: MemWb)
    requires OnCode(s) && !IsSystem(OpField(Fetch(s)))
    requires Holds(ide, Fetch(s), held, s.pc + 1) && Operands(s, ide, a, b) && Older(s, rf, wb)
    requires OpField(Fetch(s)) == PUSH
    ensures Committed(s, ide, rf, wb, ExRegister(ide, a, b, rf))
  {
  }

  lemma CommitPop(s: Arch, held: Regs, ide: IdEx, a: Word, b: Word, rf: Regs, wb: MemWb)
    requires OnCode(s) && !IsSystem(OpField(Fetch(s)))
    requires Holds(ide, Fetch(s), held, s.pc + 1) && Operands(s, ide, a, b) && Older(s, rf, wb)
    requires OpField(Fetch(s)) == POP
    ensures Committed(s, ide, rf, wb, ExRegister(ide, a, b, rf))
  {
  }

  lemma CommitLoad(s: Arch, held: Regs, ide: IdEx, a: Word, b: Word, rf: Regs, wb: MemWb)
    requires OnCode(s) && !IsSystem(OpField(Fetch(s)))
    requires Holds(ide, Fetch(s), held, s.pc + 1) && Operands(s, ide, a, b) && Older(s, rf, wb)
    requires IsLoad(OpField(Fetch(s)))
    ensures Committed(s, ide, rf, wb, ExRegister(ide, a, b, rf))
  {
  }

  lemma CommitStore(s: Arch, held: Regs, ide: IdEx, a: Word, b: Word, rf: Regs, wb: MemWb)
    requires OnCode(s) && !IsSystem(OpField(Fetch(s)))
    requires Holds(ide, Fetch(s), held, s.pc + 1) && Operands(s, ide, a, b) && Older(s, rf, wb)
    requires IsStore(OpField(Fetch(s)))
    ensures Committed(s, ide, rf, wb, ExRegister(ide, a, b, rf))
  {
  }

  lemma CommitBranch(s: Arch, held: Regs, ide: IdEx, a: Word, b: Word, rf: Regs, wb: MemWb)
    requires OnCode(s) && !IsSystem(OpField(Fetch(s)))
    requires Holds(ide, Fetch(s), held, s.pc + 1) && Operands(s, ide, a, b) && Older(s, rf, wb)
    requires IsBranch(OpField(Fetch(s)))
    ensures Committed(s, ide, rf, wb, ExRegister(ide, a, b, rf))
  {
    var x := ExRegister(ide, a, b, rf);
    assert x.ctrl == Control.IDLE.(branch := true);
  }

  lemma CommitRegisterJump(s: Arch, held: Regs, ide: IdEx, a: Word, b: Word, rf: Regs, wb: MemWb)
    requires OnCode(s) && !IsSystem(OpField(Fetch(s)))
    requires Holds(ide, Fetch(s), held, s.pc + 1) && Operands(s, ide, a, b) && Older(s, rf, wb)
    requires OpField(Fetch(s)) == JMPR || OpField(Fetch(s)) == CALLR
    ensures Committed(s, ide, rf, wb, ExRegister(ide, a, b, rf))
  {
    hide Alu.Execute, LoadValue, StoreValue, Pipeline.EvalBranch;
  }

  lemma CommitJump(s: Arch, held: Regs, ide: IdEx, a: Word, b: Word, rf: Regs, wb: MemWb)
    requires OnCode(s) && !IsSystem(OpField(Fetch(s)))
    requires Holds(ide, Fetch(s), held, s.pc + 1) && Operands(s, ide, a, b) && Older(s, rf, wb)
    requires OpField(Fetch(s)) == JMP
    ensures Committed(s, ide, rf, wb, ExRegister(ide, a, b, rf))
  {
    hide Alu.Execute, LoadValue, StoreValue, Pipeline.EvalBranch;
  }

  lemma CommitCall(s: Arch, held: Regs, ide: IdEx, a: Word, b: Word, rf: Regs, wb: MemWb)
    requires OnCode(s) && !IsSystem(OpField(Fetch(s)))
    requires Holds(ide, Fetch(s), held, s.pc + 1) && Operands(s, ide, a, b) && Older(s, rf, wb)
    requires OpField(Fetch(s)) == CALL
    ensures Committed(s, ide, rf, wb, ExRegister(ide, a, b, rf))
  {
    hide Alu.Execute, LoadValue, StoreValue, Pipeline.EvalBranch;
  }

  lemma CommitReturn(s: Arch, held: Regs, ide: IdEx, a: Word, b: Word, rf: Regs, wb: MemWb)
    requires OnCode(s) && !IsSystem(OpField(Fetch(s)))
    requires Holds(ide, Fetch(s), held, s.pc + 1) && Operands(s, ide, a, b) && Older(s, rf, wb)
    requires OpField(Fetch(s)) == RET
    ensures Committed(s, ide, rf, wb, ExRegister(ide, a, b, rf))
  {
    hide Alu.Execute, LoadValue, StoreValue, Pipeline.EvalBranch;
  }

  lemma CommitIdle(s: Arch, held: Regs, ide: IdEx, a: Word, b: Word, rf: Regs, wb: MemWb)
    requires OnCode(s) && !IsSystem(OpField(Fetch(s)))
    requires Holds(ide, Fetch(s), held, s.pc + 1) && Operands(s, ide, a, b) && Older(s, rf, wb)
    requires NOP <= OpField(Fetch(s))
    ensures Committed(s, ide, rf, wb, ExRegister(ide, a, b, rf))
  {
    hide Alu.Execute, LoadValue, StoreValue, Pipeline.EvalBranch;
  }

  lemma Commit(s: Arch, held: Regs, ide: IdEx, a: Word, b: Word, rf: Regs, wb: MemWb)
    requires OnCode(s) && !IsSystem(OpField(Fetch(s)))
    requires Holds(ide, Fetch(s), held, s.pc + 1) && Operands(s, ide, a, b) && Older(s, rf, wb)
    requires IsShiftImmediate(OpField(Fetch(s))) ==> Field15(Fetch(s)) == 0
    ensures Committed(s, ide, rf, wb, ExRegister(ide, a, b, rf))
  {
    var op := OpField(Fetch(s));
    if IsRegisterAlu(op) {
      CommitRegisterAlu(s, held, ide, a, b, rf, wb);
    } else if IsImmediateAlu(op) {
      CommitImmediateAlu(s, held, ide, a, b, rf, wb);
    } else if op == MOVHI {
      CommitMovhi(s, held, ide, a, b, rf, wb);
    } else if op == PUSH {
      CommitPush(s, held, ide, a, b, rf, wb);
    } else if op == POP {
      CommitPop(s, held, ide, a, b, rf, wb);
    } else if IsLoad(op) {
      CommitLoad(s, held, ide, a, b, rf, wb);
    } else if IsStore(op) {
      CommitStore(s, held, ide, a, b, rf, wb);
    } else if IsBranch(op) {
      CommitBranch(s, held, ide, a, b, rf, wb);
    } else if op == JMPR || op == CALLR {
      CommitRegisterJump(s, held, ide, a, b, rf, wb);
    } else if op == JMP {
      CommitJump(s, held, ide, a, b, rf, wb);
    } else if op == CALL {
      CommitCall(s, held, ide, a, b, rf, wb);
    } else if op == RET {
      CommitReturn(s, held, ide, a, b, rf, wb);
    } else {
      CommitIdle(s, held, ide, a, b, rf, wb);
    }
  }

  // ---- One cycle, by what is in the pipeline

  lemma StepFrozen(c: Cpu, s: Arch)
    requires Rel(c, s) && !c.halted && c.execStall > 0
    ensures Rel(Clock(c), s)
  {
  }

  lemma StepHaltInMemWb(c: Cpu, s: Arch)
    requires Rel(c, s) && !c.halted && c.execStall == 0 && HaltInMemWb(c)
    ensures Rel(Clock(c), s) && Clock(c).halted
  {
    var c1 := StageWb(c);
    assert c1.halted && c1.rf == c.rf;
    var c3 := StageEx(StageMem(c1), c1.exmem, c1.memwb);
    assert c3.rf == c.rf && c3.mem == c.mem && !c3.trapped;
  }

  lemma StepHaltInExMem(c: Cpu, s: Arch)
    requires Rel(c, s) && !c.halted && c.execStall == 0 && !HaltInMemWb(c) && HaltInExMem(c)
    ensures Rel(Clock(c), s) && !Clock(c).halted && HaltInMemWb(Clock(c))
  {
    var c1 := StageWb(c);
    var c3 := StageEx(StageMem(c1), c1.exmem, c1.memwb);
    assert c3.rf == s.regs && c3.mem == c.mem && !c3.trapped;
    assert !c3.exmem.valid || !c3.exmem.ctrl.memWrite;
    assert !StageId(c3).idex.valid || Stall(c3);
  }

  /** The state after WB, MEM and EX. */
  function AfterEx(c: Cpu): Cpu {
    var c1 := StageWb(c);
    StageEx(StageMem(c1), c1.exmem, c1.memwb)
  }

  /** EX on a cancellable register leaves registers and memory to the older instructions. */
  lemma CancelledExecution(c: Cpu)
    requires Cancellable(c.idex)
    ensures AfterEx(c).rf == WriteBack(c.rf, c.memwb)
    ensures AfterEx(c).mem == CompletedMem(c)
    ensures AfterEx(c).memwb == MemRegister(c.exmem, c.mem)
    ensures AfterEx(c).trapped == c.trapped
  {
  }

  /** c3 after EX holds the architectural state, up to the register write that MEM/WB carries. */
  predicate Settled(c3: Cpu, s: Arch) {
    !c3.trapped && !c3.halted && !HaltInMemWb(c3) && s.regs == WriteBack(c3.rf, c3.memwb) && s.mem == c3.mem
  }

  lemma EnterTarget(c3: Cpu, s: Arch)
    requires Settled(c3, s) && OnCode(s)
    ensures Rel(Redirect(StageId(c3), s.pc), s)
  {
    var c4 := StageId(c3);
    assert c4.rf == c3.rf && c4.mem == c3.mem && c4.memwb == c3.memwb;
  }

  lemma EnterNext(c3: Cpu, s: Arch)
    requires Settled(c3, s) && !c3.exmem.valid && !c3.idex.valid && InFlight(c3, s)
    ensures Rel(StageIf(StageId(c3)), s)
  {
    var c4 := StageId(c3);
    assert c4.ifid == c3.ifid && c4.pc == c3.pc && c4.idex.valid == c3.ifid.valid;
    assert c3.ifid.valid ==> Holds(c4.idex, Fetch(s), c3.rf, s.pc + 1);
  }

  lemma StepJump(c: Cpu, s: Arch)
    requires Rel(c, s) && !c.halted && c.execStall == 0 && !HaltInMemWb(c) && !HaltInExMem(c) && JumpPending(c.exmem)
    ensures Rel(Clock(c), s)
  {
    CancelledExecution(c);
    EnterTarget(AfterEx(c), s);
  }

  lemma StepFetch(c: Cpu, s: Arch)
    requires Rel(c, s) && !c.halted && c.execStall == 0 && !HaltInMemWb(c) && !HaltInExMem(c)
    requires !JumpPending(c.exmem) && !c.idex.valid
    ensures Rel(Clock(c), s)
  {
    CancelledExecution(c);
    EnterNext(AfterEx(c), s);
  }

  lemma StoreFrame(s: Arch, i: nat)
    requires OnCode(s) && i < MEM_SIZE && i != StoreIndex(s)
    ensures IsaStep(s).mem[i] == s.mem[i]
  {
  }

  /** How the signals of a decoded word relate to what the hazard rules say of it. */
  predicate SignalsOf(ide: IdEx, w: Word) {
    && ide.valid && !Traps(ide)
    && (ide.ctrl.halt <==> OpField(w) == HLT)
    && (ide.ctrl.halt ==> !ide.ctrl.branch && !ide.ctrl.jump && !ide.ctrl.isNop)
    && (ide.ctrl.regWrite && ide.rd != 0 && !ide.ctrl.jump ==> ide.rd == Writes(w))
    && (ide.ctrl.memRead ==> IsLoad(OpField(w)) || OpField(w) == POP)
    && (ide.ctrl.memRead && !ide.ctrl.pop <==> IsLoad(OpField(w)))
    && (IsLoad(OpField(w)) ==> ide.rd == Field25(w))
    && (ide.ctrl.jump ==> JMP <= OpField(w) <= RET)
    && (ide.ctrl.jump ==>
         !ide.ctrl.push && !ide.ctrl.pop && !ide.ctrl.memRead && !ide.ctrl.memWrite && !ide.ctrl.branch)
    && (ide.ctrl.isNop ==> !ide.ctrl.regWrite && !ide.ctrl.memRead && !ide.ctrl.jump)
    && (ide.ctrl.call <==> OpField(w) == CALL || OpField(w) == CALLR)
    && (!ActsEarly(OpField(w)) ==> Cancellable(ide))
    && (ide.ctrl.memWrite <==> IsStore(OpField(w)) || OpField(w) == PUSH)
  }

  lemma DecodedSignals(w: Word, held: Regs, ide: IdEx, pcPlus1: nat)
    requires !IsSystem(OpField(w)) && Holds(ide, w, held, pcPlus1)
    ensures SignalsOf(ide, w)
  {
    var op := OpField(w);
    if Defined(op) {
      assert ide.ctrl == Control.Decode(w) && ide.opcode == op;
    }
  }

  lemma ExecutedSignals(ide: IdEx, w: Word, a: Word, b: Word, rf: Regs, next: Word)
    requires SignalsOf(ide, w)
    ensures var x := ExRegister(ide, a, b, rf);
            && x.valid && (x.ctrl.halt <==> OpField(w) == HLT) && (x.ctrl.halt ==> !x.takeJump)
            && (!x.takeJump && x.ctrl.regWrite && x.rd != 0 ==> x.rd == Writes(w))
            && (x.ctrl.memRead ==> IsLoad(OpField(w)) || OpField(w) == POP)
            && (DetectLoadUse(ide, next) <==> Stalls(w, next))
  {
  }

  lemma ReadyNext(x: ExMem, w: Word, next: Word)
    requires x.ctrl.regWrite && x.rd != 0 ==> x.rd == Writes(w)
    requires x.ctrl.memRead ==> IsLoad(OpField(w)) || OpField(w) == POP
    requires MayFollow(w, next) && !Stalls(w, next)
    ensures Ready(x, next)
  {
  }

  lemma IdKeeps(c: Cpu)
    ensures StageId(c) == c.(idex := StageId(c).idex)
  {
    hide IdRegister, OpField, FlushIdEx, Stall;
  }

  lemma IfKeeps(c: Cpu)
    ensures StageIf(c) == c.(ifid := StageIf(c).ifid, pc := StageIf(c).pc)
    ensures c.fetchStopped ==> !StageIf(c).ifid.valid
  {
  }

  /** ID and IF touch only their own registers and the program counter. */
  lemma FrontEndKeeps(c3: Cpu)
    ensures var c4 := StageIf(StageId(c3));
            && c4.trapped == c3.trapped && c4.halted == c3.halted && c4.rf == c3.rf && c4.mem == c3.mem
            && c4.memwb == c3.memwb && c4.exmem == c3.exmem && c4.idex == StageId(c3).idex
            && c4.fetchStopped == c3.fetchStopped && (c3.fetchStopped ==> !c4.ifid.valid)
  {
    hide *;
    IdKeeps(c3);
    IfKeeps(StageId(c3));
  }

  /** Without a stall, ID/EX holds the word of IF/ID. */
  lemma DecodedNext(c: Cpu)
    requires !Stall(c)
    ensures StageId(c).idex.valid == c.ifid.valid
    ensures c.ifid.valid ==> Holds(StageId(c).idex, c.ifid.instruction, c.rf, c.ifid.pcPlus1)
  {
    hide Stall, Isa.Decode, Control.Decode;
  }

  /** IF fetches the word at the program counter, if there is one. */
  lemma FetchedNext(c: Cpu)
    requires !c.fetchStopped
    ensures StageIf(c).ifid.valid == (c.pc < MEM_SIZE) && StageIf(c).pc == c.pc + (if c.pc < MEM_SIZE then 1 else 0)
    ensures c.pc < MEM_SIZE ==> StageIf(c).ifid == IfId(c.mem[c.pc], c.pc + 1, true)
  {
  }

  /** From EX to the next boundary, for an instruction that neither jumps nor halts. */
  lemma EnterSequential(c3: Cpu, s: Arch)
    requires !c3.trapped && !c3.halted && !HaltInMemWb(c3) && !HaltInExMem(c3) && !JumpPending(c3.exmem)
    requires s.regs == CompletedRegs(c3) && s.mem == CompletedMem(c3)
    requires !c3.fetchStopped && c3.pc == s.pc + (if c3.ifid.valid then 1 else 0)
    requires c3.ifid.valid ==> s.pc < MEM_SIZE && c3.ifid == IfId(s.mem[s.pc], s.pc + 1, true)
    requires c3.ifid.valid && !Stall(c3) ==> Ready(c3.exmem, c3.ifid.instruction)
    requires c3.pc < MEM_SIZE ==> c3.mem[c3.pc] == s.mem[c3.pc]
    ensures Stall(c3) ==> Rel(c3.(idex := FlushIdEx(c3.idex)), s)
    ensures !Stall(c3) ==> Rel(StageIf(StageId(c3)), s)
  {
    if !Stall(c3) {
      FrontEndKeeps(c3);
      DecodedNext(c3);
      FetchedNext(StageId(c3));
      IdKeeps(c3);
    }
    hide StageId, StageIf, MemRegister, MemContents, WriteBack, Stall, IdRegister, Ready, OpField, Defined;
  }

  /** From EX to the next boundary, for a taken jump: what ID decodes next can be cancelled. */
  lemma EnterShadow(c3: Cpu, s: Arch)
    requires !c3.trapped && !c3.halted && !HaltInMemWb(c3) && !HaltInExMem(c3) && JumpPending(c3.exmem)
    requires s.regs == CompletedRegs(c3) && s.mem == CompletedMem(c3) && c3.exmem.jumpPc == s.pc < MEM_SIZE
    requires !Stall(c3) && Cancellable(StageId(c3).idex)
    ensures Rel(StageIf(StageId(c3)), s)
  {
    FrontEndKeeps(c3);
    hide StageId, StageIf, MemRegister, MemContents, WriteBack, Cancellable;
  }

  /** From EX to the next boundary, for HLT. */
  lemma EnterHalt(c3: Cpu, s: Arch)
    requires Settled(c3, s) && AtHalt(s) && HaltInExMem(c3) && !JumpPending(c3.exmem)
    requires CompletedMem(c3) == s.mem && c3.fetchStopped && !Stall(c3)
    requires Cancellable(StageId(c3).idex) && (StageId(c3).idex.valid ==> !StageId(c3).idex.ctrl.memWrite)
    ensures Rel(StageIf(StageId(c3)), s)
  {
    FrontEndKeeps(c3);
    hide StageId, StageIf, MemContents, WriteBack, Cancellable;
  }

  lemma OperandsForwarded(c: Cpu, s: Arch)
    requires Rel(c, s) && Commits(c) && OnCode(s)
    ensures Operands(s, c.idex, OperandA(c.idex, c.exmem, c.memwb), OperandB(c.idex, c.exmem, c.memwb))
    ensures Older(s, WriteBack(c.rf, c.memwb), MemRegister(c.exmem, c.mem))
  {
    var w := Fetch(s);
    if ReadsFirst(w, c.idex.rs1) { ForwardingInvariant(c, c.idex.rs1); }
    if ReadsSecond(w, c.idex.rs2) { ForwardingInvariant(c, c.idex.rs2); }
  }

  /** EX turns the architectural state s into the next one. */
  lemma ExecuteCommits(c: Cpu, s: Arch)
    requires Rel(c, s) && Commits(c) && (OnCode(s) ==> Ordinary(Fetch(s)))
    ensures OnCode(s) && SignalsOf(c.idex, Fetch(s))
    ensures Committed(s, c.idex, WriteBack(c.rf, c.memwb), AfterEx(c).memwb, AfterEx(c).exmem)
  {
    var w := Fetch(s);
    DecodedSignals(w, c.rf, c.idex, s.pc + 1);
    OperandsForwarded(c, s);
    Commit(s, c.rf, c.idex, OperandA(c.idex, c.exmem, c.memwb), OperandB(c.idex, c.exmem, c.memwb),
           WriteBack(c.rf, c.memwb), MemRegister(c.exmem, c.mem));
  }

  /** The word that ID decodes behind a taken jump or HLT leaves no trace. */
  lemma ShadowCancellable(c3: Cpu, next: Word)
    requires !Stall(c3) && (c3.ifid.valid ==> c3.ifid.instruction == next) && !ActsEarly(OpField(next))
    ensures Cancellable(StageId(c3).idex)
    ensures StageId(c3).idex.valid && !IsStore(OpField(next)) ==> !StageId(c3).idex.ctrl.memWrite
  {
    if c3.ifid.valid {
      DecodedSignals(next, c3.rf, StageId(c3).idex, c3.ifid.pcPlus1);
    }
  }

  /** The cycle that executes, from EX on. */
  lemma ClockFromEx(c: Cpu)
    requires Commits(c) && !AfterEx(c).trapped
    ensures var c3 := AfterEx(c);
            && Clock(c) == (if Stall(c3) then c3.(idex := FlushIdEx(c3.idex)) else StageIf(StageId(c3)))
            && c3.pc == c.pc && c3.ifid == c.ifid && c3.idex == c.idex && !c3.halted
            && c3.memwb == MemRegister(c.exmem, c.mem) && c3.mem == CompletedMem(c)
            && c3.exmem == ExRegister(c.idex, OperandA(c.idex, c.exmem, c.memwb), OperandB(c.idex, c.exmem, c.memwb),
                                      WriteBack(c.rf, c.memwb))
            && c3.rf == ExRegs(c.idex, WriteBack(c.rf, c.memwb))
            && c3.fetchStopped == (c.fetchStopped || (Executes(c.idex) && c.idex.ctrl.halt))
  {
    hide IdRegister, OperandA, OperandB, MemRegister, MemContents, ExRegister, ExRegs, OpField;
  }

  /** What is behind EX, once EX has turned s into its successor: the next word, if it was fetched. */
  predicate Behind(c3: Cpu, s: Arch)
    requires OnCode(s)
  {
    var s' := IsaStep(s);
    && !c3.trapped && !c3.halted && !HaltInMemWb(c3) && (HaltInExMem(c3) <==> AtHalt(s))
    && s'.regs == CompletedRegs(c3) && s'.mem == CompletedMem(c3) && c3.mem == s.mem
    && c3.fetchStopped == AtHalt(s)
    && JumpPending(c3.exmem) == TakesJump(s)
    && s'.pc == (if TakesJump(s) then c3.exmem.jumpPc else if AtHalt(s) then s.pc else s.pc + 1)
    && c3.pc == s.pc + 1 + (if c3.ifid.valid then 1 else 0)
    && (c3.ifid.valid ==> s.pc + 1 < MEM_SIZE && c3.ifid == IfId(s.mem[s.pc + 1], s.pc + 2, true))
    && (Stall(c3) <==> Stalls(Fetch(s), c3.ifid.instruction))
  }

  lemma CommitBehind(c: Cpu, s: Arch)
    requires Rel(c, s) && Commits(c) && (OnCode(s) ==> Ordinary(Fetch(s)))
    ensures OnCode(s) && Behind(AfterEx(c), s)
    ensures var x := AfterEx(c).exmem;
            !TakesJump(s) ==> (x.ctrl.regWrite && x.rd != 0 ==> x.rd == Writes(Fetch(s)))
                              && (x.ctrl.memRead ==> IsLoad(OpField(Fetch(s))) || OpField(Fetch(s)) == POP)
  {
    ExecuteCommits(c, s);
    ExecutedSignals(c.idex, Fetch(s), OperandA(c.idex, c.exmem, c.memwb), OperandB(c.idex, c.exmem, c.memwb),
                    WriteBack(c.rf, c.memwb), c.ifid.instruction);
    ClockFromEx(c);
    hide AfterEx, Clock, OperandA, OperandB, ExRegister, ExRegs, MemRegister, MemContents, Isa.Decode, Ordinary,
      IsaStep;
  }

  /** A taken jump is no load: the hazard unit never holds back the word behind it. */
  lemma StallsNotAfterJump(s: Arch, next: Word)
    requires OnCode(s) && TakesJump(s)
    ensures !Stalls(Fetch(s), next)
  {
  }

  lemma CommitJumping(c3: Cpu, s: Arch)
    requires OnCode(s) && SafeAt(s) && Behind(c3, s) && TakesJump(s)
    ensures Rel(StageIf(StageId(c3)), IsaStep(s)) && !Stall(c3)
  {
    StallsNotAfterJump(s, c3.ifid.instruction);
    hide Isa.Decode, IsaStep, Stalls, StageId, StageIf, Rel, MayFollow, StoreIndex, MemContents, WriteBack;
    ShadowCancellable(c3, NextWord(s));
    EnterShadow(c3, IsaStep(s));
  }

  lemma CommitHalting(c3: Cpu, s: Arch)
    requires OnCode(s) && SafeAt(s) && Behind(c3, s) && AtHalt(s)
    ensures Rel(StageIf(StageId(c3)), IsaStep(s)) && !Stall(c3)
  {
    HaltLoops(s);
    hide Isa.Decode, IsaStep, StageId, StageIf, Rel, MayFollow, StoreIndex, TakesJump;
    ShadowCancellable(c3, NextWord(s));
    EnterHalt(c3, IsaStep(s));
  }

  lemma HaltLoops(s: Arch)
    requires AtHalt(s)
    ensures IsaStep(s) == s && !TakesJump(s)
  {
  }

  lemma CommitOnward(c3: Cpu, s: Arch)
    requires OnCode(s) && SafeAt(s) && Behind(c3, s) && !TakesJump(s) && !AtHalt(s)
    requires c3.exmem.ctrl.regWrite && c3.exmem.rd != 0 ==> c3.exmem.rd == Writes(Fetch(s))
    requires c3.exmem.ctrl.memRead ==> IsLoad(OpField(Fetch(s))) || OpField(Fetch(s)) == POP
    ensures Rel(if Stall(c3) then c3.(idex := FlushIdEx(c3.idex)) else StageIf(StageId(c3)), IsaStep(s))
  {
    hide Isa.Decode, IsaStep, StageId, StageIf, Rel, MayFollow, StoreIndex, TakesJump, Stall, Stalls, MemContents,
      WriteBack;
    if s.pc + 1 < MEM_SIZE { StoreFrame(s, s.pc + 1); }
    if s.pc + 2 < MEM_SIZE { StoreFrame(s, s.pc + 2); }
    if c3.ifid.valid && !Stall(c3) { ReadyNext(c3.exmem, Fetch(s), NextWord(s)); }
    EnterSequential(c3, IsaStep(s));
  }

  lemma StepCommit(c: Cpu, s: Arch)
    requires Rel(c, s) && Commits(c) && SafeAt(s)
    ensures Rel(Clock(c), IsaStep(s))
  {
    CommitBehind(c, s);
    ClockFromEx(c);
    hide AfterEx, Clock, Rel, SafeAt, Commits, TakesJump, AtHalt, StageId, StageIf, Stall;
    var c3 := AfterEx(c);
    if TakesJump(s) {
      CommitJumping(c3, s);
    } else if AtHalt(s) {
      CommitHalting(c3, s);
    } else {
      CommitOnward(c3, s);
    }
  }
}
