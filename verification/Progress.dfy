/** Whole runs of the pipeline: refinement, bounded delay between instructions, and halting. */
module Progress {
  import opened Words
  import opened Isa
  import opened Memory
  import opened Registers
  import opened Pipeline
  import opened Sequential
  import opened Refinement
  import Alu
  import Control

  // ---- Runs

  /** How many instructions the first n cycles execute. */
  function Retired(c: Cpu, n: nat): nat {
    if n == 0 then 0 else Retired(c, n - 1) + if Commits(Cycles(c, n - 1)) then 1 else 0
  }

  lemma StepRefines(c: Cpu, s: Arch)
    requires Rel(c, s) && SafeAt(s)
    ensures Rel(Step(c), if Commits(c) then IsaStep(s) else s)
  {
    if c.halted {
    } else if c.execStall > 0 {
      StepFrozen(c, s);
    } else if HaltInMemWb(c) {
      StepHaltInMemWb(c, s);
    } else if HaltInExMem(c) {
      StepHaltInExMem(c, s);
    } else if JumpPending(c.exmem) {
      StepJump(c, s);
    } else if c.idex.valid {
      StepCommit(c, s);
    } else {
      StepFetch(c, s);
    }
  }

  /** After any number of cycles the pipeline stands for the sequential machine after the
      instructions it has executed. */
  lemma {:induction false} Refines(c: Cpu, s: Arch, n: nat)
    requires Rel(c, s) && SafeRun(s)
    ensures Rel(Cycles(c, n), IsaRun(s, Retired(c, n)))
  {
    hide Clock, Rel, SafeAt, IsaStep;
    if n > 0 {
      Refines(c, s, n - 1);
      StepRefines(Cycles(c, n - 1), IsaRun(s, Retired(c, n - 1)));
    }
  }

  function Initial(mem: Mem, start: nat): Arch {
    Arch(SetReg(seq(NUM_REGISTERS, (i: int) => 0), SP_REG, SP_INIT), mem, start)
  }

  lemma ResetRelated(mem: Mem, start: nat)
    ensures Rel(Reset(mem, start), Initial(mem, start))
  {
  }

  // ---- Delay

  /** An upper bound on the cycles that pass before an instruction executes or the machine halts. */
  function Delay(c: Cpu): nat {
    c.execStall +
    if HaltInMemWb(c) then 1
    else if HaltInExMem(c) || JumpPending(c.exmem) then 33
    else if c.idex.valid then 0
    else if c.ifid.valid then 1
    else 2
  }

  lemma FrontEndKeepsLatency(c: Cpu, target: nat)
    ensures StageId(c).execStall == StageIf(c).execStall == Redirect(c, target).execStall == c.execStall
  {
    hide Stall, IdRegister;
  }

  lemma LatencyBound(c: Cpu)
    requires c.execStall == 0
    ensures Clock(c).execStall <= 31
    ensures !UsesAlu(c.idex) ==> Clock(c).execStall == 0
  {
    hide StageId, StageIf, Redirect, Stall, ExRegister, ExRegs;
    var c3 := AfterEx(c);
    FrontEndKeepsLatency(c3, 0);
    FrontEndKeepsLatency(StageId(c3), c.exmem.jumpPc);
  }

  lemma RedirectDelay(c: Cpu)
    requires c.execStall == 0 && !HaltInExMem(c) && JumpPending(c.exmem) && c.exmem.jumpPc < MEM_SIZE
             && Cancellable(c.idex)
    requires !c.trapped
    ensures Delay(Clock(c)) <= 32
  {
    hide Alu.Execute, IdRegister, LoadValue, StoreValue, Control.Decode, EvalBranch, Isa.Decode;
    CancelledExecution(c);
    LatencyBound(c);
    assert Clock(c) == Redirect(StageId(AfterEx(c)), c.exmem.jumpPc);
  }

  lemma FetchDelay(c: Cpu)
    requires c.execStall == 0 && !HaltInMemWb(c) && !HaltInExMem(c) && !JumpPending(c.exmem) && !c.idex.valid
             && !c.trapped
    requires !c.fetchStopped && (c.ifid.valid || c.pc < MEM_SIZE)
    ensures Delay(Clock(c)) < Delay(c)
  {
    hide Alu.Execute, LoadValue, StoreValue, Control.Decode, EvalBranch, Isa.Decode;
    CancelledExecution(c);
    LatencyBound(c);
    var c3 := AfterEx(c);
    assert !Stall(c3) && Clock(c) == StageIf(StageId(c3));
  }

  /** Every cycle that executes nothing brings the next instruction nearer. */
  lemma DelayDrops(c: Cpu, s: Arch)
    requires Rel(c, s) && OnCode(s) && !c.halted && !Commits(c)
    ensures Delay(c) > 0 && (Step(c).halted || Delay(Step(c)) < Delay(c))
  {
    hide StageWb, StageMem, StageEx, StageId, StageIf, Redirect;
    if c.execStall > 0 {
    } else if HaltInMemWb(c) {
      StepHaltInMemWb(c, s);
    } else if HaltInExMem(c) {
      StepHaltInExMem(c, s);
      LatencyBound(c);
    } else if JumpPending(c.exmem) {
      RedirectDelay(c);
    } else {
      FetchDelay(c);
    }
  }

  lemma DelayBound(c: Cpu, s: Arch)
    requires Rel(c, s) && Commits(c) && SafeAt(s)
    ensures Delay(Step(c)) <= 33
  {
    hide Alu.Execute, IdRegister, LoadValue, StoreValue, Control.Decode, EvalBranch, Isa.Decode, ReadsUnforwarded,
      Reads;
  }

  lemma IsaRunFront(s: Arch, k: nat)
    ensures IsaRun(s, k + 1) == IsaRun(IsaStep(s), k)
  {
    hide IsaStep;
    if k > 0 { IsaRunFront(s, k - 1); }
  }

  lemma CyclesFront(c: Cpu, n: nat)
    ensures Cycles(c, n + 1) == Cycles(Step(c), n)
  {
    hide Step;
    if n > 0 { CyclesFront(c, n - 1); }
  }

  lemma RetiredFront(c: Cpu, n: nat)
    ensures Retired(c, n + 1) == (if Commits(c) then 1 else 0) + Retired(Step(c), n)
  {
    hide Step, Commits;
    CyclesFront(c, n);
    if n > 0 {
      RetiredFront(c, n - 1);
      CyclesFront(c, n - 1);
    }
  }

  lemma SafeRunStep(s: Arch)
    requires SafeRun(s)
    ensures SafeAt(s) && SafeRun(IsaStep(s))
  {
    hide SafeAt, IsaStep;
    assert SafeAt(IsaRun(s, 0));
    forall k: nat
      ensures SafeAt(IsaRun(IsaStep(s), k))
    {
      IsaRunFront(s, k);
    }
  }

  lemma HaltIsFinal(s: Arch, k: nat)
    requires AtHalt(s)
    ensures IsaRun(s, k) == s
  {
    if k > 0 { HaltIsFinal(s, k - 1); }
  }

  lemma StuckIsFinal(s: Arch, k: nat)
    requires !OnCode(s)
    ensures IsaRun(s, k) == s
  {
    if k > 0 { StuckIsFinal(s, k - 1); }
  }

  /** While the sequential machine has an instruction to execute, at most Delay(c) + 1 cycles pass
      before the pipeline executes it or halts. */
  lemma {:induction false} NextCommit(c: Cpu, s: Arch) returns (n: nat)
    requires Rel(c, s) && SafeAt(s) && OnCode(s) && !c.halted
    ensures n <= Delay(c)
    ensures Commits(Cycles(c, n)) || Cycles(c, n).halted
    ensures Retired(c, n) == 0 && Rel(Cycles(c, n), s)
    decreases Delay(c)
  {
    hide Clock, Step, Rel, SafeAt, Commits;
    if Commits(c) {
      n := 0;
    } else {
      StepRefines(c, s);
      DelayDrops(c, s);
      if Step(c).halted {
        n := 1;
        assert Cycles(c, 1) == Step(Cycles(c, 0)) && Retired(c, 1) == Retired(c, 0) + 0;
      } else {
        n := NextCommit(Step(c), s);
        CyclesFront(c, n);
        RetiredFront(c, n);
        n := n + 1;
      }
    }
  }

  predicate HaltInFlight(c: Cpu) { HaltInMemWb(c) || HaltInExMem(c) }

  lemma CommitHalt(c: Cpu, s: Arch)
    requires Rel(c, s) && Commits(c) && SafeAt(s) && AtHalt(s)
    ensures HaltInFlight(Step(c))
  {
    hide Alu.Execute, LoadValue, StoreValue, EvalBranch, Reads, ReadsUnforwarded, TakesJump, StoreIndex;
    DecodedSignals(Fetch(s), c.rf, c.idex, s.pc + 1);
    assert HaltInExMem(AfterEx(c)) && !AfterEx(c).trapped;
  }

  lemma HaltStays(c: Cpu, s: Arch)
    requires Rel(c, s) && HaltInFlight(c) && !c.halted
    ensures HaltInFlight(Step(c)) || Step(c).halted
  {
    hide StageWb, StageMem, StageEx, StageId, StageIf, Redirect;
    if c.execStall > 0 {
    } else if HaltInMemWb(c) {
      StepHaltInMemWb(c, s);
    } else {
      StepHaltInExMem(c, s);
    }
  }

  /** If the sequential machine halts after at most K instructions, so does the pipeline, within
      34 cycles per instruction. */
  lemma {:induction false} HaltsWithin(c: Cpu, s: Arch, K: nat) returns (n: nat)
    requires Rel(c, s) && SafeRun(s) && AtHalt(IsaRun(s, K)) && Delay(c) <= 33
    ensures n <= Delay(c) + (if HaltInFlight(c) then 0 else 34 * (K + 1))
    ensures Cycles(c, n).halted
    decreases K, if HaltInFlight(c) then 0 else 1, Delay(c)
  {
    hide Clock, Step, Rel, SafeAt, IsaStep;
    n := 0;
    if c.halted {
      return;
    }
    SafeRunStep(s);
    if !OnCode(s) { StuckIsFinal(s, K); }
    StepRefines(c, s);
    if Commits(c) {
      DelayBound(c, s);
      if AtHalt(s) {
        HaltIsFinal(s, 1);
        CommitHalt(c, s);
        n := HaltsWithin(Step(c), s, K);
      } else {
        IsaRunFront(s, K - 1);
        n := HaltsWithin(Step(c), IsaStep(s), K - 1);
      }
    } else {
      DelayDrops(c, s);
      if HaltInFlight(c) { HaltStays(c, s); }
      if !Step(c).halted { n := HaltsWithin(Step(c), s, K); }
    }
    CyclesFront(c, n);
    n := n + 1;
  }

  /** A halted pipeline holds the final registers and memory of the sequential machine. */
  lemma PipelineSound(mem: Mem, start: nat, n: nat)
    requires SafeRun(Initial(mem, start)) && Cycles(Reset(mem, start), n).halted
    ensures var c, s := Cycles(Reset(mem, start), n), IsaRun(Initial(mem, start), Retired(Reset(mem, start), n));
            AtHalt(s) && c.rf == s.regs && c.mem == s.mem
  {
    hide Clock, Step, SafeAt, IsaStep;
    ResetRelated(mem, start);
    Refines(Reset(mem, start), Initial(mem, start), n);
  }

  /** If the sequential machine reaches HLT after k instructions, the pipeline halts within 34 cycles
      per instruction, with the same registers and memory. */
  lemma PipelineComplete(mem: Mem, start: nat, k: nat) returns (n: nat)
    requires SafeRun(Initial(mem, start)) && AtHalt(IsaRun(Initial(mem, start), k))
    ensures n <= 34 * k + 36 && Cycles(Reset(mem, start), n).halted
    ensures Cycles(Reset(mem, start), n).rf == IsaRun(Initial(mem, start), k).regs
    ensures Cycles(Reset(mem, start), n).mem == IsaRun(Initial(mem, start), k).mem
  {
    hide Clock, Step, SafeAt, IsaStep, Rel, AtHalt, Cycles;
    ResetRelated(mem, start);
    n := HaltsWithin(Reset(mem, start), Initial(mem, start), k);
    PipelineSound(mem, start, n);
    HaltUnique(Initial(mem, start), k, Retired(Reset(mem, start), n));
  }

  /** The pipeline halts exactly when the sequential machine does. */
  lemma PipelineHaltsIff(mem: Mem, start: nat)
    requires SafeRun(Initial(mem, start))
    ensures (exists n: nat :: Cycles(Reset(mem, start), n).halted)
       <==> (exists k: nat :: AtHalt(IsaRun(Initial(mem, start), k)))
  {
    hide Clock, Step, SafeAt, IsaStep, AtHalt;
    if n: nat :| Cycles(Reset(mem, start), n).halted {
      PipelineSound(mem, start, n);
    }
    if k: nat :| AtHalt(IsaRun(Initial(mem, start), k)) {
      var n := PipelineComplete(mem, start, k);
    }
  }

  /** Until the machine halts, at most 33 idle cycles pass before the next instruction executes. */
  lemma BoundedStutter(mem: Mem, start: nat, n: nat) returns (m: nat)
    requires SafeRun(Initial(mem, start)) && !Cycles(Reset(mem, start), n).halted
    requires OnCode(IsaRun(Initial(mem, start), Retired(Reset(mem, start), n)))
    ensures m <= 33
    ensures Commits(Cycles(Reset(mem, start), n + m)) || Cycles(Reset(mem, start), n + m).halted
  {
    hide Clock, Step, SafeAt, IsaStep, Rel, Commits;
    var c, s := Reset(mem, start), Initial(mem, start);
    ResetRelated(mem, start);
    assert Delay(c) == 2;
    Refines(c, s, n);
    DelayStaysBounded(c, s, n);
    var s' := IsaRun(s, Retired(c, n));
    assert SafeAt(s');
    m := NextCommit(Cycles(c, n), s');
    CyclesAdd(c, n, m);
  }

  lemma {:induction false} HaltUnique(s: Arch, j: nat, k: nat)
    requires AtHalt(IsaRun(s, j)) && AtHalt(IsaRun(s, k))
    ensures IsaRun(s, j) == IsaRun(s, k)
  {
    hide IsaStep, AtHalt;
    if j < k { IsaRunAdd(s, j, k - j); HaltIsFinal(IsaRun(s, j), k - j); }
    if k < j { IsaRunAdd(s, k, j - k); HaltIsFinal(IsaRun(s, k), j - k); }
  }

  lemma CyclesAdd(c: Cpu, n: nat, m: nat)
    ensures Cycles(c, n + m) == Cycles(Cycles(c, n), m)
  {
    hide Step;
    if m > 0 { CyclesAdd(c, n, m - 1); }
  }

  lemma {:induction false} DelayStaysBounded(c: Cpu, s: Arch, n: nat)
    requires Rel(c, s) && SafeRun(s) && Delay(c) <= 33 && !Cycles(c, n).halted
    requires OnCode(IsaRun(s, Retired(c, n)))
    ensures Delay(Cycles(c, n)) <= 33
  {
    hide Clock, Step, Rel, SafeAt, IsaStep, Commits, Delay;
    if n > 0 {
      var c', s' := Cycles(c, n - 1), IsaRun(s, Retired(c, n - 1));
      Refines(c, s, n - 1);
      assert SafeAt(s');
      if c'.halted { HaltedStays(c'); }
      if !OnCode(s') { StuckIsFinal(s', 1); }
      DelayStaysBounded(c, s, n - 1);
      if Commits(c') { DelayBound(c', s'); } else { DelayDrops(c', s'); }
    }
  }

  lemma HaltedStays(c: Cpu)
    requires c.halted
    ensures Step(c).halted
  {
  }

  /** This cycle holds IF/ID back behind a load. */
  predicate StallsHere(c: Cpu) {
    c.execStall == 0 && !JumpPending(c.exmem) && !AfterEx(c).trapped && Stall(AfterEx(c))
  }

  /** Two load-use stalls never follow each other, and nothing freezes in between. */
  lemma NoSecondStall(c: Cpu)
    requires StallsHere(c)
    ensures Clock(c).execStall == 0 && !StallsHere(Clock(c))
  {
    hide ExRegister, ExRegs, IdRegister, WriteBack, MemRegister, MemContents;
  }

  // ---- Where the hazard logic has gaps: exactly which words it misses, and what EX then works on

  /** Behind a load, the hazard unit misses a read of the loaded register exactly in the store and
      branch formats, when the register stands in bits 25 to 21 and not in the two fields it looks at. */
  lemma HazardUnitMisses(w: Word, next: Word)
    requires IsLoad(OpField(w)) && Field25(w) != 0
    ensures Reads(next, Field25(w)) && !Stalls(w, next) <==>
            && (Isa.Decode(next).InstrS? || Isa.Decode(next).InstrB?)
            && Field25(next) == Field25(w) && Field20(next) != Field25(w) && Field15(next) != Field25(w)
  {
  }

  /** A missed load-use reads 0: the branch or store behind LW R1, 100(R0) sees R1 = 0 whatever was loaded. */
  lemma MissedLoadReadsZero(c: Cpu, held: Regs, a: Word, b: Word, w: Word, pcPlus1: nat, r: Reg)
    requires IsLoad(OpField(w)) && r == Field25(w) != 0 && !HaltInMemWb(c)
    requires c.exmem == ExRegister(IdRegister(w, held, pcPlus1), a, b, c.rf)
    ensures ResolveOne(CalcOne(r, c.exmem, c.memwb), c.rf[r], c.exmem, c.memwb) == 0
    ensures CompletedRegs(c)[r] == LoadValue(c.mem, c.exmem.memAddr, c.exmem.ctrl.memSize, c.exmem.ctrl.memSigned)
  {
    DecodedSignals(w, held, IdRegister(w, held, pcPlus1), pcPlus1);
  }

  /** LW R1, 100(R0) followed by BEQ R1, R0, 3 is such a pair. */
  lemma LoadThenBranchIsMissed()
    ensures var load, branch := 0x7020_0064, 0x9020_0003;
            && Isa.Decode(load) == InstrI(LW, 1, 0, 100) && Isa.Decode(branch) == InstrB(BEQ, 1, 0, 3)
            && Reads(branch, 1) && !Stalls(load, branch) && !MayFollow(load, branch)
  {
  }

  /** RET reads R31 past the forwarding paths: it goes where the instruction set says exactly when the write that
      MEM still carries (wb) leaves the target alone. */
  lemma ReturnIff(s: Arch, held: Regs, ide: IdEx, a: Word, b: Word, rf: Regs, wb: MemWb)
    requires OnCode(s) && OpField(Fetch(s)) == RET && Holds(ide, Fetch(s), held, s.pc + 1)
             && s.regs == WriteBack(rf, wb)
    ensures ExRegister(ide, a, b, rf).takeJump
    ensures ExRegister(ide, a, b, rf).jumpPc == IsaStep(s).pc <==>
              !(wb.valid && !wb.ctrl.halt && wb.ctrl.regWrite && wb.rd == LR_REG)
                  || Index(WbValue(wb)) == Index(rf[LR_REG])
  {
    hide Alu.Execute, LoadValue, StoreValue, EvalBranch;
    assert Control.Decode(Fetch(s)) == Control.IDLE.(jump := true, ret := true);
  }
}
