/** Running a program image on the simulator object gives what the instruction set says. */
module Execution {
  import opened Memory
  import opened Registers
  import opened Pipeline
  import opened Sequential
  import opened Progress
  import opened Simulator

  /** `load_program` and `run`: on a safe image, a halt delivers the sequential machine's final registers
      and memory, and a program that halts after k instructions does halt if 34 cycles are allowed for each. */
  method RunImage(image: Mem, start: nat, maxCycles: nat) returns (halted: bool, regs: Regs, mem: Mem)
    ensures SafeRun(Initial(image, start)) && halted ==>
              exists k: nat ::
                && AtHalt(IsaRun(Initial(image, start), k))
                && regs == IsaRun(Initial(image, start), k).regs && mem == IsaRun(Initial(image, start), k).mem
    ensures forall k: nat {:trigger IsaRun(Initial(image, start), k)} ::
              SafeRun(Initial(image, start)) && AtHalt(IsaRun(Initial(image, start), k)) && 34 * k + 36 <= maxCycles ==>
                  halted
  {
    hide Pipeline.Clock, Pipeline.Step, SafeAt, IsaStep, AtHalt;
    var sim := new CpuSimulator(image, start);
    sim.Run(maxCycles);
    halted, regs, mem := sim.halted, sim.rf.regs, sim.mem;
    if SafeRun(Initial(image, start)) {
      NeverTraps(image, start, sim.cycles);
      if halted {
        PipelineSound(image, start, sim.cycles);
      }
      forall k: nat | AtHalt(IsaRun(Initial(image, start), k)) && 34 * k + 36 <= maxCycles
        ensures halted
      {
        var n := PipelineComplete(image, start, k);
        if !halted { HaltedLater(Reset(image, start), n, sim.cycles); }
      }
    }
  }

  lemma NeverTraps(image: Mem, start: nat, n: nat)
    requires SafeRun(Initial(image, start))
    ensures !Cycles(Reset(image, start), n).trapped
  {
    hide Pipeline.Clock, Pipeline.Step, SafeAt, IsaStep;
    ResetRelated(image, start);
    Refines(Reset(image, start), Initial(image, start), n);
  }

  lemma HaltedLater(c: Cpu, n: nat, m: nat)
    requires Cycles(c, n).halted && n <= m
    ensures Cycles(c, m).halted
  {
    hide Pipeline.Clock;
    if n < m { HaltedLater(c, n, m - 1); }
  }
}
