/** The register file: 32 words, R0 wired to zero. */
module Registers {
  import opened Words
  import opened Isa

  type Regs = r: seq<Word> | |r| == NUM_REGISTERS && r[0] == 0 witness seq(NUM_REGISTERS, (i: int) => 0)

  function SetReg(rf: Regs, i: Reg, value: Word): Regs {
    if i == 0 then rf else rf[i := value]
  }

  class RegisterFile {
    var regs: Regs

    constructor ()
      ensures regs == seq(NUM_REGISTERS, (i: int) => 0)
    {
      regs := seq(NUM_REGISTERS, (i: int) => 0);
    }

    /** `rf[index] = value`: a write to R0 is dropped. */
    method Set(index: Reg, value: Word)
      modifies this
      ensures regs == SetReg(old(regs), index, value)
      ensures forall i: Reg :: regs[i] == if i == index && i != 0 then value else old(regs[i])
    {
      if index == 0 {
        return;
      }
      regs := regs[index := value];
    }
  }
}
