/** The simulator object: the stages as they update its registers in place. */
module Simulator {
  import opened Words
  import opened Isa
  import opened Memory
  import opened Registers
  import opened Pipeline
  import Alu
  import Control

  class IfIdReg {
    var instruction: Word
    var pcPlus1: nat
    var valid: bool

    constructor ()
      ensures View() == EMPTY_IFID
    {
      instruction, pcPlus1, valid := NOP_WORD, 0, false;
    }

    ghost function View(): IfId
      reads this
    {
      IfId(instruction, pcPlus1, valid)
    }

    method Flush()
      modifies this
      ensures View() == FlushIfId(old(View()))
    {
      instruction := NOP_WORD;
      valid := false;
    }
  }

  class IdExReg {
    var opcode: Opcode
    var ctrl: Control.Signals
    var rs1Val: Word
    var rs2Val: Word
    var rd: Reg
    var rs1: Reg
    var rs2: Reg
    var addr: nat
    var offset: int
    var pcPlus1: nat
    var valid: bool

    constructor ()
      ensures View() == EMPTY_IDEX
    {
      opcode, ctrl, rs1Val, rs2Val, rd, rs1, rs2 := HLT, Control.IDLE, 0, 0, 0, 0, 0;
      addr, offset, pcPlus1, valid := 0, 0, 0, false;
    }

    function View(): IdEx
      reads this
    {
      IdEx(opcode, ctrl, rs1Val, rs2Val, rd, rs1, rs2, addr, offset, pcPlus1, valid)
    }

    method Flush()
      modifies this
      ensures View() == FlushIdEx(old(View()))
    {
      ctrl := Control.BUBBLE;
      valid := false;
      rd := 0;
    }

    /** What ID sets for every word: no operands yet. */
    method Begin(op: Opcode, signals: Control.Signals, nextPc: nat)
      modifies this
      ensures View() == IdEx(op, signals, 0, 0, 0, 0, 0, 0, 0, nextPc, true)
    {
      opcode, ctrl, pcPlus1, valid := op, signals, nextPc, true;
      addr, offset, rs1, rs2, rd, rs1Val, rs2Val := 0, 0, 0, 0, 0, 0, 0;
    }

    method Operands(d: Reg, s1: Reg, s2: Reg, a: Word, b: Word)
      modifies this
      ensures View() == old(View()).(rd := d, rs1 := s1, rs2 := s2, rs1Val := a, rs2Val := b)
    {
      rd, rs1, rs2, rs1Val, rs2Val := d, s1, s2, a, b;
    }

    /** The fields that ID sets for a word with a defined opcode. */
    method Fill(w: Word, rf: Regs, nextPc: nat)
      requires Defined(OpField(w))
      modifies this
      ensures View() == IdRegister(w, rf, nextPc)
    {
      hide Isa.Decode, Control.Decode, OpField, Defined, IsShiftImmediate, Wrap;
      var op := OpField(w);
      Begin(op, Control.Decode(w), nextPc);
      match Isa.Decode(w) {
        case InstrR(_, d, s1, s2, shamt) =>
          var b: Word := rf[s2];
          if IsShiftImmediate(op) {
            b := shamt;
          } else if op == MOV {
            b := rf[s1];
          }
          Operands(d, s1, s2, rf[s1], b);
        case InstrI(_, d, s1, imm) =>
          Operands(d, s1, 0, if op == MOVI then 0 else rf[s1], Wrap(imm));
          offset := imm;
        case InstrS(_, s2, s1, off) =>
          Operands(0, s1, s2, rf[s1], rf[s2]);
          offset := off;
        case InstrB(_, s1, s2, off) =>
          Operands(0, s1, s2, rf[s1], rf[s2]);
          offset := off;
        case InstrJ(_, target) =>
          addr := target;
          if ctrl.call {
            rd := LR_REG;
          }
        case InstrU(_, d, imm21) =>
          Operands(d, 0, 0, 0, imm21);
          offset := imm21;
        case Undefined(_) =>
      }
    }
  }

  class ExMemReg {
    var ctrl: Control.Signals
    var aluResult: Word
    var rs2Val: Word
    var rd: Reg
    var memAddr: Word
    var jumpPc: nat
    var takeJump: bool
    var valid: bool

    constructor ()
      ensures View() == EMPTY_EXMEM
    {
      ctrl, aluResult, rs2Val, rd, memAddr, jumpPc, takeJump, valid := Control.IDLE, 0, 0, 0, 0, 0, false, false;
    }

    function View(): ExMem
      reads this
    {
      ExMem(ctrl, aluResult, rs2Val, rd, memAddr, jumpPc, takeJump, valid)
    }

    method Flush()
      modifies this
      ensures View() == FlushExMem(old(View()))
    {
      ctrl := Control.BUBBLE;
      takeJump := false;
      valid := false;
      rd := 0;
    }

    /** What EX writes into EX/MEM for forwarded operands a and b. */
    method Execute(ide: IdEx, a: Word, b: Word, rf: Regs)
      modifies this
      ensures View() == ExRegister(ide, a, b, rf)
    {
      hide Alu.Execute, EvalBranch;
      ctrl, rd, rs2Val, memAddr := ide.ctrl, ide.rd, ide.rs2Val, 0;
      aluResult, takeJump, jumpPc, valid := 0, false, 0, ide.valid;
      if !ide.valid || ide.ctrl.isNop || ide.ctrl.halt {
        return;
      }
      if ide.ctrl.syscall || ide.ctrl.eret || ide.opcode == BREAK || ide.opcode == MFC || ide.opcode == MTC {
        return;
      }
      if ide.ctrl.push {
        var sp := Wrap(rf[SP_REG] as int - 1);
        memAddr, rs2Val, aluResult := sp, a, sp;
      } else if ide.ctrl.pop {
        memAddr := rf[SP_REG];
      } else if ide.ctrl.memRead {
        memAddr := Wrap(a + ide.offset);
      } else if ide.ctrl.memWrite {
        memAddr, rs2Val := Wrap(a + ide.offset), b;
      } else if ide.ctrl.branch {
        if EvalBranch(ide.opcode, a, b) {
          takeJump, jumpPc := true, Index(ide.pcPlus1 - 1 + ide.offset);
        }
      } else if ide.ctrl.jump {
        takeJump := true;
        if ide.ctrl.call {
          aluResult, rd := Wrap(ide.pcPlus1), LR_REG;
          jumpPc := if ide.opcode == CALLR then Index(a) else Index(ide.addr);
        } else if ide.ctrl.ret {
          jumpPc := Index(rf[LR_REG]);
        } else if ide.opcode == JMP {
          jumpPc := Index(ide.addr);
        } else {
          jumpPc := Index(a + ide.offset);
        }
      } else {
        aluResult := Alu.Execute(ide.opcode, a, b);
      }
    }
  }

  class MemWbReg {
    var ctrl: Control.Signals
    var aluResult: Word
    var memData: Word
    var rd: Reg
    var valid: bool

    constructor ()
      ensures View() == EMPTY_MEMWB
    {
      ctrl, aluResult, memData, rd, valid := Control.IDLE, 0, 0, 0, false;
    }

    function View(): MemWb
      reads this
    {
      MemWb(ctrl, aluResult, memData, rd, valid)
    }
  }

  class CpuSimulator {
    const rf: RegisterFile
    const ifid: IfIdReg
    const idex: IdExReg
    const exmem: ExMemReg
    const memwb: MemWbReg
    var mem: Mem
    var pc: nat
    var halted: bool
    var trapped: bool
    var fetchStopped: bool
    var execStall: nat
    var cycles: nat

    /** A reset processor with the given memory, about to fetch from `start`. */
    constructor (image: Mem, start: nat)
      ensures State() == Reset(image, start) && cycles == 0
      ensures fresh(rf) && fresh(ifid) && fresh(idex) && fresh(exmem) && fresh(memwb)
    {
      rf := new RegisterFile();
      ifid := new IfIdReg();
      idex := new IdExReg();
      exmem := new ExMemReg();
      memwb := new MemWbReg();
      mem, pc, halted, trapped, fetchStopped, execStall, cycles := image, start, false, false, false, 0, 0;
      new;
      rf.Set(SP_REG, SP_INIT);
    }

    ghost function State(): Cpu
      reads this, rf, ifid, idex, exmem, memwb
    {
      Cpu(rf.regs, mem, pc, halted, trapped, fetchStopped, execStall,
          ifid.View(), idex.View(), exmem.View(), memwb.View())
    }

    method StageWb()
      modifies this, rf
      ensures State() == Pipeline.StageWb(old(State())) && cycles == old(cycles)
    {
      if !memwb.valid {
        return;
      }
      if memwb.ctrl.halt {
        halted := true;
        return;
      }
      if !memwb.ctrl.regWrite || memwb.rd == 0 {
        return;
      }
      rf.Set(memwb.rd, if memwb.ctrl.memRead then memwb.memData else memwb.aluResult);
    }

    method StageMem() returns (takeJump: bool, jumpPc: nat)
      modifies this, memwb
      ensures State() == Pipeline.StageMem(old(State())) && cycles == old(cycles)
      ensures takeJump == JumpPending(old(State()).exmem) && (takeJump ==> jumpPc == old(State()).exmem.jumpPc)
    {
      memwb.ctrl, memwb.aluResult, memwb.rd, memwb.memData, memwb.valid :=
        exmem.ctrl, exmem.aluResult, exmem.rd, 0, exmem.valid;
      if !exmem.valid {
        return false, 0;
      }
      if exmem.ctrl.memRead {
        memwb.memData := LoadValue(mem, exmem.memAddr, exmem.ctrl.memSize, exmem.ctrl.memSigned);
      } else if exmem.ctrl.memWrite {
        mem := StoreValue(mem, exmem.memAddr, exmem.ctrl.memSize, exmem.rs2Val);
      }
      if exmem.takeJump {
        return true, exmem.jumpPc;
      }
      return false, 0;
    }

    method StageEx(prevExMem: ExMem, prevMemWb: MemWb)
      modifies this, rf, exmem
      ensures State() == Pipeline.StageEx(old(State()), prevExMem, prevMemWb) && cycles == old(cycles)
    {
      hide Alu.Execute, ExRegister, OperandA, OperandB, Wrap;
      var ide := idex.View();
      var a := OperandA(ide, prevExMem, prevMemWb);
      var b := OperandB(ide, prevExMem, prevMemWb);
      exmem.Execute(ide, a, b, rf.regs);
      if !ide.valid || ide.ctrl.isNop {
        return;
      }
      if ide.ctrl.halt {
        fetchStopped := true;
      } else if ide.ctrl.syscall || ide.ctrl.eret || ide.opcode == BREAK || ide.opcode == MFC || ide.opcode == MTC {
        trapped := true;
      } else if ide.ctrl.push {
        rf.Set(SP_REG, Wrap(rf.regs[SP_REG] as int - 1));
      } else if ide.ctrl.pop {
        rf.Set(SP_REG, Wrap(rf.regs[SP_REG] as int + 1));
      } else if !ide.ctrl.memRead && !ide.ctrl.memWrite && !ide.ctrl.branch && !ide.ctrl.jump {
        if ide.opcode == MUL || ide.opcode == MULH {
          execStall := 2;
        } else if ide.opcode == DIV || ide.opcode == DIVU || ide.opcode == REM {
          execStall := 31;
        }
      }
    }

    method StageId() returns (stall: bool)
      modifies idex
      ensures State() == Pipeline.StageId(old(State())) && cycles == old(cycles)
      ensures stall == Stall(old(State()))
    {
      hide Isa.Decode, Control.Decode, IdRegister;
      var next := ifid.instruction;
      stall := idex.valid && idex.ctrl.memRead && !idex.ctrl.pop && idex.rd != 0
               && (idex.rd == Field20(next) || idex.rd == Field15(next));
      if stall {
        return;
      }
      if !ifid.valid {
        idex.valid := false;
        return;
      }
      var op := OpField(next);
      if !Defined(op) {
        idex.Flush();
        idex.valid := true;
        return;
      }
      idex.Fill(next, rf.regs, ifid.pcPlus1);
    }

    method StageIf()
      modifies this, ifid
      ensures State() == Pipeline.StageIf(old(State())) && cycles == old(cycles)
    {
      if fetchStopped || pc >= MEM_SIZE {
        ifid.valid := false;
        return;
      }
      ifid.instruction, ifid.pcPlus1, ifid.valid := mem[pc], pc + 1, true;
      pc := pc + 1;
    }

    method FlushIfIdEx()
      modifies ifid, idex, exmem
      ensures State() == old(State()).(ifid := FlushIfId(old(State()).ifid), idex := FlushIdEx(old(State()).idex),
                                       exmem := FlushExMem(old(State()).exmem))
      ensures cycles == old(cycles)
    {
      ifid.Flush();
      idex.Flush();
      exmem.Flush();
    }

    /** WB, MEM and EX, the latter with the operands forwarded from what EX/MEM and MEM/WB held before MEM. */
    method BackEnd() returns (takeJump: bool, jumpPc: nat)
      modifies this, rf, exmem, memwb
      ensures var c1 := Pipeline.StageWb(old(State()));
              && State() == Pipeline.StageEx(Pipeline.StageMem(c1), c1.exmem, c1.memwb)
              && takeJump == JumpPending(c1.exmem) && (takeJump ==> jumpPc == c1.exmem.jumpPc)
      ensures cycles == old(cycles)
    {
      hide Pipeline.StageWb, Pipeline.StageMem, Pipeline.StageEx;
      StageWb();
      var prevMemWb := memwb.View();
      var prevExMem := exmem.View();
      takeJump, jumpPc := StageMem();
      StageEx(prevExMem, prevMemWb);
    }

    /** One clock cycle, in the order WB, MEM, EX, ID, IF. */
    method Clock()
      modifies this, rf, ifid, idex, exmem, memwb
      ensures State() == Pipeline.Clock(old(State())) && cycles == old(cycles) + 1
    {
      hide Pipeline.StageWb, Pipeline.StageMem, Pipeline.StageEx, Pipeline.StageId, Pipeline.StageIf;
      hide FlushIfId, FlushIdEx, FlushExMem, Stall;
      cycles := cycles + 1;
      if execStall > 0 {
        execStall := execStall - 1;
        return;
      }
      var takeJump, jumpPc := BackEnd();
      if trapped {
        return;
      }
      var stall := StageId();
      if takeJump {
        FlushIfIdEx();
        pc := Index(jumpPc);
        fetchStopped := false;
        StageIf();
      } else if !stall {
        StageIf();
      } else {
        idex.Flush();
      }
    }

    /** `run`: clock until HLT has drained or the cycle counter reaches maxCycles. */
    method Run(maxCycles: nat)
      modifies this, rf, ifid, idex, exmem, memwb
      ensures cycles >= old(cycles) && State() == Cycles(old(State()), cycles - old(cycles))
      ensures halted || trapped || cycles >= maxCycles
      ensures forall n: nat :: n < cycles - old(cycles) ==>
                !Cycles(old(State()), n).halted && !Cycles(old(State()), n).trapped
    {
      hide Pipeline.Clock;
      while !halted && !trapped && cycles < maxCycles
        invariant cycles >= old(cycles) && State() == Cycles(old(State()), cycles - old(cycles))
        invariant forall n: nat :: n < cycles - old(cycles) ==>
                    !Cycles(old(State()), n).halted && !Cycles(old(State()), n).trapped
      {
        Clock();
      }
    }
  }
}
