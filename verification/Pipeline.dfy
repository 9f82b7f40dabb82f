/** The five-stage pipeline as values: what each stage of one clock cycle computes. */
module Pipeline {
  import opened Words
  import opened Isa
  import opened Memory
  import opened Registers
  import Alu
  import Control

  // ---- Inter-stage registers (`fmt` and `shamt` are never read after ID and are dropped)

  datatype IfId = IfId(instruction: Word, pcPlus1: nat, valid: bool)

  datatype IdEx = IdEx(
    opcode: Opcode, ctrl: Control.Signals, rs1Val: Word, rs2Val: Word,
    rd: Reg, rs1: Reg, rs2: Reg, addr: nat, offset: int, pcPlus1: nat, valid: bool)

  datatype ExMem = ExMem(
    ctrl: Control.Signals, aluResult: Word, rs2Val: Word, rd: Reg,
    memAddr: Word, jumpPc: nat, takeJump: bool, valid: bool)

  datatype MemWb = MemWb(ctrl: Control.Signals, aluResult: Word, memData: Word, rd: Reg, valid: bool)

  /** The simulator's architectural and pipeline state. `trapped` marks that EX met an
      instruction outside the modelled set (SYSCALL, ERET, BREAK, MFC, MTC). */
  datatype Cpu = Cpu(
    rf: Regs, mem: Mem, pc: nat, halted: bool, trapped: bool, fetchStopped: bool, execStall: nat,
    ifid: IfId, idex: IdEx, exmem: ExMem, memwb: MemWb)

  const EMPTY_IFID := IfId(NOP_WORD, 0, false)
  const EMPTY_IDEX := IdEx(HLT, Control.IDLE, 0, 0, 0, 0, 0, 0, 0, 0, false)
  const EMPTY_EXMEM := ExMem(Control.IDLE, 0, 0, 0, 0, 0, false, false)
  const EMPTY_MEMWB := MemWb(Control.IDLE, 0, 0, 0, false)
  const SP_INIT: Word := 0x1_0000

  /** The state after `reset` with the program counter at `start`. */
  function Reset(mem: Mem, start: nat): Cpu {
    Cpu(SetReg(seq(NUM_REGISTERS, (i: int) => 0), SP_REG, SP_INIT), mem, start, false, false, false, 0,
        EMPTY_IFID, EMPTY_IDEX, EMPTY_EXMEM, EMPTY_MEMWB)
  }

  function FlushIfId(r: IfId): IfId { r.(instruction := NOP_WORD, valid := false) }
  function FlushIdEx(r: IdEx): IdEx { r.(ctrl := Control.BUBBLE, valid := false, rd := 0) }
  function FlushExMem(r: ExMem): ExMem {
    r.(ctrl := Control.BUBBLE, takeJump := false, valid := false, rd := 0)
  }

  // ---- WB

  function WbValue(wb: MemWb): Word { if wb.ctrl.memRead then wb.memData else wb.aluResult }

  function WriteBack(rf: Regs, wb: MemWb): Regs {
    if wb.valid && !wb.ctrl.halt && wb.ctrl.regWrite then SetReg(rf, wb.rd, WbValue(wb)) else rf
  }

  function StageWb(c: Cpu): Cpu {
    c.(halted := c.halted || (c.memwb.valid && c.memwb.ctrl.halt), rf := WriteBack(c.rf, c.memwb))
  }

  // ---- MEM

  function MemRegister(x: ExMem, m: Mem): MemWb {
    MemWb(x.ctrl, x.aluResult,
          if x.valid && x.ctrl.memRead then LoadValue(m, x.memAddr, x.ctrl.memSize, x.ctrl.memSigned) else 0,
          x.rd, x.valid)
  }

  function MemContents(x: ExMem, m: Mem): Mem {
    if x.valid && !x.ctrl.memRead && x.ctrl.memWrite then StoreValue(m, x.memAddr, x.ctrl.memSize, x.rs2Val) else m
  }

  function StageMem(c: Cpu): Cpu {
    c.(memwb := MemRegister(c.exmem, c.mem), mem := MemContents(c.exmem, c.mem))
  }

  predicate JumpPending(x: ExMem) { x.valid && x.takeJump }

  // ---- Hazard and forwarding units

  predicate DetectLoadUse(ide: IdEx, next: Word) {
    ide.valid && ide.ctrl.memRead && !ide.ctrl.pop && ide.rd != 0
    && (ide.rd == Field20(next) || ide.rd == Field15(next))
  }

  datatype Select = FromIdEx | FromMemWb | FromExMem

  function CalcOne(r: Reg, x: ExMem, wb: MemWb): Select {
    if x.valid && x.ctrl.regWrite && x.rd != 0 && x.rd == r then FromExMem
    else if wb.valid && wb.ctrl.regWrite && wb.rd != 0 && wb.rd == r then FromMemWb
    else FromIdEx
  }

  function ResolveOne(sel: Select, held: Word, x: ExMem, wb: MemWb): Word {
    match sel
    case FromIdEx => held
    case FromMemWb => WbValue(wb)
    case FromExMem => x.aluResult
  }

  function OperandA(ide: IdEx, x: ExMem, wb: MemWb): Word {
    ResolveOne(CalcOne(ide.rs1, x, wb), ide.rs1Val, x, wb)
  }

  function OperandB(ide: IdEx, x: ExMem, wb: MemWb): Word {
    ResolveOne(CalcOne(ide.rs2, x, wb), ide.rs2Val, x, wb)
  }

  // ---- EX

  predicate EvalBranch(op: Opcode, a: Word, b: Word) {
    if op == BEQ then a == b
    else if op == BNE then a != b
    else if op == BLT then ToSigned(a) < ToSigned(b)
    else if op == BGE then ToSigned(a) >= ToSigned(b)
    else if op == BLTU then a < b
    else op == BGEU && a >= b
  }

  predicate Executes(ide: IdEx) { ide.valid && !ide.ctrl.isNop }

  /** EX raises an exception, returns from one, or touches a CSR. */
  predicate Traps(ide: IdEx) {
    Executes(ide) && !ide.ctrl.halt
    && (ide.ctrl.syscall || ide.ctrl.eret || ide.opcode == BREAK || ide.opcode == MFC || ide.opcode == MTC)
  }

  predicate UsesAlu(ide: IdEx) {
    Executes(ide) && !Traps(ide) && !ide.ctrl.halt && !ide.ctrl.push && !ide.ctrl.pop
    && !ide.ctrl.memRead && !ide.ctrl.memWrite && !ide.ctrl.branch && !ide.ctrl.jump
  }

  /** The EX/MEM register for forwarded operands a and b. */
  function ExRegister(ide: IdEx, a: Word, b: Word, rf: Regs): ExMem {
    var x := ExMem(ide.ctrl, 0, ide.rs2Val, ide.rd, 0, 0, false, ide.valid);
    if !Executes(ide) || ide.ctrl.halt || Traps(ide) then x
    else if ide.ctrl.push then
      var sp := Wrap(rf[SP_REG] as int - 1);
      x.(memAddr := sp, rs2Val := a, aluResult := sp)
    else if ide.ctrl.pop then x.(memAddr := rf[SP_REG])
    else if ide.ctrl.memRead then x.(memAddr := Wrap(a + ide.offset))
    else if ide.ctrl.memWrite then x.(memAddr := Wrap(a + ide.offset), rs2Val := b)
    else if ide.ctrl.branch then
      if EvalBranch(ide.opcode, a, b) then x.(takeJump := true, jumpPc := Index(ide.pcPlus1 - 1 + ide.offset)) else x
    else if ide.ctrl.jump then
      if ide.ctrl.call then
        x.(aluResult := Wrap(ide.pcPlus1), rd := LR_REG, takeJump := true,
           jumpPc := if ide.opcode == CALLR then Index(a) else Index(ide.addr))
      else if ide.ctrl.ret then x.(takeJump := true, jumpPc := Index(rf[LR_REG]))
      else if ide.opcode == JMP then x.(takeJump := true, jumpPc := Index(ide.addr))
      else x.(takeJump := true, jumpPc := Index(a + ide.offset))
    else x.(aluResult := Alu.Execute(ide.opcode, a, b))
  }

  /** PUSH and POP move the stack pointer in EX. */
  function ExRegs(ide: IdEx, rf: Regs): Regs {
    if !Executes(ide) || ide.ctrl.halt || Traps(ide) then rf
    else if ide.ctrl.push then SetReg(rf, SP_REG, Wrap(rf[SP_REG] as int - 1))
    else if ide.ctrl.pop then SetReg(rf, SP_REG, Wrap(rf[SP_REG] as int + 1))
    else rf
  }

  /** Extra cycles: 2 for a multiplication, 31 for a division. */
  function Latency(op: Opcode): nat {
    if op == MUL || op == MULH then 2 else if op == DIV || op == DIVU || op == REM then 31 else 0
  }

  function StageEx(c: Cpu, x: ExMem, wb: MemWb): Cpu {
    var ide := c.idex;
    c.(exmem := ExRegister(ide, OperandA(ide, x, wb), OperandB(ide, x, wb), c.rf),
       rf := ExRegs(ide, c.rf),
       fetchStopped := c.fetchStopped || (Executes(ide) && ide.ctrl.halt),
       trapped := c.trapped || Traps(ide),
       execStall := if UsesAlu(ide) && Latency(ide.opcode) > 0 then Latency(ide.opcode) else c.execStall)
  }

  // ---- ID

  /** The ID/EX register for a word with a defined opcode. */
  function IdRegister(w: Word, rf: Regs, pcPlus1: nat): IdEx {
    var op := OpField(w);
    var ctrl := Control.Decode(w);
    var e := IdEx(op, ctrl, 0, 0, 0, 0, 0, 0, 0, pcPlus1, true);
    match Decode(w)
    case InstrR(_, rd, rs1, rs2, shamt) =>
      e.(rd := rd, rs1 := rs1, rs2 := rs2, rs1Val := rf[rs1],
         rs2Val := if IsShiftImmediate(op) then shamt else if op == MOV then rf[rs1] else rf[rs2])
    case InstrI(_, rd, rs1, imm) =>
      e.(rd := rd, rs1 := rs1, offset := imm, rs1Val := if op == MOVI then 0 else rf[rs1], rs2Val := Wrap(imm))
    case InstrS(_, rs2, rs1, off) =>
      e.(rs1 := rs1, rs2 := rs2, offset := off, rs1Val := rf[rs1], rs2Val := rf[rs2])
    case InstrB(_, rs1, rs2, off) =>
      e.(rs1 := rs1, rs2 := rs2, offset := off, rs1Val := rf[rs1], rs2Val := rf[rs2])
    case InstrJ(_, addr) => e.(addr := addr, rd := if ctrl.call then LR_REG else 0)
    case InstrU(_, rd, imm21) => e.(rd := rd, offset := imm21, rs2Val := imm21)
    case Undefined(_) => e
  }

  predicate Stall(c: Cpu) { DetectLoadUse(c.idex, c.ifid.instruction) }

  function StageId(c: Cpu): Cpu {
    if Stall(c) then c
    else if !c.ifid.valid then c.(idex := c.idex.(valid := false))
    else
      var w := c.ifid.instruction;
      if !Defined(OpField(w)) then c.(idex := FlushIdEx(c.idex).(valid := true))
      else c.(idex := IdRegister(w, c.rf, c.ifid.pcPlus1))
  }

  // ---- IF

  function StageIf(c: Cpu): Cpu {
    if c.fetchStopped || c.pc >= MEM_SIZE then c.(ifid := c.ifid.(valid := false))
    else c.(ifid := IfId(c.mem[c.pc], c.pc + 1, true), pc := c.pc + 1)
  }

  // ---- One clock cycle

  function Redirect(c: Cpu, target: nat): Cpu {
    StageIf(c.(ifid := FlushIfId(c.ifid), idex := FlushIdEx(c.idex), exmem := FlushExMem(c.exmem),
               pc := Index(target), fetchStopped := false))
  }

  function Clock(c: Cpu): Cpu {
    if c.execStall > 0 then c.(execStall := c.execStall - 1)
    else
      var c1 := StageWb(c);
      var c2 := StageMem(c1);
      var c3 := StageEx(c2, c1.exmem, c1.memwb);
      if c3.trapped then c3
      else
        var c4 := StageId(c3);
        if JumpPending(c1.exmem) then Redirect(c4, c1.exmem.jumpPc)
        else if !Stall(c3) then StageIf(c4)
        else c4.(idex := FlushIdEx(c4.idex))
  }

  /** `step`: nothing happens once the processor has halted (or left the modelled set). */
  function Step(c: Cpu): Cpu { if c.halted || c.trapped then c else Clock(c) }

  function Cycles(c: Cpu, n: nat): Cpu {
    if n == 0 then c else Step(Cycles(c, n - 1))
  }
}
