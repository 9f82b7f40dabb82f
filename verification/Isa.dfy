/** The EduRISC-32v2 instruction set: opcodes, the six formats, encoding and decoding. */
module Isa {
  import opened Words

  // Opcodes are the integers of the 6-bit opcode field.
  type Opcode = int

  const ADD := 0x00
  const ADDI := 0x01
  const SUB := 0x02
  const MUL := 0x03
  const MULH := 0x04
  const DIV := 0x05
  const DIVU := 0x06
  const REM := 0x07
  const AND := 0x08
  const ANDI := 0x09
  const OR := 0x0A
  const ORI := 0x0B
  const XOR := 0x0C
  const XORI := 0x0D
  const NOT := 0x0E
  const NEG := 0x0F
  const SHL := 0x10
  const SHR := 0x11
  const SHRA := 0x12
  const SHLI := 0x13
  const SHRI := 0x14
  const SHRAI := 0x15
  const MOV := 0x16
  const MOVI := 0x17
  const MOVHI := 0x18
  const SLT := 0x19
  const SLTU := 0x1A
  const SLTI := 0x1B
  const LW := 0x1C
  const LH := 0x1D
  const LHU := 0x1E
  const LB := 0x1F
  const LBU := 0x20
  const SW := 0x21
  const SH := 0x22
  const SB := 0x23
  const BEQ := 0x24
  const BNE := 0x25
  const BLT := 0x26
  const BGE := 0x27
  const BLTU := 0x28
  const BGEU := 0x29
  const JMP := 0x2A
  const JMPR := 0x2B
  const CALL := 0x2C
  const CALLR := 0x2D
  const RET := 0x2E
  const PUSH := 0x2F
  const POP := 0x30
  const NOP := 0x31
  const HLT := 0x32
  const SYSCALL := 0x33
  const ERET := 0x34
  const MFC := 0x35
  const MTC := 0x36
  const FENCE := 0x37
  const BREAK := 0x38

  const NUM_OPCODES := 0x39
  const NUM_REGISTERS := 32
  const MEM_SIZE := 0x400_0000
  const SP_REG := 30
  const LR_REG := 31
  const NOP_WORD: Word := 0xC400_0000

  type Reg = r: int | 0 <= r < 32

  datatype InstFmt = R | I | S | B | J | U

  predicate Defined(op: Opcode) {
    0 <= op < NUM_OPCODES
  }

  predicate IsLoad(op: Opcode) { LW <= op <= LBU }

  predicate IsStore(op: Opcode) { SW <= op <= SB }

  predicate IsBranch(op: Opcode) { BEQ <= op <= BGEU }

  predicate IsImmediateAlu(op: Opcode) {
    op == ADDI || op == ANDI || op == ORI || op == XORI || op == MOVI || op == SLTI
  }

  predicate IsRegisterAlu(op: Opcode) {
    ADD <= op <= SLTI && !IsImmediateAlu(op) && op != MOVHI
  }

  predicate IsShiftImmediate(op: Opcode) { SHLI <= op <= SHRAI }

  function FmtOf(op: Opcode): InstFmt {
    if IsRegisterAlu(op) || op == PUSH || op == POP then R
    else if IsImmediateAlu(op) || IsLoad(op) || op == JMPR || op == CALLR || op == MFC || op == MTC then I
    else if IsStore(op) then S
    else if IsBranch(op) then B
    else if op == MOVHI then U
    else J
  }

  // ---- Bit fields of an instruction word

  function OpField(w: Word): Opcode { w / 0x400_0000 }
  function Field25(w: Word): Reg { w / 0x20_0000 % 32 }
  function Field20(w: Word): Reg { w / 0x1_0000 % 32 }
  function Field15(w: Word): Reg { w / 0x800 % 32 }
  function Field10(w: Word): Reg { w / 0x40 % 32 }
  function Low26(w: Word): nat { w % 0x400_0000 }
  function Low21(w: Word): Word { w % 0x20_0000 }

  /** What decode returns: the fields of the word's format, or no opcode at all. */
  datatype Instr =
    | InstrR(op: Opcode, rd: Reg, rs1: Reg, rs2: Reg, shamt: Reg)
    | InstrI(op: Opcode, rd: Reg, rs1: Reg, imm: int)
    | InstrS(op: Opcode, rs2: Reg, rs1: Reg, off: int)
    | InstrB(op: Opcode, rs1: Reg, rs2: Reg, off: int)
    | InstrJ(op: Opcode, addr: nat)
    | InstrU(op: Opcode, rd: Reg, imm21: Word)
    | Undefined(raw: int)

  function Decode(w: Word): Instr {
    var op := OpField(w);
    if !Defined(op) then Undefined(op)
    else
      match FmtOf(op)
      case R => InstrR(op, Field25(w), Field20(w), Field15(w), Field10(w))
      case I => InstrI(op, Field25(w), Field20(w), Sext16(w))
      case S => InstrS(op, Field25(w), Field20(w), Sext16(w))
      case B => InstrB(op, Field25(w), Field20(w), Sext16(w))
      case U => InstrU(op, Field25(w), Low21(w))
      case J => InstrJ(op, Low26(w))
  }
}
