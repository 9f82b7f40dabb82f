/** The reference: one instruction at a time, straight from the instruction set. */
module Sequential {
  import opened Words
  import opened Isa
  import opened Memory
  import opened Registers
  import Alu
  import Pipeline

  datatype Arch = Arch(regs: Regs, mem: Mem, pc: nat)

  predicate OnCode(s: Arch) { s.pc < MEM_SIZE }

  function Fetch(s: Arch): Word
    requires OnCode(s)
  {
    s.mem[s.pc]
  }

  predicate AtHalt(s: Arch) { OnCode(s) && OpField(Fetch(s)) == HLT }

  /** The word with index pc + 1, or NOP past the end of memory. */
  function NextWord(s: Arch): Word {
    if s.pc + 1 < MEM_SIZE then s.mem[s.pc + 1] else NOP_WORD
  }

  function AccessSize(op: Opcode): nat {
    if op == LB || op == LBU || op == SB then 0 else if op == LH || op == LHU || op == SH then 1 else 2
  }

  predicate SignedLoad(op: Opcode) { op != LBU && op != LHU }

  /** The second ALU operand of a register-format instruction. */
  function RegisterOperand(s: Arch, op: Opcode, rs2: Reg, shamt: Reg): Word {
    if IsShiftImmediate(op) then shamt else s.regs[rs2]
  }

  /** One instruction. HLT, a program counter past the end of memory and the instructions outside
      the modelled set leave the state as it is. */
  function IsaStep(s: Arch): Arch {
    if !OnCode(s) then s
    else
      var next := s.(pc := s.pc + 1);
      match Decode(Fetch(s))
      case InstrR(op, rd, rs1, rs2, shamt) =>
        if op == PUSH then
          var sp := Wrap(s.regs[SP_REG] as int - 1);
          next.(mem := StoreValue(s.mem, sp, 2, s.regs[rs1]), regs := SetReg(s.regs, SP_REG, sp))
        else if op == POP then
          var sp := s.regs[SP_REG];
          next.(regs := SetReg(SetReg(s.regs, SP_REG, Wrap(sp as int + 1)), rd, LoadValue(s.mem, sp, 2, true)))
        else
          next.(regs := SetReg(s.regs, rd, Alu.Execute(op, s.regs[rs1], RegisterOperand(s, op, rs2, shamt))))
      case InstrI(op, rd, rs1, imm) =>
        if IsLoad(op) then
          next.(regs := SetReg(s.regs, rd,
                               LoadValue(s.mem, Wrap(s.regs[rs1] + imm), AccessSize(op), SignedLoad(op))))
        else if op == JMPR then s.(pc := Index(s.regs[rs1] + imm))
        else if op == CALLR then s.(pc := Index(s.regs[rs1]), regs := SetReg(s.regs, LR_REG, Wrap(s.pc + 1)))
        else if op == MFC || op == MTC then s
        else next.(regs := SetReg(s.regs, rd, Alu.Execute(op, s.regs[rs1], Wrap(imm))))
      case InstrS(op, rs2, rs1, off) =>
        next.(mem := StoreValue(s.mem, Wrap(s.regs[rs1] + off), AccessSize(op), s.regs[rs2]))
      case InstrB(op, rs1, rs2, off) =>
        if Pipeline.EvalBranch(op, s.regs[rs1], s.regs[rs2]) then s.(pc := Index(s.pc + off)) else next
      case InstrJ(op, addr) =>
        if op == JMP then s.(pc := Index(addr))
        else if op == CALL then s.(pc := Index(addr), regs := SetReg(s.regs, LR_REG, Wrap(s.pc + 1)))
        else if op == RET then s.(pc := Index(s.regs[LR_REG]))
        else if op == HLT || op == SYSCALL || op == ERET || op == BREAK then s
        else next
      case InstrU(op, rd, imm21) => next.(regs := SetReg(s.regs, rd, Alu.Execute(op, 0, imm21)))
      case Undefined(_) => next
  }

  function IsaRun(s: Arch, k: nat): Arch {
    if k == 0 then s else IsaStep(IsaRun(s, k - 1))
  }

  lemma IsaRunAdd(s: Arch, j: nat, k: nat)
    ensures IsaRun(s, j + k) == IsaRun(IsaRun(s, j), k)
  {
    hide IsaStep;
    if k > 0 { IsaRunAdd(s, j, k - 1); }
  }

  // ---- What a program must avoid for the pipeline to agree with this machine

  predicate IsSystem(op: Opcode) {
    op == SYSCALL || op == ERET || op == BREAK || op == MFC || op == MTC
  }

  /** No system instruction, and a shift by a constant leaves the register field that it does not use 0. */
  predicate Ordinary(w: Word) { !IsSystem(OpField(w)) && (IsShiftImmediate(OpField(w)) ==> Field15(w) == 0) }

  predicate WritesStack(op: Opcode) { op == PUSH || op == POP }

  /** Effects that EX or MEM carry out even for an instruction that will be cancelled. */
  predicate ActsEarly(op: Opcode) { IsSystem(op) || WritesStack(op) }

  predicate TakesJump(s: Arch)
    requires OnCode(s)
  {
    match Decode(Fetch(s))
    case InstrB(op, rs1, rs2, _) => Pipeline.EvalBranch(op, s.regs[rs1], s.regs[rs2])
    case InstrI(op, _, _, _) => op == JMPR || op == CALLR
    case InstrJ(op, _) => op == JMP || op == CALL || op == RET
    case _ => false
  }

  /** The address a store or PUSH writes. */
  function StoreIndex(s: Arch): (i: int)
    requires OnCode(s)
    ensures i < MEM_SIZE
  {
    match Decode(Fetch(s))
    case InstrS(_, _, rs1, off) => Index(Wrap(s.regs[rs1] + off))
    case InstrR(op, _, _, _, _) => if op == PUSH then Index(Wrap(s.regs[SP_REG] as int - 1)) else -1
    case _ => -1
  }

  /** The word reads r as the first operand of EX. */
  predicate ReadsFirst(w: Word, r: Reg) {
    match Decode(w)
    case InstrR(op, _, rs1, _, _) => rs1 == r && op != POP
    case InstrI(op, _, rs1, _) => rs1 == r && op != MOVI
    case InstrS(_, _, rs1, _) => rs1 == r
    case InstrB(_, rs1, _, _) => rs1 == r
    case _ => false
  }

  /** The word reads r as the second operand of EX. */
  predicate ReadsSecond(w: Word, r: Reg) {
    match Decode(w)
    case InstrR(op, _, _, rs2, _) =>
      rs2 == r && IsRegisterAlu(op) && op != MOV && op != NOT && op != NEG && !IsShiftImmediate(op)
    case InstrS(_, rs2, _, _) => rs2 == r
    case InstrB(_, _, rs2, _) => rs2 == r
    case _ => false
  }

  predicate Reads(w: Word, r: Reg) { ReadsFirst(w, r) || ReadsSecond(w, r) }

  /** The word reads r from the register file itself, past the forwarding paths. */
  predicate ReadsUnforwarded(w: Word, r: Reg) {
    (OpField(w) == RET && r == LR_REG) || (WritesStack(OpField(w)) && r == SP_REG)
  }

  /** The register that the word writes in WB without redirecting the program counter (0: none). */
  function Writes(w: Word): Reg {
    match Decode(w)
    case InstrR(op, rd, _, _, _) => if op == PUSH then 0 else rd
    case InstrI(op, rd, _, _) => if op == JMPR || op == CALLR || op == MTC then 0 else rd
    case InstrU(_, rd, _) => rd
    case _ => 0
  }

  /** The hazard unit holds `next` back for one cycle behind the load `w`. */
  predicate Stalls(w: Word, next: Word) {
    IsLoad(OpField(w)) && Field25(w) != 0 && (Field25(w) == Field20(next) || Field25(w) == Field15(next))
  }

  /** `next` may directly follow `w`: a loaded register is not read unless the hazard unit stalls,
      and R31 (for RET) and R30 (for PUSH and POP) are not pending. */
  predicate MayFollow(w: Word, next: Word) {
    var r := Writes(w);
    r != 0 && !Stalls(w, next) ==>
      && !(ReadsUnforwarded(next, r))
      && (IsLoad(OpField(w)) || OpField(w) == POP ==> !Reads(next, r))
  }

  /** The instruction at s.pc and the word behind it avoid every gap of the hazard logic. */
  predicate SafeAt(s: Arch) {
    OnCode(s) ==>
      var w := Fetch(s);
      var op := OpField(w);
      var next := NextWord(s);
      && Ordinary(w)
      && StoreIndex(s) != s.pc + 1 && StoreIndex(s) != s.pc + 2
      && (TakesJump(s) ==> !ActsEarly(OpField(next)))
      && (op == HLT ==> !ActsEarly(OpField(next)) && !IsStore(OpField(next)))
      && MayFollow(w, next)
  }

  /** Every state that the sequential machine reaches from s is safe. */
  ghost predicate SafeRun(s: Arch) {
    forall k: nat :: SafeAt(IsaRun(s, k))
  }
}
