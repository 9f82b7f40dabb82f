/** The combinational control unit: opcode to control signals. */
module Control {
  import opened Words
  import opened Isa

  datatype Signals = Signals(
    memRead: bool, memWrite: bool, regWrite: bool, branch: bool, jump: bool, halt: bool,
    call: bool, ret: bool, isNop: bool, push: bool, pop: bool, eret: bool, syscall: bool,
    memSize: nat, memSigned: bool)

  const IDLE := Signals(false, false, false, false, false, false,
                        false, false, false, false, false, false, false, 2, true)
  const BUBBLE := IDLE.(isNop := true)

  function Decode(w: Word): Signals {
    var op := OpField(w);
    if w == NOP_WORD || w == 0 || !Defined(op) then BUBBLE
    else if IsRegisterAlu(op) || IsImmediateAlu(op) || op == MOVHI then IDLE.(regWrite := true)
    else if IsLoad(op) then
      IDLE.(memRead := true, regWrite := true,
            memSize := if op == LB || op == LBU then 0 else if op == LH || op == LHU then 1 else 2,
            memSigned := op != LBU && op != LHU)
    else if IsStore(op) then
      IDLE.(memWrite := true, memSize := if op == SB then 0 else if op == SH then 1 else 2)
    else if IsBranch(op) then IDLE.(branch := true)
    else if op == JMP || op == JMPR then IDLE.(jump := true)
    else if op == CALL || op == CALLR then IDLE.(jump := true, call := true, regWrite := true)
    else if op == RET then IDLE.(jump := true, ret := true)
    else if op == PUSH then IDLE.(memWrite := true, push := true)
    else if op == POP then IDLE.(memRead := true, regWrite := true, pop := true)
    else if op == HLT then IDLE.(halt := true)
    else if op == SYSCALL || op == BREAK then IDLE.(syscall := true)
    else if op == ERET then IDLE.(eret := true, jump := true)
    else if op == MFC then IDLE.(regWrite := true)
    else if op == MTC then IDLE
    else BUBBLE
  }
}
