/** The arithmetic-logic unit: the value part of ALU.execute. */
module Alu {
  import opened Words
  import opened Isa

  /** Division that truncates toward zero, on integers. */
  function TruncDiv(a: int, b: int): int
    requires b != 0
  {
    if (a < 0) == (b < 0) then Abs(a) / Abs(b) else -(Abs(a) / Abs(b))
  }

  function Abs(x: int): nat { if x < 0 then -x else x }

  function Execute(op: Opcode, a: Word, b: Word): Word {
    if op == ADD || op == ADDI then Wrap(a + b)
    else if op == SUB then Wrap(a - b)
    else if op == MUL then Wrap(ToSigned(a) * ToSigned(b))
    else if op == MULH then Wrap(ToSigned(a) * ToSigned(b) / WORD_MOD)
    else if op == DIV then (if b == 0 then 0xFFFF_FFFF else Wrap(TruncDiv(ToSigned(a), ToSigned(b))))
    else if op == DIVU then (if b == 0 then 0xFFFF_FFFF else a / b)
    else if op == REM then
      (if b == 0 then a else Wrap(ToSigned(a) - TruncDiv(ToSigned(a), ToSigned(b)) * ToSigned(b)))
    else if op == AND || op == ANDI then WordBitwise(And, a, b)
    else if op == OR || op == ORI then WordBitwise(Or, a, b)
    else if op == XOR || op == XORI then WordBitwise(Xor, a, b)
    else if op == NOT then Wrap(-1 - a)
    else if op == NEG then Wrap(0 - a)
    else if op == SHL || op == SHLI then Wrap(a * Pow2(b % 32))
    else if op == SHR || op == SHRI then Wrap(a / Pow2(b % 32))
    else if op == SHRA || op == SHRAI then Wrap(ToSigned(a) / Pow2(b % 32))
    else if op == MOV then a
    else if op == MOVI then b
    else if op == MOVHI then Wrap(b * 0x800)
    else if op == SLT || op == SLTI then (if ToSigned(a) < ToSigned(b) then 1 else 0)
    else if op == SLTU then (if a < b then 1 else 0)
    else a
  }
}
