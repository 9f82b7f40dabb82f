/** 32-bit machine words, as the simulator keeps them: non-negative integers below 2^32. */
module Words {

  const WORD_MOD := 0x1_0000_0000

  type Word = x: int | 0 <= x < 0x1_0000_0000

  /** `value & WORD_MASK` for a Python integer of any sign. */
  function Wrap(value: int): Word {
    value % 0x1_0000_0000
  }

  /** Two's-complement reading of a word. */
  function ToSigned(v: Word): int {
    if v < 0x8000_0000 then v else v - 0x1_0000_0000
  }

  /** Sign extension of the low 16 bits, as a Python integer. */
  function Sext16(value: int): int {
    var low := value % 0x1_0000;
    if low < 0x8000 then low else low - 0x1_0000
  }

  function Pow2(n: nat): (p: nat)
    ensures p > 0
  {
    if n == 0 then 1 else 2 * Pow2(n - 1)
  }

  datatype BitOp = And | Or | Xor

  predicate Bit(op: BitOp, x: bool, y: bool) {
    match op
    case And => x && y
    case Or => x || y
    case Xor => x != y
  }

  /** The bitwise operation on the low n bits of a and b. */
  function Bitwise(op: BitOp, a: nat, b: nat, n: nat): (r: nat)
    ensures r < Pow2(n)
  {
    if n == 0 then 0
    else 2 * Bitwise(op, a / 2, b / 2, n - 1) + (if Bit(op, a % 2 == 1, b % 2 == 1) then 1 else 0)
  }

  lemma Pow2Of32()
    ensures Pow2(32) == 0x1_0000_0000
  {
    assert Pow2(8) == 256;
    assert Pow2(16) == 0x1_0000;
    assert Pow2(24) == 0x100_0000;
  }

  function WordBitwise(op: BitOp, a: Word, b: Word): Word {
    Pow2Of32();
    Bitwise(op, a, b, 32)
  }
}
