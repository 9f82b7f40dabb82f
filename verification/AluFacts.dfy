/** What the arithmetic-logic unit and the branch comparisons compute, opcode by opcode, in integers and bits. */
module AluFacts {
  import opened Words
  import opened Isa
  import opened Bits
  import opened Alu
  import Pipeline

  // ---- Readings of a word

  /** The signed reading and the sign extension are the representatives of the word around 0. */
  lemma SignedReadings(v: Word)
    ensures -0x8000_0000 <= ToSigned(v) < 0x8000_0000 && (ToSigned(v) - v) % WORD_MOD == 0
    ensures -0x8000 <= Sext16(v) < 0x8000 && (Sext16(v) - v) % 0x1_0000 == 0
  {
    assert v == v / 0x1_0000 * 0x1_0000 + v % 0x1_0000;
  }

  lemma SignedOfWrap(x: int)
    requires -0x8000_0000 <= x < 0x8000_0000
    ensures ToSigned(Wrap(x)) == x
  {
  }

  // ---- Sums and complements

  /** Sums and differences modulo 2^32; NEG and NOT are the two complements. */
  lemma Sums(a: Word, b: Word)
    ensures (Execute(ADD, a, b) - a - b) % WORD_MOD == 0 && Execute(ADDI, a, b) == Execute(ADD, a, b)
    ensures (Execute(SUB, a, b) + b - a) % WORD_MOD == 0
    ensures (Execute(NEG, a, b) + a) % WORD_MOD == 0 && Execute(NOT, a, b) + a == 0xFFFF_FFFF
  {
    WrapCongruent(a + b);
    WrapCongruent(a - b);
    WrapCongruent(0 - a);
  }

  lemma WrapCongruent(x: int)
    ensures (Wrap(x) - x) % WORD_MOD == 0
  {
    var q := x / WORD_MOD;
    assert Wrap(x) - x == -q * WORD_MOD;
  }

  /** MOV and MOVI hand on one operand, and MOVHI puts 21 bits above eleven zeros. */
  lemma Moves(a: Word, b: Word)
    ensures Execute(MOV, a, b) == a && Execute(MOVI, a, b) == b
    ensures b < 0x20_0000 ==> Execute(MOVHI, a, b) % 0x800 == 0 && Execute(MOVHI, a, b) / 0x800 == b
  {
    hide Pow2, Bitwise, TruncDiv, ToSigned;
  }

  // ---- Products

  lemma MulOrder(x: nat, y: int, z: int)
    requires y <= z
    ensures x * y <= x * z
  {
    assert x * z - x * y == x * (z - y);
  }

  lemma ProductBound(x: int, y: int)
    requires -0x8000_0000 <= x <= 0x8000_0000 && -0x8000_0000 <= y <= 0x8000_0000
    ensures -0x4000_0000_0000_0000 <= x * y <= 0x4000_0000_0000_0000
  {
    var n: nat := if x < 0 then -x else x;
    MulOrder(n, y, 0x8000_0000);
    MulOrder(n, -0x8000_0000, y);
    assert x * y == n * y || x * y == -(n * y);
  }

  /** MULH and MUL are the two halves of the signed product. */
  lemma FullProduct(a: Word, b: Word)
    ensures ToSigned(Execute(MULH, a, b)) * WORD_MOD + Execute(MUL, a, b) == ToSigned(a) * ToSigned(b)
  {
    var p := ToSigned(a) * ToSigned(b);
    ProductBound(ToSigned(a), ToSigned(b));
    assert p == p / WORD_MOD * WORD_MOD + p % WORD_MOD;
    SignedOfWrap(p / WORD_MOD);
  }

  // ---- Quotients

  /** Unsigned division with remainder; a zero divisor gives all ones. */
  lemma UnsignedQuotient(a: Word, b: Word)
    ensures b != 0 ==> 0 <= a - Execute(DIVU, a, b) * b < b
    ensures b == 0 ==> Execute(DIVU, a, b) == Execute(DIV, a, b) == 0xFFFF_FFFF && Execute(REM, a, b) == a
  {
    if b != 0 { assert a == a / b * b + a % b; }
  }

  /** Signed division rounds toward zero and the remainder has the sign of the dividend; only -2^31 / -1 wraps. */
  lemma SignedQuotient(a: Word, b: Word)
    requires b != 0
    ensures var x, y, q, r := ToSigned(a), ToSigned(b), ToSigned(Execute(DIV, a, b)), ToSigned(Execute(REM, a, b));
            && Abs(r) < Abs(y) && (r == 0 || (r < 0) == (x < 0))
            && (if x == -0x8000_0000 && y == -1 then q == x && r == 0 else x == q * y + r)
  {
    var x, y := ToSigned(a), ToSigned(b);
    var t := TruncDiv(x, y);
    TruncParts(x, y);
    assert Abs(y) <= 0x8000_0000 && Abs(x - t * y) < Abs(y);
    SignedOfWrap(x - t * y);
    if !(x == -0x8000_0000 && y == -1) { SignedOfWrap(t); }
  }

  lemma TruncParts(x: int, y: int)
    requires y != 0 && -0x8000_0000 <= x < 0x8000_0000 && -0x8000_0000 <= y < 0x8000_0000
    ensures var t := TruncDiv(x, y);
            && Abs(x - t * y) < Abs(y) && (x - t * y == 0 || (x - t * y < 0) == (x < 0))
            && (if x == -0x8000_0000 && y == -1 then t == 0x8000_0000 else -0x8000_0000 <= t < 0x8000_0000)
  {
    var m, n := Abs(x), Abs(y);
    FloorParts(m, n);
    QuotientBound(m, n, m / n);
    SignedParts(x, y, m / n, m % n);
  }

  lemma SignedParts(x: int, y: int, q: nat, r: nat)
    requires Abs(x) == Abs(y) * q + r
    ensures var t: int := if (x < 0) == (y < 0) then q else 0 - q; x - t * y == if x < 0 then 0 - r else r
  {
    assert (0 - q) * y == 0 - q * y && (0 - y) * q == 0 - q * y && y * q == q * y;
  }

  lemma QuotientBound(m: nat, n: nat, q: int)
    requires n > 0 && n * q <= m <= 0x8000_0000 && q >= 0
    ensures q <= m && (n >= 2 ==> q <= 0x4000_0000)
  {
    MulOrder(q, 1, n);
    if n >= 2 { MulOrder(q, 2, n); }
  }

  // ---- Shifts

  lemma ShiftsExecute(a: Word, b: Word)
    ensures Execute(SHR, a, b) == Execute(SHRI, a, b) == Wrap(a / Pow2(b % 32))
    ensures Execute(SHRA, a, b) == Execute(SHRAI, a, b) == Wrap(ToSigned(a) / Pow2(b % 32))
    ensures Execute(SHL, a, b) == Execute(SHLI, a, b) == Wrap(a * Pow2(b % 32))
  {
    hide Pow2, Bitwise, TruncDiv, ToSigned, Wrap;
  }

  /** The right shifts round down to a multiple of 2^k: SHR of the unsigned, SHRA of the signed reading. */
  lemma RightShifts(a: Word, b: Word)
    ensures var p := Pow2(b % 32);
            && p * Execute(SHR, a, b) <= a < p * (Execute(SHR, a, b) + 1)
            && p * ToSigned(Execute(SHRA, a, b)) <= ToSigned(a) < p * (ToSigned(Execute(SHRA, a, b)) + 1)
    ensures Execute(SHRI, a, b) == Execute(SHR, a, b) && Execute(SHRAI, a, b) == Execute(SHRA, a, b)
  {
    var p, x := Pow2(b % 32), ToSigned(a);
    FloorParts(a, p);
    FloorParts(x, p);
    SignedOfWrap(x / p);
    ShiftsExecute(a, b);
    hide Execute, Pow2, ToSigned;
  }

  lemma FloorParts(x: int, p: nat)
    requires p > 0
    ensures p * (x / p) <= x < p * (x / p + 1) && x == p * (x / p) + x % p
    ensures if x >= 0 then 0 <= x / p <= x else x <= x / p < 0
  {
    DivParts(x, p);
    FloorBounds(x, p, x / p, x % p);
  }

  lemma DivParts(x: int, p: nat)
    requires p > 0
    ensures x == p * (x / p) + x % p && 0 <= x % p < p
  {
  }

  lemma FloorBounds(x: int, p: nat, q: int, r: nat)
    requires p > 0 && x == p * q + r && r < p
    ensures p * q <= x < p * (q + 1)
    ensures if x >= 0 then 0 <= q <= x else x <= q < 0
  {
    assert p * (q + 1) == p * q + p;
    if q >= 1 { MulOrder(q, 1, p); }
    if q <= -1 {
      MulOrder(-q, 1, p);
      assert (-q) * p == -(p * q);
    }
  }

  /** The left shift puts k zeros below and drops what leaves the word. */
  lemma LeftShift(a: Word, b: Word)
    ensures var k := b % 32;
            Execute(SHL, a, b) % Pow2(k) == 0 && Execute(SHL, a, b) / Pow2(k) == a % Pow2(32 - k)
    ensures Execute(SHLI, a, b) == Execute(SHL, a, b)
  {
    var k := b % 32;
    Pow2Add(k, 32 - k);
    Pow2Of32();
    ShiftsExecute(a, b);
    KeepsLow(a, Pow2(k), Pow2(32 - k));
    hide Execute, Pow2;
  }

  lemma KeepsLow(a: nat, p: nat, q: nat)
    requires p > 0 && q > 0
    ensures p * q > 0 && a * p % (p * q) == p * (a % q) && p * (a % q) / p == a % q && p * (a % q) % p == 0
  {
    var low := a % q;
    FloorParts(a, q);
    assert p * q > 0 && a * p == (q * (a / q) + low) * p == (a / q) * (p * q) + p * low;
    MulOrder(p, low, q - 1);
    assert p * (q - 1) == p * q - p;
    DivUnique(a * p, p * q, a / q, p * low);
    DivUnique(p * low, p, low, 0);
  }

  lemma Pow2Add(i: nat, j: nat)
    ensures Pow2(i + j) == Pow2(i) * Pow2(j)
  {
    if i > 0 {
      Pow2Add(i - 1, j);
      assert Pow2(i + j) == 2 * (Pow2(i - 1) * Pow2(j));
    }
  }

  // ---- Bits

  predicate BitAt(x: nat, k: nat) { x / Pow2(k) % 2 == 1 }

  lemma BitAtNext(x: nat, k: nat)
    requires k > 0
    ensures BitAt(x, k) == BitAt(x / 2, k - 1)
  {
    Halve(x, k);
  }

  lemma LowBit(x: nat)
    ensures BitAt(x, 0) == (x % 2 == 1)
  {
    LowOfOne(x);
  }

  /** The lowest bit of a bitwise result, and the others. */
  lemma BitwiseParts(op: BitOp, a: nat, b: nat, n: nat)
    requires n > 0
    ensures var r := Bitwise(op, a, b, n);
            r / 2 == Bitwise(op, a / 2, b / 2, n - 1) && (r % 2 == 1) == Bit(op, a % 2 == 1, b % 2 == 1)
  {
  }

  lemma {:induction false} BitwiseAt(op: BitOp, a: nat, b: nat, n: nat, k: nat)
    requires k < n
    ensures BitAt(Bitwise(op, a, b, n), k) == Bit(op, BitAt(a, k), BitAt(b, k))
  {
    hide BitAt, Bitwise, Bit;
    var r := Bitwise(op, a, b, n);
    BitwiseParts(op, a, b, n);
    if k == 0 {
      LowBit(a);
      LowBit(b);
      LowBit(r);
    } else {
      BitAtNext(a, k);
      BitAtNext(b, k);
      BitAtNext(r, k);
      BitwiseAt(op, a / 2, b / 2, n - 1, k - 1);
    }
  }

  /** The logical operations work on each of the 32 bits alone. */
  lemma LogicalBits(a: Word, b: Word, k: nat)
    requires k < 32
    ensures BitAt(Execute(AND, a, b), k) == (BitAt(a, k) && BitAt(b, k)) && Execute(ANDI, a, b) == Execute(AND, a, b)
    ensures BitAt(Execute(OR, a, b), k) == (BitAt(a, k) || BitAt(b, k)) && Execute(ORI, a, b) == Execute(OR, a, b)
    ensures BitAt(Execute(XOR, a, b), k) == (BitAt(a, k) != BitAt(b, k)) && Execute(XORI, a, b) == Execute(XOR, a, b)
  {
    hide BitAt, Bitwise, Pow2, TruncDiv, ToSigned, Wrap;
    BitwiseAt(And, a, b, 32, k);
    BitwiseAt(Or, a, b, 32, k);
    BitwiseAt(Xor, a, b, 32, k);
  }

  // ---- Comparisons

  lemma OrdersExecute(a: Word, b: Word)
    ensures Execute(SLTU, a, b) == if a < b then 1 else 0
    ensures Execute(SLT, a, b) == Execute(SLTI, a, b) == if ToSigned(a) < ToSigned(b) then 1 else 0
  {
    hide Pow2, TruncDiv, Bitwise, ToSigned, Wrap;
  }

  lemma Flipped(a: Word)
    ensures Wrap(a + 0x8000_0000) == ToSigned(a) + 0x8000_0000
  {
  }

  /** SLT is the signed and SLTU the unsigned order; they differ exactly for operands of different signs. */
  lemma Orders(a: Word, b: Word)
    ensures Execute(SLTU, a, b) == (if b - a > 0 then 1 else 0)
    ensures Execute(SLT, a, b) == Execute(SLTI, a, b) == Execute(SLTU, Wrap(a + 0x8000_0000), Wrap(b + 0x8000_0000))
    ensures Execute(SLT, a, b) != Execute(SLTU, a, b) <==> (a < 0x8000_0000) != (b < 0x8000_0000)
  {
    OrdersExecute(a, b);
    OrdersExecute(Wrap(a + 0x8000_0000), Wrap(b + 0x8000_0000));
    hide Execute;
    Flipped(a);
    Flipped(b);
  }

  /** The branches decide by the same orders, in complementary pairs. */
  lemma Branches(a: Word, b: Word)
    ensures Pipeline.EvalBranch(BEQ, a, b) <==> Execute(SUB, a, b) == 0
    ensures Pipeline.EvalBranch(BLT, a, b) <==> Execute(SLT, a, b) == 1
    ensures Pipeline.EvalBranch(BLTU, a, b) <==> Execute(SLTU, a, b) == 1
    ensures Pipeline.EvalBranch(BNE, a, b) != Pipeline.EvalBranch(BEQ, a, b)
    ensures Pipeline.EvalBranch(BGE, a, b) != Pipeline.EvalBranch(BLT, a, b)
    ensures Pipeline.EvalBranch(BGEU, a, b) != Pipeline.EvalBranch(BLTU, a, b)
  {
  }
}
