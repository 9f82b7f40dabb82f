/** Instruction words: the six encoders, and how they and decode undo each other. */
module Encoding {
  import opened Words
  import opened Isa

  /** `(opcode & 0x3F) << 26 | fields`, each field masked to its width. */
  function Word5(op: Opcode, a: int, b: int, low: nat): Word
    requires low < 0x1_0000
  {
    op % 64 * 0x400_0000 + a % 32 * 0x20_0000 + b % 32 * 0x1_0000 + low
  }

  function EncodeR(op: Opcode, rd: int, rs1: int, rs2: int, shamt: int): Word {
    Word5(op, rd, rs1, rs2 % 32 * 0x800 + shamt % 32 * 0x40)
  }

  function EncodeI(op: Opcode, rd: int, rs1: int, imm: int): Word { Word5(op, rd, rs1, imm % 0x1_0000) }

  function EncodeS(op: Opcode, rs2: int, rs1: int, off: int): Word { Word5(op, rs2, rs1, off % 0x1_0000) }

  function EncodeB(op: Opcode, rs1: int, rs2: int, off: int): Word { Word5(op, rs1, rs2, off % 0x1_0000) }

  function EncodeJ(op: Opcode, addr: int): Word { op % 64 * 0x400_0000 + addr % 0x400_0000 }

  function EncodeU(op: Opcode, rd: int, imm21: int): Word {
    op % 64 * 0x400_0000 + rd % 32 * 0x20_0000 + imm21 % 0x20_0000
  }

  lemma FieldsOf5(op: Opcode, a: Reg, b: Reg, low: nat)
    requires Defined(op) && low < 0x1_0000
    ensures var w := Word5(op, a, b, low); OpField(w) == op && Field25(w) == a && Field20(w) == b && w % 0x1_0000 == low
  {
    var w := Word5(op, a, b, low);
    assert w / 0x1_0000 == op * 0x400 + a * 32 + b;
    assert w / 0x20_0000 == op * 32 + a;
    assert w / 0x400_0000 == op;
  }

  /** The format of each opcode, by its number. */
  function FormatOf(op: Opcode): InstFmt {
    if 0x1C <= op <= 0x20 || op in [0x01, 0x09, 0x0B, 0x0D, 0x17, 0x1B, 0x2B, 0x2D, 0x35, 0x36] then InstFmt.I
    else if op == 0x18 then InstFmt.U
    else if op <= 0x1A || op == 0x2F || op == 0x30 then InstFmt.R
    else if op <= 0x23 then InstFmt.S
    else if op <= 0x29 then InstFmt.B
    else InstFmt.J
  }

  lemma FormatsAgree(op: Opcode)
    requires Defined(op)
    ensures FmtOf(op) == FormatOf(op)
  {
  }

  /** Where the fields of a word stand: opcode in bits 31 to 26, two registers in 25 to 21 and 20 to 16, and below
      them a signed immediate, or a third register in 15 to 11 and a shift amount in 10 to 6. A store's first register
      is the stored one; the long immediates are not signed. */
  lemma FieldPositions(op: Opcode, a: Reg, b: Reg, c: Reg, d: Reg, imm: nat)
    requires Defined(op) && imm < 0x1_0000
    ensures var w: Word := op * 0x400_0000 + a * 0x20_0000 + b * 0x1_0000 + c * 0x800 + d * 0x40;
            FormatOf(op).R? ==> Decode(w) == InstrR(op, a, b, c, d)
    ensures var w: Word := op * 0x400_0000 + a * 0x20_0000 + b * 0x1_0000 + imm;
            var x := if imm < 0x8000 then imm else imm - 0x1_0000;
            match FormatOf(op)
            case R => true
            case I => Decode(w) == InstrI(op, a, b, x)
            case S => Decode(w) == InstrS(op, a, b, x)
            case B => Decode(w) == InstrB(op, a, b, x)
            case U => Decode(w) == InstrU(op, a, b * 0x1_0000 + imm)
            case J => Decode(w) == InstrJ(op, a * 0x20_0000 + b * 0x1_0000 + imm)
  {
    FormatsAgree(op);
    FieldsDecoded(op, a, b, c, d, imm);
    hide Decode, FmtOf, FormatOf;
  }

  lemma FieldsDecoded(op: Opcode, a: Reg, b: Reg, c: Reg, d: Reg, imm: nat)
    requires Defined(op) && imm < 0x1_0000
    ensures var w: Word := op * 0x400_0000 + a * 0x20_0000 + b * 0x1_0000 + c * 0x800 + d * 0x40;
            FmtOf(op).R? ==> Decode(w) == InstrR(op, a, b, c, d)
    ensures var w: Word := op * 0x400_0000 + a * 0x20_0000 + b * 0x1_0000 + imm;
            && (FmtOf(op).I? ==> Decode(w) == InstrI(op, a, b, Sext16(imm)))
            && (FmtOf(op).S? ==> Decode(w) == InstrS(op, a, b, Sext16(imm)))
            && (FmtOf(op).B? ==> Decode(w) == InstrB(op, a, b, Sext16(imm)))
            && (FmtOf(op).U? ==> Decode(w) == InstrU(op, a, b * 0x1_0000 + imm))
            && (FmtOf(op).J? ==> Decode(w) == InstrJ(op, a * 0x20_0000 + b * 0x1_0000 + imm))
  {
    hide OpField, Field25, Field20, Field15, Field10, Low21, Low26, FmtOf, Sext16, Decode;
    var r: Word := op * 0x400_0000 + a * 0x20_0000 + b * 0x1_0000 + c * 0x800 + d * 0x40;
    var w: Word := op * 0x400_0000 + a * 0x20_0000 + b * 0x1_0000 + imm;
    FieldsOf5(op, a, b, c * 0x800 + d * 0x40);
    LowFields(r, c, d);
    DecodedFields(r, op);
    FieldsOf5(op, a, b, imm);
    LongFields(op, a, b, imm);
    DecodedFields(w, op);
  }

  /** Decoding, field by field. */
  lemma DecodedFields(w: Word, op: Opcode)
    requires OpField(w) == op && Defined(op)
    ensures Decode(w) ==
              match FmtOf(op)
              case R => InstrR(op, Field25(w), Field20(w), Field15(w), Field10(w))
              case I => InstrI(op, Field25(w), Field20(w), Sext16(w))
              case S => InstrS(op, Field25(w), Field20(w), Sext16(w))
              case B => InstrB(op, Field25(w), Field20(w), Sext16(w))
              case U => InstrU(op, Field25(w), Low21(w))
              case J => InstrJ(op, Low26(w))
  {
    hide OpField, Field25, Field20, Field15, Field10, Low21, Low26, FmtOf, Sext16;
  }

  lemma LongFields(op: Opcode, a: Reg, b: Reg, imm: nat)
    requires Defined(op) && imm < 0x1_0000
    ensures var w: Word := op * 0x400_0000 + a * 0x20_0000 + b * 0x1_0000 + imm;
            Low21(w) == b * 0x1_0000 + imm && Low26(w) == a * 0x20_0000 + b * 0x1_0000 + imm && Sext16(w) == Sext16(imm)
  {
    var w: Word := op * 0x400_0000 + a * 0x20_0000 + b * 0x1_0000 + imm;
    assert w % 0x1_0000 == imm;
  }

  lemma SextOfLow(imm: int)
    ensures Sext16(imm % 0x1_0000) == Sext16(imm)
  {
  }

  lemma DecodeR(op: Opcode, rd: Reg, rs1: Reg, rs2: Reg, shamt: Reg)
    requires Defined(op) && FmtOf(op) == InstFmt.R
    ensures Decode(EncodeR(op, rd, rs1, rs2, shamt)) == InstrR(op, rd, rs1, rs2, shamt)
  {
    hide Word5, OpField, Field25, Field20, Field15, Field10, Low21, Low26;
    var low := rs2 * 0x800 + shamt * 0x40;
    assert rs2 % 32 == rs2 && shamt % 32 == shamt;
    var w := EncodeR(op, rd, rs1, rs2, shamt);
    FieldsOf5(op, rd, rs1, low);
    LowFields(w, rs2, shamt);
  }

  lemma LowFields(w: Word, rs2: Reg, shamt: Reg)
    requires w % 0x1_0000 == rs2 * 0x800 + shamt * 0x40
    ensures Field15(w) == rs2 && Field10(w) == shamt
  {
    var q := w / 0x1_0000;
    assert w == q * 0x1_0000 + rs2 * 0x800 + shamt * 0x40;
    assert w / 0x800 == q * 32 + rs2;
    assert w / 0x40 == q * 1024 + rs2 * 32 + shamt;
  }

  lemma DecodeI(op: Opcode, rd: Reg, rs1: Reg, imm: int)
    requires Defined(op) && FmtOf(op) == InstFmt.I
    ensures Decode(EncodeI(op, rd, rs1, imm)) == InstrI(op, rd, rs1, Sext16(imm))
  {
    hide Word5, OpField, Field25, Field20, Field15, Field10, Low21, Low26;
    FieldsOf5(op, rd, rs1, imm % 0x1_0000);
  }

  lemma DecodeS(op: Opcode, rs2: Reg, rs1: Reg, off: int)
    requires Defined(op) && FmtOf(op) == InstFmt.S
    ensures Decode(EncodeS(op, rs2, rs1, off)) == InstrS(op, rs2, rs1, Sext16(off))
  {
    hide Word5, OpField, Field25, Field20, Field15, Field10, Low21, Low26;
    FieldsOf5(op, rs2, rs1, off % 0x1_0000);
  }

  lemma DecodeB(op: Opcode, rs1: Reg, rs2: Reg, off: int)
    requires Defined(op) && FmtOf(op) == InstFmt.B
    ensures Decode(EncodeB(op, rs1, rs2, off)) == InstrB(op, rs1, rs2, Sext16(off))
  {
    hide Word5, OpField, Field25, Field20, Field15, Field10, Low21, Low26;
    FieldsOf5(op, rs1, rs2, off % 0x1_0000);
  }

  lemma DecodeJ(op: Opcode, addr: int)
    requires Defined(op) && FmtOf(op) == InstFmt.J
    ensures Decode(EncodeJ(op, addr)) == InstrJ(op, addr % 0x400_0000)
  {
    var w := EncodeJ(op, addr);
    assert w / 0x400_0000 == op;
  }

  lemma DecodeU(op: Opcode, rd: Reg, imm21: int)
    requires Defined(op) && FmtOf(op) == InstFmt.U
    ensures Decode(EncodeU(op, rd, imm21)) == InstrU(op, rd, imm21 % 0x20_0000)
  {
    var w := EncodeU(op, rd, imm21);
    assert w / 0x20_0000 == op * 32 + rd;
    assert w / 0x400_0000 == op;
  }

  /** The encoder of an instruction's format, on its fields. */
  function Encode(i: Instr): Word
    requires !i.Undefined?
  {
    match i
    case InstrR(op, rd, rs1, rs2, shamt) => EncodeR(op, rd, rs1, rs2, shamt)
    case InstrI(op, rd, rs1, imm) => EncodeI(op, rd, rs1, imm)
    case InstrS(op, rs2, rs1, off) => EncodeS(op, rs2, rs1, off)
    case InstrB(op, rs1, rs2, off) => EncodeB(op, rs1, rs2, off)
    case InstrJ(op, addr) => EncodeJ(op, addr)
    case InstrU(op, rd, imm21) => EncodeU(op, rd, imm21)
  }

  /** An opcode of the right format, and fields within their widths. */
  predicate Fits(i: Instr) {
    match i
    case InstrR(op, _, _, _, _) => Defined(op) && FmtOf(op) == InstFmt.R
    case InstrI(op, _, _, imm) => Defined(op) && FmtOf(op) == InstFmt.I && -0x8000 <= imm < 0x8000
    case InstrS(op, _, _, off) => Defined(op) && FmtOf(op) == InstFmt.S && -0x8000 <= off < 0x8000
    case InstrB(op, _, _, off) => Defined(op) && FmtOf(op) == InstFmt.B && -0x8000 <= off < 0x8000
    case InstrJ(op, addr) => Defined(op) && FmtOf(op) == InstFmt.J && addr < 0x400_0000
    case InstrU(op, _, imm21) => Defined(op) && FmtOf(op) == InstFmt.U && imm21 < 0x20_0000
    case Undefined(_) => false
  }

  /** Decoding what was encoded gives the instruction back. */
  lemma DecodeEncode(i: Instr)
    requires Fits(i)
    ensures Decode(Encode(i)) == i
  {
    hide EncodeR, EncodeI, EncodeS, EncodeB, EncodeJ, EncodeU, Decode;
    match i
    case InstrR(op, rd, rs1, rs2, shamt) => DecodeR(op, rd, rs1, rs2, shamt);
    case InstrI(op, rd, rs1, imm) => DecodeI(op, rd, rs1, imm);
    case InstrS(op, rs2, rs1, off) => DecodeS(op, rs2, rs1, off);
    case InstrB(op, rs1, rs2, off) => DecodeB(op, rs1, rs2, off);
    case InstrJ(op, addr) => DecodeJ(op, addr);
    case InstrU(op, rd, imm21) => DecodeU(op, rd, imm21);
  }

  lemma SplitFields(w: Word)
    ensures w == OpField(w) * 0x400_0000 + Field25(w) * 0x20_0000 + Field20(w) * 0x1_0000 + w % 0x1_0000
    ensures w == OpField(w) * 0x400_0000 + Field25(w) * 0x20_0000 + Low21(w) && w == OpField(w) * 0x400_0000 + Low26(w)
    ensures w % 0x1_0000 == Field15(w) * 0x800 + Field10(w) * 0x40 + w % 0x40
  {
    var a, b, c, d := w / 0x400_0000, w / 0x20_0000, w / 0x1_0000, w / 0x800;
    assert a == b / 32 && b == c / 32 && c == d / 32 && d == w / 0x40 / 32;
  }

  /** Encoding a decoded word restores it exactly when the bits that its format leaves unused are zero. */
  lemma EncodeDecodeIff(w: Word)
    requires Defined(OpField(w))
    ensures Decode(w).Undefined? == false
    ensures Encode(Decode(w)) == w <==> (FmtOf(OpField(w)) == InstFmt.R ==> w % 0x40 == 0)
  {
    RebuildR(w);
    RebuildHalf(w);
    RebuildWide(w);
    hide OpField, Field25, Field20, Field15, Field10, Low21, Low26, Sext16, Defined, Word5;
    hide EncodeR, EncodeI, EncodeS, EncodeB, EncodeJ, EncodeU;
  }

  lemma RebuildHalf(w: Word)
    requires Defined(OpField(w))
    ensures EncodeI(OpField(w), Field25(w), Field20(w), Sext16(w)) == w
    ensures EncodeS(OpField(w), Field25(w), Field20(w), Sext16(w)) == w
    ensures EncodeB(OpField(w), Field25(w), Field20(w), Sext16(w)) == w
  {
    SextBack(w);
    Rebuild5(w, w);
    hide OpField, Field25, Field20, Sext16, Word5;
  }

  lemma RebuildWide(w: Word)
    requires Defined(OpField(w))
    ensures EncodeJ(OpField(w), Low26(w)) == w && EncodeU(OpField(w), Field25(w), Low21(w)) == w
  {
    hide OpField, Field25, Field20, Field15, Field10, Low21, Low26, Defined;
    SplitFields(w);
    FieldBounds(w);
    Below32(Field25(w));
  }

  lemma Below32(r: Reg)
    ensures r % 32 == r
  {
  }

  lemma Rebuild5(w: Word, low: int)
    requires Defined(OpField(w)) && low % 0x1_0000 == w % 0x1_0000
    ensures Word5(OpField(w), Field25(w), Field20(w), low % 0x1_0000) == w
  {
    hide OpField, Field25, Field20, Field15, Field10, Low21, Low26, Defined;
    SplitFields(w);
    FieldBounds(w);
    Below32(Field25(w));
    Below32(Field20(w));
  }

  lemma RebuildR(w: Word)
    requires Defined(OpField(w))
    ensures EncodeR(OpField(w), Field25(w), Field20(w), Field15(w), Field10(w)) + w % 0x40 == w
  {
    hide OpField, Field25, Field20, Field15, Field10, Low21, Low26, Defined;
    SplitFields(w);
    FieldBounds(w);
    Below32(Field25(w));
    Below32(Field20(w));
    Below32(Field15(w));
    Below32(Field10(w));
  }

  lemma SextBack(w: int)
    ensures Sext16(w) % 0x1_0000 == w % 0x1_0000
  {
  }

  lemma FieldBounds(w: Word)
    requires Defined(OpField(w))
    ensures OpField(w) % 64 == OpField(w) && Low21(w) % 0x20_0000 == Low21(w) && Low26(w) % 0x400_0000 == Low26(w)
  {
  }
}
