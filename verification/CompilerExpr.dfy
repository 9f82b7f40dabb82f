/** Code for expressions computes their values. */
module CompilerExpr {
  import opened Words
  import opened Isa
  import opened Memory
  import opened Wrappers
  import opened Ast
  import opened Assembly
  import opened Sequential
  import opened CodeGen
  import opened Semantics
  import opened CompilerStatic
  import Bits
  import Alu

  // ---- Machine and source states

  /** Registers below `from`, SP and LR are as before; only temporaries and the scratch may differ. */
  ghost predicate Kept(s: Arch, s': Arch, from: int) {
    forall j: Reg :: (j < from || j >= 30) && j != 26 ==> s'.regs[j] == s.regs[j]
  }

  /** The machine gets from s to s', `size` words further on, without touching memory. */
  ghost predicate Ran(s: Arch, s': Arch, size: nat) {
    Reaches(s, s') && s'.pc == s.pc + size && s'.mem == s.mem
  }

  ghost predicate Agree(cx: Cx, st: Store, s: Arch) {
    && s.mem == st.mem
    && forall x | x in st.env :: x in cx.vars && (st.env[x].Some? ==> s.regs[cx.vars[x]] == st.env[x].value)
  }

  lemma AgreeKept(cx: Cx, cx': Cx, st: Store, s: Arch, s': Arch)
    requires Sound(cx) && Agree(cx, st, s) && Extends(cx, cx') && Kept(s, s', cx.nextReg) && s'.mem == s.mem
    ensures Agree(cx', st, s')
  {
  }

  // ---- Single instructions

  lemma CodeHead(m: Mem, t: Symbols, a: nat, line: Line, rest: seq<Line>)
    requires CodeAt(m, t, a, [line] + rest)
    ensures line.mark.Some? ==> line.mark.value in t && t[line.mark.value] == a
    ensures line.body == Empty ==> CodeAt(m, t, a, rest)
    ensures Size([line] + rest) == (if IsInstruction(line.body) then 1 else 0) + Size(rest)
  {
    assert ([line] + rest)[1..] == rest;
  }

  lemma RunR(t: Symbols, op: Opcode, rd: Reg, rs1: Reg, rs2: Reg, rest: seq<Line>, s: Arch) returns (s': Arch)
    requires CodeAt(s.mem, t, s.pc, [RegOp(op, rd, rs1, rs2)] + rest) && rd != 0
    requires IsRegisterAlu(op) && !IsShiftImmediate(op)
    ensures Ran(s, s', 1) && s'.regs == s.regs[rd := Alu.Execute(op, s.regs[rs1], s.regs[rs2])]
    ensures CodeAt(s.mem, t, s'.pc, rest)
  {
    hide Alu.Execute;
    s' := RunOne(t, InsR(op, rd, rs1, rs2, 0), rest, s);
  }

  lemma MoviValue(a: Word, v: int)
    requires -0x8000 <= v < 0x8000
    ensures Alu.Execute(MOVI, a, Wrap(Sext16(v))) == Wrap(v)
  {
    assert Sext16(v) == v;
    hide Sext16;
  }

  lemma RunMovi(t: Symbols, rd: Reg, v: int, rest: seq<Line>, s: Arch) returns (s': Arch)
    requires CodeAt(s.mem, t, s.pc, [Movi(rd, v)] + rest) && rd != 0 && -0x8000 <= v < 0x8000
    ensures Ran(s, s', 1) && s'.regs == s.regs[rd := Wrap(v)]
    ensures CodeAt(s.mem, t, s'.pc, rest)
  {
    hide Alu.Execute, Sext16;
    s' := RunOne(t, InsI(MOVI, rd, 0, Num(v)), rest, s);
    MoviValue(s.regs[0], v);
  }

  lemma RunLoad(t: Symbols, rd: Reg, rs1: Reg, rest: seq<Line>, s: Arch) returns (s': Arch)
    requires CodeAt(s.mem, t, s.pc, [LoadWord(rd, rs1)] + rest) && rd != 0
    ensures Ran(s, s', 1) && s'.regs == s.regs[rd := s.mem[Index(s.regs[rs1])]]
    ensures CodeAt(s.mem, t, s'.pc, rest)
  {
    s' := RunOne(t, InsI(LW, rd, rs1, Num(0)), rest, s);
  }

  lemma RunBranch(t: Symbols, op: Opcode, r: Reg, l: Symbol, rest: seq<Line>, s: Arch) returns (s': Arch)
    requires CodeAt(s.mem, t, s.pc, [BranchTo(op, r, l)] + rest) && (op == BEQ || op == BNE)
    ensures Reaches(s, s') && l in t && t[l] >= 0
    ensures s' == s.(pc := if (op == BEQ) == (s.regs[r] == 0) then t[l] else s.pc + 1)
    ensures CodeAt(s.mem, t, s.pc + 1, rest)
  {
    s' := RunOne(t, InsB(op, r, 0, Sym(l)), rest, s);
  }

  lemma RunJump(t: Symbols, l: Symbol, rest: seq<Line>, s: Arch) returns (s': Arch)
    requires CodeAt(s.mem, t, s.pc, [JumpTo(l)] + rest)
    ensures Reaches(s, s') && l in t && t[l] >= 0 && s' == s.(pc := t[l])
    ensures CodeAt(s.mem, t, s.pc + 1, rest)
  {
    s' := RunOne(t, InsJ(JMP, Sym(l)), rest, s);
  }

  // ---- Constants

  /** What the load sequence for v leaves in the register. */
  function LoadedValue(v: int): Word {
    if -0x8000 <= v <= 0x7FFF || v % 0x1_0000 < 0x8000 then Wrap(v) else 0xFFFF_0000 + v % 0x1_0000
  }

  /** Exactly the Loadable constants arrive unchanged. */
  lemma LoadImmExact(v: int)
    ensures LoadedValue(v) == Wrap(v) <==> Loadable(v)
  {
    var x := Wrap(v);
    assert v == x + v / 0x1_0000_0000 * 0x1_0000_0000;
    assert x % 0x1_0000 == v % 0x1_0000 && x / 0x1_0000 == v / 0x1_0000 % 0x1_0000;
  }

  lemma FieldOf(q: int, y: int, z: int)
    requires 0 <= y < 0x20_0000 && 0 <= z < 0x800
    ensures (q * 0x1_0000_0000 + y * 0x800 + z) / 0x800 % 0x20_0000 == y
  {
    assert (q * 0x1_0000_0000 + y * 0x800 + z) / 0x800 == q * 0x20_0000 + y;
  }

  lemma HalfOf(q: int, k: int, z: int)
    requires 0 <= z < 0x1_0000
    ensures (q * 0x1_0000_0000 + k * 0x1_0000 + z) % 0x1_0000 == z
  {
    assert q * 0x1_0000_0000 + k * 0x1_0000 == (q * 0x1_0000 + k) * 0x1_0000;
  }

  lemma WordParts(v: int)
    ensures v == v / 0x1_0000_0000 * 0x1_0000_0000 + Wrap(v)
  {
  }

  lemma PartsOfWord(q: int, x: Word)
    ensures (q * 0x1_0000_0000 + x) / 0x800 % 0x20_0000 == x / 0x800
    ensures (q * 0x1_0000_0000 + x) % 0x1_0000 == x % 0x1_0000
  {
    FieldOf(q, x / 0x800, x % 0x800);
    HalfOf(q, x / 0x1_0000, x % 0x1_0000);
    assert x == x / 0x800 * 0x800 + x % 0x800 && x == x / 0x1_0000 * 0x1_0000 + x % 0x1_0000;
  }

  lemma UpperOfWord(x: Word)
    ensures Wrap(x / 0x800 * 0x800) == Bits.Upper(x, 0x800)
  {
    assert x / 0x800 * 0x800 == x - x % 0x800;
  }

  lemma UpperField(v: int)
    ensures Wrap(v / 0x800 % 0x20_0000 * 0x800) == Bits.Upper(Wrap(v), 0x800)
    ensures Wrap(v) % 0x1_0000 == v % 0x1_0000
  {
    hide *;
    WordParts(v);
    PartsOfWord(v / 0x1_0000_0000, Wrap(v));
    UpperOfWord(Wrap(v));
  }

  lemma LoadImmRuns(t: Symbols, rd: Reg, v: int, s: Arch) returns (s': Arch)
    requires CodeAt(s.mem, t, s.pc, LoadImm(rd, v)) && rd != 0
    ensures Ran(s, s', Size(LoadImm(rd, v))) && s'.regs == s.regs[rd := LoadedValue(v)]
  {
    hide Alu.Execute, Sext16, Reaches;
    if -0x8000 <= v <= 0x7FFF {
      assert LoadImm(rd, v) == [Movi(rd, v)] + [];
      s' := RunMovi(t, rd, v, [], s);
    } else {
      s' := LoadWideRuns(t, rd, v, s);
    }
  }

  lemma OriValue(a: Word, lower: nat)
    requires 0 < lower < 0x1_0000
    ensures Alu.Execute(ORI, a, Wrap(Sext16(lower)))
         == WordBitwise(Or, a, if lower < 0x8000 then lower else 0xFFFF_0000 + lower)
  {
    hide WordBitwise;
  }

  lemma WideValue(v: int)
    requires !(-0x8000 <= v <= 0x7FFF)
    ensures var high := Wrap(v / 0x800 % 0x20_0000 * 0x800);
            LoadedValue(v) == if v % 0x1_0000 == 0 then high else Alu.Execute(ORI, high, Wrap(Sext16(v % 0x1_0000)))
  {
    hide Alu.Execute, Sext16, WordBitwise, Bits.Upper;
    UpperField(v);
    Bits.UpperThenLower(Wrap(v));
    if v % 0x1_0000 == 0 {
      UpperWhole(Wrap(v));
    } else {
      OriValue(Bits.Upper(Wrap(v), 0x800), v % 0x1_0000);
    }
  }

  lemma UpperWhole(x: Word)
    requires x % 0x1_0000 == 0
    ensures Bits.Upper(x, 0x800) == x
  {
  }

  lemma LoadWideRuns(t: Symbols, rd: Reg, v: int, s: Arch) returns (s': Arch)
    requires CodeAt(s.mem, t, s.pc, LoadImm(rd, v)) && rd != 0 && !(-0x8000 <= v <= 0x7FFF)
    ensures Ran(s, s', Size(LoadImm(rd, v))) && s'.regs == s.regs[rd := LoadedValue(v)]
  {
    hide Alu.Execute, Sext16, CodeAt, IsaStep, Reaches, Wrap, LoadedValue;
    var upper, lower := v / 0x800 % 0x20_0000, v % 0x1_0000;
    var first := InsU(MOVHI, rd, Num(upper));
    var second := InsI(ORI, rd, rd, Num(lower));
    var rest := if lower != 0 then [Ins(second)] else [];
    assert LoadImm(rd, v) == [Ins(first)] + rest;
    CodeHead(s.mem, t, s.pc, Ins(first), rest);
    var s1 := RunOne(t, first, rest, s);
    WideValue(v);
    if lower == 0 {
      s' := s1;
    } else {
      assert rest == [Ins(second)] + [];
      CodeHead(s1.mem, t, s1.pc, Ins(second), []);
      s' := RunOne(t, second, [], s1);
      ReachesTrans(s, s1, s');
    }
  }

  // ---- Operators

  lemma WrapShift(x: int, k: int)
    ensures Wrap(x + k * 0x1_0000_0000) == Wrap(x)
  {
    var q := x / 0x1_0000_0000;
    assert x + k * 0x1_0000_0000 == (q + k) * 0x1_0000_0000 + x % 0x1_0000_0000;
  }

  /** The low 32 bits of a product do not depend on the signedness of its factors. */
  lemma SignedProduct(a: Word, b: Word)
    ensures Wrap(ToSigned(a) * ToSigned(b)) == Wrap(a * b)
  {
    var M := 0x1_0000_0000;
    var i, j := if a < 0x8000_0000 then 0 else 1, if b < 0x8000_0000 then 0 else 1;
    var k := i * j * M - i * b - j * a;
    assert ToSigned(a) == a - i * M && ToSigned(b) == b - j * M;
    assert (a - i * M) * (b - j * M) == a * b + k * M;
    WrapShift(a * b, k);
  }

  lemma ArithmeticValue(op: BinaryOp, a: Word, b: Word)
    requires IsArithmetic(op) && BinaryValue(op, a, b).Some?
    ensures Alu.Execute(ArithmeticOpcode(op), a, b) == BinaryValue(op, a, b).value
    ensures IsRegisterAlu(ArithmeticOpcode(op)) && !IsShiftImmediate(ArithmeticOpcode(op))
  {
    hide WordBitwise, Alu.TruncDiv, Pow2, ToSigned;
    if op.Times? { SignedProduct(a, b); }
    if op.ShiftLeft? || op.ShiftRight? { assert b % 32 == b; }
  }

  lemma {:induction false} NoBitsSet(n: nat)
    ensures Bitwise(Xor, 0, 0, n) == 0
  {
    if n > 0 { NoBitsSet(n - 1); }
  }

  lemma XorOne(x: Word, n: nat)
    requires x <= 1 && n > 0
    ensures Bitwise(Xor, x, 1, n) == 1 - x
  {
    NoBitsSet(n - 1);
    assert x / 2 == 0;
  }

  lemma FlipBit(x: Word)
    requires x <= 1
    ensures Alu.Execute(XORI, x, Wrap(Sext16(1))) == 1 - x
  {
    XorOne(x, 32);
    hide Bitwise;
    assert Wrap(Sext16(1)) == 1;
    hide Sext16, Wrap;
  }

  lemma RunFlip(t: Symbols, rd: Reg, rest: seq<Line>, s: Arch) returns (s': Arch)
    requires CodeAt(s.mem, t, s.pc, [Ins(InsI(XORI, rd, rd, Num(1)))] + rest) && rd != 0 && s.regs[rd] <= 1
    ensures Ran(s, s', 1) && s'.regs == s.regs[rd := 1 - s.regs[rd]]
  {
    hide Alu.Execute, Sext16;
    s' := RunOne(t, InsI(XORI, rd, rd, Num(1)), rest, s);
    FlipBit(s.regs[rd]);
  }

  function FlagTail(rd: Reg, taken: int, lt: Symbol, le: Symbol): seq<Line> {
    [Movi(rd, 1 - taken), JumpTo(le), Mark(lt), Movi(rd, taken), Mark(le)]
  }

  /** The five lines of a flag, taken apart. */
  lemma FlagShape(m: Mem, t: Symbols, a: nat, rd: Reg, taken: int, lt: Symbol, le: Symbol)
    requires CodeAt(m, t, a, FlagTail(rd, taken, lt, le))
    ensures Size(FlagTail(rd, taken, lt, le)) == 3
    ensures lt in t && le in t && t[lt] == a + 2 && t[le] == a + 3
    ensures CodeAt(m, t, a, [Movi(rd, 1 - taken)] + [JumpTo(le)]) && CodeAt(m, t, a + 2, [Movi(rd, taken)] + [])
  {
    hide CodeAt;
    var l0, l1, l2, l3, l4 := Movi(rd, 1 - taken), JumpTo(le), Mark(lt), Movi(rd, taken), Mark(le);
    assert FlagTail(rd, taken, lt, le) == [l0, l1] + [l2, l3, l4];
    CodeAtConcat(m, t, a, [l0, l1], [l2, l3, l4]);
    SizeConcat([l0, l1], [l2, l3, l4]);
    assert [l0, l1] == [l0] + [l1] && Size([l0, l1]) == 2;
    assert [l2, l3, l4] == [l2] + ([l3] + [l4]);
    CodeHead(m, t, a + 2, l2, [l3] + [l4]);
    CodeAtConcat(m, t, a + 2, [l3], [l4]);
    SizeConcat([l3], [l4]);
    assert [l4] == [l4] + [] && [l3] == [l3] + [];
    CodeHead(m, t, a + 3, l4, []);
  }

  lemma FlagFalls(t: Symbols, rd: Reg, taken: int, lt: Symbol, le: Symbol, s: Arch) returns (s': Arch)
    requires CodeAt(s.mem, t, s.pc, FlagTail(rd, taken, lt, le)) && rd != 0 && 0 <= taken <= 1
    ensures Ran(s, s', 3) && s'.regs == s.regs[rd := 1 - taken]
  {
    hide CodeAt, Size, IsaStep, FlagTail, Reaches;
    FlagShape(s.mem, t, s.pc, rd, taken, lt, le);
    var rest := [JumpTo(le)];
    var s1 := RunMovi(t, rd, 1 - taken, rest, s);
    assert rest + [] == rest;
    assert CodeAt(s1.mem, t, s1.pc, [JumpTo(le)] + []);
    s' := RunJump(t, le, [], s1);
    ReachesTrans(s, s1, s');
  }

  lemma FlagTaken(t: Symbols, a: nat, rd: Reg, taken: int, lt: Symbol, le: Symbol, s: Arch) returns (s': Arch)
    requires CodeAt(s.mem, t, a, FlagTail(rd, taken, lt, le)) && rd != 0 && 0 <= taken <= 1
    requires lt in t && s.pc == t[lt]
    ensures Reaches(s, s') && s'.pc == a + 3 && s'.mem == s.mem && s'.regs == s.regs[rd := taken]
  {
    hide CodeAt, Size, IsaStep, FlagTail, Reaches;
    FlagShape(s.mem, t, a, rd, taken, lt, le);
    s' := RunMovi(t, rd, taken, [], s);
  }

  /** Only rd and, for == and !=, the scratch change. */
  ghost predicate Operated(op: BinaryOp, rd: Reg, a: Word, b: Word, s: Arch, s': Arch)
    requires !IsLogical(op)
  {
    && BinaryValue(op, a, b) == Some(s'.regs[rd])
    && s'.regs[FLAGS_TMP] == (if op.Equal? || op.NotEqual? then Difference(a, b) else s.regs[FLAGS_TMP])
    && forall j: Reg | j != rd && j != FLAGS_TMP :: s'.regs[j] == s.regs[j]
  }

  lemma EqualityRuns(t: Symbols, op: BinaryOp, rd: Reg, rl: Reg, rr: Reg, lt: Symbol, le: Symbol,
      s: Arch) returns (s': Arch)
    requires (op.Equal? || op.NotEqual?) && Allocatable(rd)
    requires CodeAt(s.mem, t, s.pc,
                    Flag(rd, [RegOp(SUB, FLAGS_TMP, rl, rr), BranchTo(if op.Equal? then BEQ else BNE, FLAGS_TMP, lt)],
                        1, lt, le))
    ensures Size(Flag(rd, [RegOp(SUB, FLAGS_TMP, rl, rr), BranchTo(if op.Equal? then BEQ else BNE, FLAGS_TMP, lt)], 1,
            lt, le)) == 5
    ensures Ran(s, s', 5) && Operated(op, rd, s.regs[rl], s.regs[rr], s, s')
  {
    hide CodeAt, Size, IsaStep, Reaches;
    var sub, br := RegOp(SUB, FLAGS_TMP, rl, rr), BranchTo(if op.Equal? then BEQ else BNE, FLAGS_TMP, lt);
    var tail := FlagTail(rd, 1, lt, le);
    assert Flag(rd, [sub, br], 1, lt, le) == [sub] + ([br] + tail);
    var s1 := RunR(t, SUB, FLAGS_TMP, rl, rr, [br] + tail, s);
    CodeHead(s.mem, t, s.pc, sub, [br] + tail);
    CodeHead(s.mem, t, s1.pc, br, tail);
    var s2 := RunBranch(t, if op.Equal? then BEQ else BNE, FLAGS_TMP, lt, tail, s1);
    var a, b := s.regs[rl], s.regs[rr];
    assert s1.regs[FLAGS_TMP] == Difference(a, b) && (Difference(a, b) == 0 <==> a == b);
    FlagShape(s.mem, t, s1.pc + 1, rd, 1, lt, le);
    ReachesTrans(s, s1, s2);
    if s2.pc == s1.pc + 1 && (op.Equal? ==> a != b) && (op.NotEqual? ==> a == b) {
      s' := FlagFalls(t, rd, 1, lt, le, s2);
    } else {
      s' := FlagTaken(t, s1.pc + 1, rd, 1, lt, le, s2);
    }
    ReachesTrans(s, s2, s');
  }

  lemma SltValue(a: Word, b: Word)
    ensures Alu.Execute(SLT, a, b) == Truth(ToSigned(a) < ToSigned(b))
  {
    hide ToSigned;
  }

  /** A comparison by SLT of x and y, negated for the two non-strict operators. */
  lemma OrderValue(op: BinaryOp, a: Word, b: Word)
    requires op.LessEqual? || op.GreaterEqual? || op.Less? || op.Greater?
    ensures BinaryValue(op, a, b).Some?
    ensures var swap := op.Greater? || op.LessEqual?;
            var slt := Truth(ToSigned(if swap then b else a) < ToSigned(if swap then a else b));
            BinaryValue(op, a, b).value == if op.Less? || op.Greater? then slt else 1 - slt
  {
    hide ToSigned;
  }

  lemma CompareRuns(t: Symbols, op: BinaryOp, rd: Reg, rl: Reg, rr: Reg, cx: Cx, s: Arch) returns (s': Arch)
    requires op.LessEqual? || op.GreaterEqual? || op.Less? || op.Greater?
    requires Allocatable(rd) && CodeAt(s.mem, t, s.pc, Compare(op, rd, rl, rr, cx).0)
    ensures Ran(s, s', Size(Compare(op, rd, rl, rr, cx).0)) && Operated(op, rd, s.regs[rl], s.regs[rr], s, s')
  {
    hide CodeAt, IsaStep, Reaches, BinaryValue, ToSigned, Alu.Execute;
    var x, y := if op.Less? || op.GreaterEqual? then rl else rr, if op.Less? || op.GreaterEqual? then rr else rl;
    var code := Compare(op, rd, rl, rr, cx).0;
    var slt := RegOp(SLT, rd, x, y);
    SltValue(s.regs[x], s.regs[y]);
    OrderValue(op, s.regs[rl], s.regs[rr]);
    if op.Less? || op.Greater? {
      assert code == [slt] + [];
      s' := RunR(t, SLT, rd, x, y, [], s);
    } else {
      var flip := Ins(InsI(XORI, rd, rd, Num(1)));
      assert code == [slt] + [flip] && [flip] == [flip] + [];
      SizeConcat([slt], [flip]);
      var s1 := RunR(t, SLT, rd, x, y, [flip], s);
      s' := RunFlip(t, rd, [], s1);
      ReachesTrans(s, s1, s');
    }
  }

  /** The instructions of an operator compute its value. */
  lemma OperateRuns(t: Symbols, op: BinaryOp, rd: Reg, rl: Reg, rr: Reg, cx: Cx, s: Arch) returns (s': Arch)
    requires !IsLogical(op) && Allocatable(rd) && BinaryValue(op, s.regs[rl], s.regs[rr]).Some?
    requires CodeAt(s.mem, t, s.pc, Operate(op, rd, rl, rr, cx).0)
    ensures Ran(s, s', Size(Operate(op, rd, rl, rr, cx).0)) && Operated(op, rd, s.regs[rl], s.regs[rr], s, s')
  {
    hide CodeAt, IsaStep, Reaches, BinaryValue;
    if IsArithmetic(op) {
      var line := RegOp(ArithmeticOpcode(op), rd, rl, rr);
      assert Operate(op, rd, rl, rr, cx).0 == [line] + [];
      ArithmeticValue(op, s.regs[rl], s.regs[rr]);
      s' := RunR(t, ArithmeticOpcode(op), rd, rl, rr, [], s);
    } else if op.Equal? || op.NotEqual? {
      s' := EqualityRuns(t, op, rd, rl, rr, NewLabel(cx, "CMP_T").0, NewLabel(NewLabel(cx, "CMP_T").1, "CMP_E").0, s);
    } else {
      s' := CompareRuns(t, op, rd, rl, rr, cx, s);
    }
  }

  // ---- Expressions

  /** g's code, run from s, leaves v in g.reg and scratch in R26, and keeps what was live below `from`. */
  ghost predicate Computes(g: Gen, from: int, v: Word, scratch: Word, s: Arch, s': Arch) {
    Ran(s, s', Size(g.code)) && s'.regs[g.reg] == v && s'.regs[FLAGS_TMP] == scratch && Kept(s, s', from)
  }

  /** Two pieces of code, one after the other. */
  lemma Split(m: Mem, t: Symbols, a: nat, x: seq<Line>, y: seq<Line>)
    requires CodeAt(m, t, a, x + y)
    ensures CodeAt(m, t, a, x) && CodeAt(m, t, a + Size(x), y) && Size(x + y) == Size(x) + Size(y)
  {
    CodeAtConcat(m, t, a, x, y);
    SizeConcat(x, y);
  }

  lemma ConstantRuns(t: Symbols, cx: Cx, v: int, s: Arch) returns (s': Arch)
    requires Sound(cx) && AllocTemp(cx).Some? && Loadable(v)
    requires CodeAt(s.mem, t, s.pc, LoadImm(AllocTemp(cx).value.0, v))
    ensures var (r, cx1) := AllocTemp(cx).value;
            Computes(Gen(LoadImm(r, v), r, cx1), cx.nextReg, Wrap(v), s.regs[FLAGS_TMP], s, s')
  {
    hide CodeAt, Size, IsaStep, Reaches, LoadImm;
    TempFacts(cx);
    LoadImmExact(v);
    s' := LoadImmRuns(t, AllocTemp(cx).value.0, v, s);
  }

  /** Loading the word at the address that r holds into a fresh register. */
  lemma FetchRuns(t: Symbols, cx: Cx, g: Gen, from: int, a: Word, scratch: Word, s: Arch, s1: Arch) returns (s': Arch)
    requires Sound(g.cx) && from <= g.cx.nextReg && AllocTemp(g.cx).Some? && Computes(g, from, a, scratch, s, s1)
    requires CodeAt(s.mem, t, s.pc, g.code + [LoadWord(AllocTemp(g.cx).value.0, g.reg)])
    ensures var (r, cx1) := AllocTemp(g.cx).value;
            Computes(Gen(g.code + [LoadWord(r, g.reg)], r, cx1), from, s.mem[Index(a)], scratch, s, s')
  {
    hide CodeAt, Size, IsaStep, Reaches;
    TempFacts(g.cx);
    var load := LoadWord(AllocTemp(g.cx).value.0, g.reg);
    Split(s.mem, t, s.pc, g.code, [load]);
    assert [load] == [load] + [];
    CodeHead(s.mem, t, s1.pc, load, []);
    s' := RunLoad(t, AllocTemp(g.cx).value.0, g.reg, [], s1);
    NoCode();
    ReachesTrans(s, s1, s');
  }

  function WordSum(a: Word, b: Word): Word { Wrap(a + b) }

  lemma RunAdd(t: Symbols, rd: Reg, x: Reg, y: Reg, s: Arch) returns (s': Arch)
    requires CodeAt(s.mem, t, s.pc, [RegOp(ADD, rd, x, y)]) && rd != 0
    ensures Size([RegOp(ADD, rd, x, y)]) == 1
    ensures Ran(s, s', 1) && s'.regs == s.regs[rd := WordSum(s.regs[x], s.regs[y])]
  {
    hide IsaStep, Reaches;
    assert [RegOp(ADD, rd, x, y)] == [RegOp(ADD, rd, x, y)] + [];
    s' := RunR(t, ADD, rd, x, y, [], s);
  }

  /** The sum of two registers into a fresh one, at the end of an address computation. */
  lemma AddAfter(t: Symbols, from: int, n: nat, rd: Reg, x: Reg, y: Reg, s: Arch, s1: Arch) returns (s': Arch)
    requires Ran(s, s1, n) && Kept(s, s1, from) && Allocatable(rd) && rd >= from
    requires CodeAt(s.mem, t, s1.pc, [RegOp(ADD, rd, x, y)])
    ensures Size([RegOp(ADD, rd, x, y)]) == 1
    ensures Ran(s, s', n + 1) && Kept(s, s', from)
    ensures s'.regs[rd] == WordSum(s1.regs[x], s1.regs[y]) && s'.regs[FLAGS_TMP] == s1.regs[FLAGS_TMP]
  {
    hide CodeAt, Size, IsaStep, Reaches;
    s' := RunAdd(t, rd, x, y, s1);
    ReachesTrans(s, s1, s');
  }

  lemma NoCode()
    ensures Size([]) == 0
  {
  }

  lemma VarRuns(t: Symbols, cx: Cx, name: string, s: Arch, st: Store) returns (s': Arch)
    requires Sound(cx) && GenVar(cx, name).Some? && Agree(cx, st, s) && VarValue(cx.layout, name, st).Some?
    requires CodeAt(s.mem, t, s.pc, GenVar(cx, name).value.code)
    ensures Computes(GenVar(cx, name).value, cx.nextReg, VarValue(cx.layout, name, st).value,
                     VarScratch(cx.layout, name, s.regs[FLAGS_TMP]), s, s')
  {
    hide CodeAt, Size, IsaStep, Reaches, LoadImm, Index;
    NoCode();
    if name in cx.layout.globals {
      var addr := cx.layout.globals[name];
      var (r, cx1) := AllocTemp(cx).value;
      TempFacts(cx);
      LoadImmExact(addr);
      var load := LoadWord(r, FLAGS_TMP);
      Split(s.mem, t, s.pc, LoadImm(FLAGS_TMP, addr), [load]);
      var s1 := LoadImmRuns(t, FLAGS_TMP, addr, s);
      assert [load] == [load] + [];
      CodeHead(s.mem, t, s1.pc, load, []);
      s' := RunLoad(t, r, FLAGS_TMP, [], s1);
      ReachesTrans(s, s1, s');
    } else {
      ReachesSelf(s);
      s' := s;
    }
  }

  lemma AgreeSame(cx: Cx, cx': Cx, st: Store, s: Arch, s': Arch)
    requires Agree(cx, st, s) && cx'.vars == cx.vars && s'.regs == s.regs && s'.mem == s.mem
    ensures Agree(cx', st, s')
  {
  }

  lemma ComputesThen(cx: Cx, g: Gen, from: int, v: Word, scratch: Word, st: Store, s: Arch, s': Arch)
    requires Sound(cx) && from <= cx.nextReg && Generated(cx, g) && Agree(cx, st, s)
    requires Computes(g, cx.nextReg, v, scratch, s, s')
    ensures Agree(g.cx, st, s')
  {
    AgreeKept(cx, g.cx, st, s, s');
  }

  lemma BinaryMeaning(l: Layout, e: Expr, st: Store, r: Word)
    requires e.Binary? && !IsLogical(e.op) && Eval(l, e, st).Some?
    ensures Eval(l, e.left, st).Some? && Eval(l, e.right, st).Some?
    ensures var a, b := Eval(l, e.left, st).value, Eval(l, e.right, st).value;
            && Eval(l, e, st) == BinaryValue(e.op, a, b)
            && Scratch(l, e, st, r) == (if e.op.Equal? || e.op.NotEqual? then Difference(a, b)
                                        else Scratch(l, e.right, st, Scratch(l, e.left, st, r)))
  {
    hide BinaryValue, Difference;
  }

  /** A binary operation whose result goes to a fresh register, or to `dest`. */
  lemma BinaryRuns(t: Symbols, cx: Cx, e: Expr, dest: Option<Reg>, s: Arch, st: Store) returns (s': Arch)
    requires Sound(cx) && e.Binary? && !IsLogical(e.op) && GenBinary(cx, e, dest).Some?
    requires dest.Some? ==> dest.value in cx.vars.Values
    requires Agree(cx, st, s) && Eval(cx.layout, e, st).Some?
    requires CodeAt(s.mem, t, s.pc, GenBinary(cx, e, dest).value.code)
    ensures var g := GenBinary(cx, e, dest).value;
            && Ran(s, s', Size(g.code)) && s'.regs[g.reg] == Eval(cx.layout, e, st).value
            && s'.regs[FLAGS_TMP] == Scratch(cx.layout, e, st, s.regs[FLAGS_TMP])
            && (forall j: Reg :: (j < cx.nextReg || j >= 30) && j != 26 && j != g.reg ==> s'.regs[j] == s.regs[j])
            && (dest.None? ==> Kept(s, s', cx.nextReg))
    decreases e, 0
  {
    hide CodeAt, Size, IsaStep, Reaches, Sound, Extends, Agree, GenExpr, BinaryValue, Operate, Eval, Scratch, FreeReg;
    BinaryMeaning(cx.layout, e, st, s.regs[FLAGS_TMP]);
    BinaryFacts(cx, e, dest);
    if dest.Some? { VarBelow(cx, dest.value); }
    ExprOrder(cx, e.left);
    var l := GenExpr(cx, e.left).value;
    ExprOrder(l.cx, e.right);
    var r := GenExpr(l.cx, e.right).value;
    if dest.None? { TempOrder(r.cx); }
    var (rd, cx1) := if dest.Some? then (dest.value, r.cx) else AllocTemp(r.cx).value;
    var code := Operate(e.op, rd, l.reg, r.reg, cx1).0;
    Split(s.mem, t, s.pc, l.code + r.code, code);
    Split(s.mem, t, s.pc, l.code, r.code);
    var s1 := ExprRuns(t, cx, e.left, s, st);
    ComputesThen(cx, l, cx.nextReg, Eval(cx.layout, e.left, st).value, s1.regs[FLAGS_TMP], st, s, s1);
    var s2 := ExprRuns(t, l.cx, e.right, s1, st);
    ReachesTrans(s, s1, s2);
    s' := OperateRuns(t, e.op, rd, l.reg, r.reg, cx1, s2);
    ReachesTrans(s, s2, s');
  }

  lemma ElementRuns(t: Symbols, cx: Cx, name: string, index: Expr, s: Arch, st: Store) returns (s': Arch)
    requires Sound(cx) && GenElementAddr(cx, name, index).Some?
    requires Agree(cx, st, s) && ElementAddr(cx.layout, name, index, st).Some?
    requires CodeAt(s.mem, t, s.pc, GenElementAddr(cx, name, index).value.code)
    ensures Computes(GenElementAddr(cx, name, index).value, cx.nextReg, ElementAddr(cx.layout, name, index, st).value,
                     Scratch(cx.layout, index, st, s.regs[FLAGS_TMP]), s, s')
    decreases index, 4
  {
    hide CodeAt, Size, IsaStep, Reaches, Sound, Extends, Agree, GenExpr, LoadImm, Loadable, Kept, FreeReg;
    var base := cx.layout.arrays[name].0;
    if index.IntLiteral? {
      s' := ConstantRuns(t, cx, base + index.value, s);
    } else {
      var (ra, cx1) := AllocTemp(cx).value;
      var (rb, cx2) := AllocTemp(cx1).value;
      TempOrder(cx);
      TempOrder(cx1);
      AgreeSame(cx, cx2, st, s, s);
      forall x | x in cx2.vars ensures cx2.vars[x] < cx.nextReg { VarBelow(cx, cx2.vars[x]); }
      s' := OffsetRuns(t, cx.nextReg, ra, rb, cx2, base, index, s, st);
    }
  }

  /** The element at a computed offset from base: the index, the base, and their sum. */
  lemma OffsetRuns(t: Symbols, from: int, ra: Reg, rb: Reg, cx: Cx, base: int, index: Expr, s: Arch, st: Store)
    returns (s': Arch)
    requires Sound(cx) && GenExpr(cx, index).Some? && Allocatable(ra) && Allocatable(rb)
    requires from <= ra < rb < cx.nextReg && forall x | x in cx.vars :: cx.vars[x] < from
    requires Agree(cx, st, s) && Loadable(base) && Eval(cx.layout, index, st).Some?
    requires var i := GenExpr(cx, index).value;
             CodeAt(s.mem, t, s.pc, i.code + LoadImm(rb, base) + [RegOp(ADD, ra, rb, i.reg)])
    ensures var i := GenExpr(cx, index).value;
            Computes(Gen(i.code + LoadImm(rb, base) + [RegOp(ADD, ra, rb, i.reg)], ra, i.cx), from,
                     WordSum(Wrap(base), Eval(cx.layout, index, st).value),
                     Scratch(cx.layout, index, st, s.regs[FLAGS_TMP]), s, s')
    decreases index, 3
  {
    hide CodeAt, Size, IsaStep, Reaches, Sound, Extends, Agree, GenExpr, LoadImm, Loadable, Eval, Scratch;
    ExprOrder(cx, index);
    var i := GenExpr(cx, index).value;
    Split(s.mem, t, s.pc, i.code + LoadImm(rb, base), [RegOp(ADD, ra, rb, i.reg)]);
    Split(s.mem, t, s.pc, i.code, LoadImm(rb, base));
    var s1 := ExprRuns(t, cx, index, s, st);
    LoadImmExact(base);
    var s2 := LoadImmRuns(t, rb, base, s1);
    ReachesTrans(s, s1, s2);
    s' := AddAfter(t, from, Size(i.code) + Size(LoadImm(rb, base)), ra, rb, i.reg, s, s2);
  }

  /** The element behind a pointer variable: the pointer, the index, and their sum in ra. */
  lemma PointerRuns(t: Symbols, cx: Cx, name: string, index: Expr, ra: Reg, s: Arch, st: Store) returns (s': Arch)
    requires Sound(cx) && GenVar(cx, name).Some? && GenExpr(GenVar(cx, name).value.cx, index).Some?
    requires Agree(cx, st, s) && VarValue(cx.layout, name, st).Some? && Eval(cx.layout, index, st).Some?
    requires Allocatable(ra) && cx.nextReg <= ra
    requires var p := GenVar(cx, name).value;
             var i := GenExpr(p.cx, index).value;
             CodeAt(s.mem, t, s.pc, p.code + i.code + [RegOp(ADD, ra, p.reg, i.reg)])
    ensures var p := GenVar(cx, name).value;
            var i := GenExpr(p.cx, index).value;
            Computes(Gen(p.code + i.code + [RegOp(ADD, ra, p.reg, i.reg)], ra, i.cx), cx.nextReg,
                     WordSum(VarValue(cx.layout, name, st).value, Eval(cx.layout, index, st).value),
                     Scratch(cx.layout, index, st, VarScratch(cx.layout, name, s.regs[FLAGS_TMP])), s, s')
    decreases index, 4
  {
    hide CodeAt, Size, IsaStep, Reaches, Sound, Extends, Agree, GenExpr, GenVar, VarValue, VarScratch, Eval, Scratch;
    GenVarOrder(cx, name);
    var p := GenVar(cx, name).value;
    ExprOrder(p.cx, index);
    var i := GenExpr(p.cx, index).value;
    Split(s.mem, t, s.pc, p.code + i.code, [RegOp(ADD, ra, p.reg, i.reg)]);
    Split(s.mem, t, s.pc, p.code, i.code);
    var s1 := VarRuns(t, cx, name, s, st);
    ComputesThen(cx, p, cx.nextReg, VarValue(cx.layout, name, st).value, s1.regs[FLAGS_TMP], st, s, s1);
    var s2 := ExprRuns(t, p.cx, index, s1, st);
    ReachesTrans(s, s1, s2);
    s' := AddAfter(t, cx.nextReg, Size(p.code) + Size(i.code), ra, p.reg, i.reg, s, s2);
  }

  lemma SlotRuns(t: Symbols, cx: Cx, name: string, index: Expr, s: Arch, st: Store) returns (s': Arch)
    requires Sound(cx) && GenSlot(cx, name, index).Some?
    requires Agree(cx, st, s) && Slot(cx.layout, name, index, st).Some?
    requires CodeAt(s.mem, t, s.pc, GenSlot(cx, name, index).value.code)
    ensures Computes(GenSlot(cx, name, index).value, cx.nextReg, Slot(cx.layout, name, index, st).value,
                     Scratch(cx.layout, ArrayRef(name, index), st, s.regs[FLAGS_TMP]), s, s')
    decreases index, 5
  {
    hide CodeAt, Size, IsaStep, Reaches, Sound, Extends, Agree, GenExpr, GenVar, GenElementAddr, ElementAddr, VarValue,
      FreeReg, VarScratch;
    hide Kept, Eval, Ran;
    if name in cx.layout.arrays {
      s' := ElementRuns(t, cx, name, index, s, st);
    } else {
      GenVarOrder(cx, name);
      var p := GenVar(cx, name).value;
      ExprOrder(p.cx, index);
      var i := GenExpr(p.cx, index).value;
      TempOrder(i.cx);
      s' := PointerRuns(t, cx, name, index, AllocTemp(i.cx).value.0, s, st);
    }
  }

  lemma NotRuns(t: Symbols, cx: Cx, operand: Expr, s: Arch, st: Store) returns (s': Arch)
    requires Sound(cx) && GenUnary(cx, LogicalNot, operand).Some?
    requires Agree(cx, st, s) && Eval(cx.layout, operand, st).Some?
    requires CodeAt(s.mem, t, s.pc, GenUnary(cx, LogicalNot, operand).value.code)
    ensures Computes(GenUnary(cx, LogicalNot, operand).value, cx.nextReg,
                     UnaryValue(LogicalNot, Eval(cx.layout, operand, st).value),
                     Scratch(cx.layout, operand, st, s.regs[FLAGS_TMP]), s, s')
    decreases operand, 4
  {
    hide CodeAt, Size, IsaStep, Reaches, Sound, Extends, Agree, GenExpr, Eval, Scratch;
    ExprOrder(cx, operand);
    var e := GenExpr(cx, operand).value;
    TempOrder(e.cx);
    var (rd, cx1) := AllocTemp(e.cx).value;
    var lt := NewLabel(cx1, "NOT_ONE").0;
    var le := NewLabel(NewLabel(cx1, "NOT_ONE").1, "NOT_END").0;
    var br, tail := BranchTo(BEQ, e.reg, lt), FlagTail(rd, 1, lt, le);
    assert GenUnary(cx, LogicalNot, operand).value.code == e.code + ([br] + tail);
    Split(s.mem, t, s.pc, e.code, [br] + tail);
    CodeHead(s.mem, t, s.pc + Size(e.code), br, tail);
    TailCode(s.mem, t, s.pc + Size(e.code), br, tail);
    FlagShape(s.mem, t, s.pc + Size(e.code) + 1, rd, 1, lt, le);
    s' := TestRuns(t, cx, operand, BEQ, rd, 1, lt, le, s, st);
  }

  lemma UnaryRuns(t: Symbols, cx: Cx, op: UnaryOp, operand: Expr, s: Arch, st: Store) returns (s': Arch)
    requires Sound(cx) && GenUnary(cx, op, operand).Some?
    requires Agree(cx, st, s) && Eval(cx.layout, operand, st).Some?
    requires CodeAt(s.mem, t, s.pc, GenUnary(cx, op, operand).value.code)
    ensures Computes(GenUnary(cx, op, operand).value, cx.nextReg, UnaryValue(op, Eval(cx.layout, operand, st).value),
                     Scratch(cx.layout, operand, st, s.regs[FLAGS_TMP]), s, s')
    decreases operand, 5
  {
    hide CodeAt, Size, IsaStep, Reaches, Sound, Extends, Agree, GenExpr, Eval, Scratch;
    if op.LogicalNot? {
      s' := NotRuns(t, cx, operand, s, st);
    } else {
      ExprOrder(cx, operand);
      var e := GenExpr(cx, operand).value;
      TempOrder(e.cx);
      var rd := AllocTemp(e.cx).value.0;
      var opcode := if op.Negate? then NEG else NOT;
      var line := RegOp(opcode, rd, e.reg, 0);
      assert GenUnary(cx, op, operand).value.code == e.code + [line];
      Split(s.mem, t, s.pc, e.code, [line]);
      var s1 := ExprRuns(t, cx, operand, s, st);
      assert [line] == [line] + [];
      CodeHead(s.mem, t, s1.pc, line, []);
      NoCode();
      s' := RunR(t, opcode, rd, e.reg, 0, [], s1);
      ReachesTrans(s, s1, s');
      UnaryOpcode(s1.regs[e.reg]);
    }
  }

  lemma UnaryOpcode(a: Word)
    ensures Alu.Execute(NEG, a, 0) == UnaryValue(Negate, a) && Alu.Execute(NOT, a, 0) == UnaryValue(Complement, a)
  {
  }

  /** A test and the flag behind it: e's code, a branch on its register, and the flag lines. */
  lemma TestRuns(t: Symbols, cx: Cx, e: Expr, skip: Opcode, rd: Reg, taken: int, ls: Symbol, le: Symbol, s: Arch,
      st: Store)
    returns (s': Arch)
    requires Sound(cx) && GenExpr(cx, e).Some? && Agree(cx, st, s) && Eval(cx.layout, e, st).Some?
    requires (skip == BEQ || skip == BNE) && 0 <= taken <= 1 && rd != 0
    requires CodeAt(s.mem, t, s.pc,
                    GenExpr(cx, e).value.code + ([BranchTo(skip, GenExpr(cx, e).value.reg, ls)] + FlagTail(rd, taken,
                        ls, le)))
    ensures Ran(s, s', Size(GenExpr(cx, e).value.code) + 4)
    ensures s'.regs[rd] == if (skip == BEQ) == (Eval(cx.layout, e, st).value == 0) then taken else 1 - taken
    ensures rd != FLAGS_TMP ==> s'.regs[FLAGS_TMP] == Scratch(cx.layout, e, st, s.regs[FLAGS_TMP])
    ensures forall j: Reg :: (j < cx.nextReg || j >= 30) && j != 26 && j != rd ==> s'.regs[j] == s.regs[j]
    decreases e, 3
  {
    hide CodeAt, Size, IsaStep, Reaches, Sound, Extends, Agree, GenExpr;
    var g := GenExpr(cx, e).value;
    var br, tail := BranchTo(skip, g.reg, ls), FlagTail(rd, taken, ls, le);
    Split(s.mem, t, s.pc, g.code, [br] + tail);
    var s1 := ExprRuns(t, cx, e, s, st);
    var s2 := RunBranch(t, skip, g.reg, ls, tail, s1);
    ReachesTrans(s, s1, s2);
    FlagShape(s.mem, t, s1.pc + 1, rd, taken, ls, le);
    if (skip == BEQ) == (s1.regs[g.reg] == 0) {
      s' := FlagTaken(t, s1.pc + 1, rd, taken, ls, le, s2);
    } else {
      s' := FlagFalls(t, rd, taken, ls, le, s2);
    }
    ReachesTrans(s, s2, s');
  }

  lemma LogicalShape(m: Mem, t: Symbols, a: nat, x: seq<Line>, br1: Line, y: seq<Line>, br2: Line,
                     rd: Reg, taken: int, ls: Symbol, le: Symbol)
    returns (end: nat)
    requires IsInstruction(br1.body) && IsInstruction(br2.body)
    requires CodeAt(m, t, a, x + ([br1] + (y + ([br2] + FlagTail(rd, taken, ls, le)))))
    ensures var tail := FlagTail(rd, taken, ls, le);
            && end == a + Size(x) + 1 + Size(y) && CodeAt(m, t, a, x)
                && CodeAt(m, t, a + Size(x), [br1] + (y + ([br2] + tail)))
            && CodeAt(m, t, a + Size(x) + 1, y + ([br2] + tail)) && CodeAt(m, t, end + 1, tail)
            && Size(x + ([br1] + (y + ([br2] + tail)))) == end + 4 - a
  {
    hide CodeAt, Size, FlagTail;
    var tail := FlagTail(rd, taken, ls, le);
    var right := y + ([br2] + tail);
    end := a + Size(x) + 1 + Size(y);
    Split(m, t, a, x, [br1] + right);
    CodeHead(m, t, a + Size(x), br1, right);
    TailCode(m, t, a + Size(x), br1, right);
    Split(m, t, a + Size(x) + 1, y, [br2] + tail);
    CodeHead(m, t, end, br2, tail);
    TailCode(m, t, end, br2, tail);
    FlagShape(m, t, end + 1, rd, taken, ls, le);
  }

  lemma LogicalMeaning(l: Layout, e: Expr, st: Store, r: Word)
    requires e.Binary? && IsLogical(e.op) && Eval(l, e, st).Some?
    ensures Eval(l, e.left, st).Some?
    ensures var a := Eval(l, e.left, st).value;
            if e.op.LogicalAnd? == (a == 0) then
              Eval(l, e, st) == Some(if e.op.LogicalAnd? then 0 else 1)
                  && Scratch(l, e, st, r) == Scratch(l, e.left, st, r)
            else
              && Eval(l, e.right, st).Some? && Eval(l, e, st) == Some(Truth(Eval(l, e.right, st).value != 0))
              && Scratch(l, e, st, r) == Scratch(l, e.right, st, Scratch(l, e.left, st, r))
  {
  }

  /** && and ||: the right operand runs only when the left one leaves the result open. */
  lemma LogicalRuns(t: Symbols, cx: Cx, e: Expr, s: Arch, st: Store) returns (s': Arch)
    requires Sound(cx) && e.Binary? && IsLogical(e.op) && GenLogical(cx, e).Some?
    requires Agree(cx, st, s) && Eval(cx.layout, e, st).Some?
    requires CodeAt(s.mem, t, s.pc, GenLogical(cx, e).value.code)
    ensures Computes(GenLogical(cx, e).value, cx.nextReg, Eval(cx.layout, e, st).value,
                     Scratch(cx.layout, e, st, s.regs[FLAGS_TMP]), s, s')
    decreases e, 1
  {
    hide CodeAt, Size, IsaStep, Reaches, Sound, Extends, Agree, GenExpr, Eval, Scratch, FlagTail;
    LogicalMeaning(cx.layout, e, st, s.regs[FLAGS_TMP]);
    var conj := e.op.LogicalAnd?;
    var (ls, cx1) := NewLabel(cx, if conj then "AND_FALSE" else "OR_TRUE");
    var (le, cx2) := NewLabel(cx1, if conj then "AND_END" else "OR_END");
    LabelsOrder(cx, cx2.labels);
    TempOrder(cx2);
    var (rd, cx3) := AllocTemp(cx2).value;
    AgreeSame(cx, cx3, st, s, s);
    ExprOrder(cx3, e.left);
    var l := GenExpr(cx3, e.left).value;
    ExprOrder(l.cx, e.right);
    var r := GenExpr(l.cx, e.right).value;
    var skip, taken := if conj then BEQ else BNE, if conj then 0 else 1;
    assert GenLogical(cx, e) == Some(Gen(LogicalCode(l, r, skip, rd, taken, ls, le), rd, r.cx)) by {
      LogicalCodeShape(l, r, skip, rd, taken, ls, le);
    }
    hide GenLogical;
    s' := BothRun(t, cx3, e, skip, rd, taken, ls, le, s, st);
  }

  function LogicalCode(l: Gen, r: Gen, skip: Opcode, rd: Reg, taken: int, ls: Symbol, le: Symbol): seq<Line> {
    l.code + ([BranchTo(skip, l.reg, ls)] + (r.code + ([BranchTo(skip, r.reg, ls)] + FlagTail(rd, taken, ls, le))))
  }

  lemma LogicalCodeShape(l: Gen, r: Gen, skip: Opcode, rd: Reg, taken: int, ls: Symbol, le: Symbol)
    ensures Flag(rd, l.code + [BranchTo(skip, l.reg, ls)] + r.code + [BranchTo(skip, r.reg, ls)], taken, ls, le)
         == LogicalCode(l, r, skip, rd, taken, ls, le)
  {
  }

  lemma BothRun(t: Symbols, cx: Cx, e: Expr, skip: Opcode, rd: Reg, taken: int, ls: Symbol, le: Symbol, s: Arch,
      st: Store)
    returns (s': Arch)
    requires Sound(cx) && e.Binary? && GenExpr(cx, e.left).Some? && GenExpr(GenExpr(cx, e.left).value.cx, e.right).Some?
    requires Agree(cx, st, s) && Eval(cx.layout, e.left, st).Some?
    requires (skip == BEQ || skip == BNE) && 0 <= taken <= 1 && Allocatable(rd) && rd < cx.nextReg
    requires (skip == BEQ) != (Eval(cx.layout, e.left, st).value == 0) ==> Eval(cx.layout, e.right, st).Some?
    requires var l := GenExpr(cx, e.left).value;
             CodeAt(s.mem, t, s.pc, LogicalCode(l, GenExpr(l.cx, e.right).value, skip, rd, taken, ls, le))
    ensures var l := GenExpr(cx, e.left).value;
            Ran(s, s', Size(LogicalCode(l, GenExpr(l.cx, e.right).value, skip, rd, taken, ls, le)))
    ensures forall j: Reg :: (j < cx.nextReg || j >= 30) && j != 26 && j != rd ==> s'.regs[j] == s.regs[j]
    ensures var r1 := Scratch(cx.layout, e.left, st, s.regs[FLAGS_TMP]);
            if (skip == BEQ) == (Eval(cx.layout, e.left, st).value == 0) then s'.regs[rd] == taken
                && s'.regs[FLAGS_TMP] == r1
            else
              && s'.regs[rd] == (if (skip == BEQ) == (Eval(cx.layout, e.right, st).value == 0) then taken
                  else 1 - taken)
              && s'.regs[FLAGS_TMP] == Scratch(cx.layout, e.right, st, r1)
    decreases e, 0
  {
    hide CodeAt, Size, IsaStep, Reaches, Sound, Extends, Agree, GenExpr, Eval, Scratch, FlagTail;
    ExprOrder(cx, e.left);
    var l := GenExpr(cx, e.left).value;
    ExprOrder(l.cx, e.right);
    var r := GenExpr(l.cx, e.right).value;
    var br1, br2, tail := BranchTo(skip, l.reg, ls), BranchTo(skip, r.reg, ls), FlagTail(rd, taken, ls, le);
    var end := LogicalShape(s.mem, t, s.pc, l.code, br1, r.code, br2, rd, taken, ls, le);
    var s1 := ExprRuns(t, cx, e.left, s, st);
    var s2 := RunBranch(t, skip, l.reg, ls, r.code + ([br2] + tail), s1);
    ReachesTrans(s, s1, s2);
    if (skip == BEQ) == (s1.regs[l.reg] == 0) {
      s' := FlagTaken(t, end + 1, rd, taken, ls, le, s2);
    } else {
      ComputesThen(cx, l, cx.nextReg, Eval(cx.layout, e.left, st).value, s1.regs[FLAGS_TMP], st, s, s1);
      AgreeSame(l.cx, l.cx, st, s1, s2);
      s' := TestRuns(t, l.cx, e.right, skip, rd, taken, ls, le, s2, st);
    }
    ReachesTrans(s, s2, s');
  }

  lemma TailCode(m: Mem, t: Symbols, a: nat, line: Line, rest: seq<Line>)
    requires CodeAt(m, t, a, [line] + rest) && IsInstruction(line.body)
    ensures CodeAt(m, t, a + 1, rest)
  {
    assert ([line] + rest)[1..] == rest;
  }

  /** Compiled expressions compute their values, keep memory, SP, LR and every register below the first
      free one, and leave in R26 what Scratch says. */
  lemma {:induction false} ExprRuns(t: Symbols, cx: Cx, e: Expr, s: Arch, st: Store) returns (s': Arch)
    requires Sound(cx) && GenExpr(cx, e).Some?
    requires Agree(cx, st, s) && Eval(cx.layout, e, st).Some?
    requires CodeAt(s.mem, t, s.pc, GenExpr(cx, e).value.code)
    ensures Computes(GenExpr(cx, e).value, cx.nextReg, Eval(cx.layout, e, st).value,
                     Scratch(cx.layout, e, st, s.regs[FLAGS_TMP]), s, s')
    decreases e, 2
  {
    hide CodeAt, Size, IsaStep, Reaches, Sound, Extends, GenSlot, GenElementAddr, GenVar, GenUnary, GenBinary,
      GenLogical, LoadImm;
    hide Slot, ElementAddr, VarValue, Loadable;
    match e
    case IntLiteral(v) => s' := ConstantRuns(t, cx, v, s);
    case VarRef(n) => s' := VarRuns(t, cx, n, s, st);
    case ArrayRef(n, index) =>
      var a := GenSlot(cx, n, index).value;
      SlotOrder(cx, n, index);
      Split(s.mem, t, s.pc, a.code, [LoadWord(AllocTemp(a.cx).value.0, a.reg)]);
      var s1 := SlotRuns(t, cx, n, index, s, st);
      s' := FetchRuns(t, cx, a, cx.nextReg, Slot(cx.layout, n, index, st).value, s1.regs[FLAGS_TMP], s, s1);
    case AddrOf(n) => s' := ConstantRuns(t, cx, cx.layout.globals[n], s);
    case AddrOfElement(n, index) => s' := ElementRuns(t, cx, n, index, s, st);
    case Deref(ptr) =>
      var p := GenExpr(cx, ptr).value;
      ExprOrder(cx, ptr);
      Split(s.mem, t, s.pc, p.code, [LoadWord(AllocTemp(p.cx).value.0, p.reg)]);
      var s1 := ExprRuns(t, cx, ptr, s, st);
      s' := FetchRuns(t, cx, p, cx.nextReg, Eval(cx.layout, ptr, st).value, s1.regs[FLAGS_TMP], s, s1);
    case Binary(op, _, _) =>
      if IsLogical(op) {
        s' := LogicalRuns(t, cx, e, s, st);
      } else {
        s' := BinaryRuns(t, cx, e, None, s, st);
      }
    case Unary(op, operand) => s' := UnaryRuns(t, cx, op, operand, s, st);
  }
}
