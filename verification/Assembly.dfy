/** Assembly lines, and what it means for their machine code to stand in memory. */
module Assembly {
  import opened Words
  import opened Isa
  import opened Memory
  import opened Registers
  import opened Sequential
  import opened Wrappers
  import Alu
  import Pipeline

  /** Label texts: a name, or a prefix with a running number (`ELSE_3`). */
  datatype Symbol = Named(text: string) | Numbered(prefix: string, number: nat)

  datatype Operand = Num(value: int) | Sym(name: Symbol)

  datatype Body =
    | Empty
    | Org(address: int)
    | Equ(name: Symbol, value: int)
    | Data(values: seq<Operand>)
    | InsR(op: Opcode, rd: Reg, rs1: Reg, rs2: Reg, shamt: Reg)
    | InsI(op: Opcode, rd: Reg, rs1: Reg, imm: Operand)
    | InsS(op: Opcode, rs2: Reg, off: Operand, rs1: Reg)
    | InsB(op: Opcode, rs1: Reg, rs2: Reg, target: Operand)
    | InsJ(op: Opcode, dest: Operand)
    | InsU(op: Opcode, rd: Reg, imm: Operand)

  datatype Line = Line(mark: Option<Symbol>, body: Body)

  function Mark(l: Symbol): Line { Line(Some(l), Empty) }

  function Ins(b: Body): Line { Line(None, b) }

  predicate IsInstruction(b: Body) {
    b.InsR? || b.InsI? || b.InsS? || b.InsB? || b.InsJ? || b.InsU?
  }

  type Symbols = map<Symbol, int>

  // ---- Code in memory

  predicate Resolvable(t: Symbols, o: Operand) { o.Sym? ==> o.name in t }

  function Resolve(t: Symbols, o: Operand): int
    requires Resolvable(t, o)
  {
    match o
    case Num(v) => v
    case Sym(n) => t[n]
  }

  predicate BodyResolvable(t: Symbols, b: Body) {
    match b
    case InsI(_, _, _, imm) => Resolvable(t, imm)
    case InsS(_, _, off, _) => Resolvable(t, off)
    case InsB(_, _, _, target) => Resolvable(t, target)
    case InsJ(_, dest) => Resolvable(t, dest)
    case InsU(_, _, imm) => Resolvable(t, imm)
    case _ => true
  }

  /** What decoding the machine word of an instruction at address a must give. */
  function Assembled(t: Symbols, b: Body, a: int): Instr
    requires IsInstruction(b) && BodyResolvable(t, b)
  {
    match b
    case InsR(op, rd, rs1, rs2, shamt) => InstrR(op, rd, rs1, rs2, shamt)
    case InsI(op, rd, rs1, imm) => InstrI(op, rd, rs1,
        if op == MFC || op == MTC then Resolve(t, imm) % 32 else Sext16(Resolve(t, imm)))
    case InsS(op, rs2, off, rs1) => InstrS(op, rs2, rs1, Sext16(Resolve(t, off)))
    case InsB(op, rs1, rs2, target) => InstrB(op, rs1, rs2, Sext16(Resolve(t, target) - a))
    case InsJ(op, dest) => InstrJ(op, Resolve(t, dest) % MEM_SIZE)
    case InsU(op, rd, imm) => InstrU(op, rd, Resolve(t, imm) % 0x20_0000)
  }

  /** Words that the lines occupy. */
  function Size(lines: seq<Line>): nat {
    if lines == [] then 0
    else (if IsInstruction(lines[0].body) then 1 else 0) + Size(lines[1..])
  }

  /** Program code stays below the data that the compiler lays out. */
  const CODE_TOP := 0x4000

  /** Memory m holds the code of `lines` from address a on, and the labels stand where table t says. The
      lines are labels and instructions only, and every branch reaches its target. */
  predicate CodeAt(m: Mem, t: Symbols, a: nat, lines: seq<Line>)
    decreases lines
  {
    lines != [] ==>
      var Line(mark, b) := lines[0];
      && (mark.Some? ==> mark.value in t && t[mark.value] == a)
      && (if IsInstruction(b) then
            && a + 2 < CODE_TOP && BodyResolvable(t, b)
            && Isa.Decode(m[a]) == Assembled(t, b, a)
            && (b.InsB? ==> -0x8000 <= Resolve(t, b.target) - a < 0x8000 && 0 <= Resolve(t, b.target) < MEM_SIZE)
            && (b.InsJ? ==> 0 <= Resolve(t, b.dest) < MEM_SIZE)
            && CodeAt(m, t, a + 1, lines[1..])
          else b == Empty && CodeAt(m, t, a, lines[1..]))
  }

  lemma SizeConcat(x: seq<Line>, y: seq<Line>)
    ensures Size(x + y) == Size(x) + Size(y)
  {
    if x == [] {
      assert x + y == y;
    } else {
      assert (x + y)[1..] == x[1..] + y;
      SizeConcat(x[1..], y);
    }
  }

  lemma {:induction false} CodeAtConcat(m: Mem, t: Symbols, a: nat, x: seq<Line>, y: seq<Line>)
    ensures CodeAt(m, t, a, x + y) <==> CodeAt(m, t, a, x) && CodeAt(m, t, a + Size(x), y)
    decreases x
  {
    hide Assembled, Isa.Decode;
    if x == [] {
      assert x + y == y;
    } else {
      assert (x + y)[1..] == x[1..] + y;
      CodeAtConcat(m, t, a, x[1..], y);
      CodeAtConcat(m, t, a + 1, x[1..], y);
    }
  }

  lemma {:induction false} CodeAtFrame(m: Mem, m': Mem, t: Symbols, a: nat, lines: seq<Line>)
    requires CodeAt(m, t, a, lines)
    requires forall i: nat :: a <= i < a + Size(lines) && i < MEM_SIZE ==> m'[i] == m[i]
    ensures CodeAt(m', t, a, lines)
    decreases lines
  {
    hide Assembled, Isa.Decode;
    if lines != [] {
      CodeAtFrame(m, m', t, if IsInstruction(lines[0].body) then a + 1 else a, lines[1..]);
    }
  }

  // ---- Running it

  /** A step below CODE_TOP that stores nothing below it. */
  predicate Steady(s: Arch) {
    s.pc + 2 < CODE_TOP && (StoreIndex(s) < 0 || StoreIndex(s) >= CODE_TOP)
  }

  /** Running from s leads to s', and every step on the way is steady. */
  ghost predicate Reaches(s: Arch, s': Arch) {
    exists k: nat :: IsaRun(s, k) == s' && SteadyRun(s, k)
  }

  ghost predicate SteadyRun(s: Arch, k: nat) { forall i: nat :: i < k ==> Steady(IsaRun(s, i)) }

  lemma ReachesSelf(s: Arch)
    ensures Reaches(s, s)
  {
    assert IsaRun(s, 0) == s && SteadyRun(s, 0);
  }

  lemma ReachesStep(s: Arch)
    requires Steady(s)
    ensures Reaches(s, IsaStep(s))
  {
    hide IsaStep, Steady;
    assert IsaRun(s, 0) == s && IsaRun(s, 1) == IsaStep(s);
    assert SteadyRun(s, 1);
  }

  lemma ReachesTrans(s: Arch, s1: Arch, s2: Arch)
    requires Reaches(s, s1) && Reaches(s1, s2)
    ensures Reaches(s, s2)
  {
    hide IsaStep, Steady;
    var j: nat :| IsaRun(s, j) == s1 && SteadyRun(s, j);
    var k: nat :| IsaRun(s1, k) == s2 && SteadyRun(s1, k);
    IsaRunAdd(s, j, k);
    forall i: nat | i < j + k
      ensures Steady(IsaRun(s, i))
    {
      if i >= j { IsaRunAdd(s, j, i - j); }
    }
    assert IsaRun(s, j + k) == s2 && SteadyRun(s, j + k);
  }

  /** The effect of one assembly instruction of the kinds the code generator emits. */
  predicate Plain(b: Body) {
    match b
    case InsR(op, _, _, _, _) => IsRegisterAlu(op) && !IsShiftImmediate(op)
    case InsI(op, _, _, imm) => imm.Num? && (IsImmediateAlu(op) || op == LW)
    case InsS(op, _, off, _) => op == SW && off == Num(0)
    case InsB(op, _, _, target) => IsBranch(op) && target.Sym?
    case InsJ(op, dest) => op == JMP && dest.Sym?
    case InsU(op, _, imm) => op == MOVHI && imm.Num? && 0 <= imm.value < 0x20_0000
    case _ => false
  }

  function Effect(t: Symbols, b: Body, s: Arch): Arch
    requires Plain(b) && BodyResolvable(t, b)
    requires b.InsB? ==> Resolve(t, b.target) >= 0
    requires b.InsJ? ==> Resolve(t, b.dest) >= 0
  {
    var next := s.(pc := s.pc + 1);
    match b
    case InsR(op, rd, rs1, rs2, _) => next.(regs := SetReg(s.regs, rd, Alu.Execute(op, s.regs[rs1], s.regs[rs2])))
    case InsI(op, rd, rs1, imm) =>
      next.(regs := SetReg(s.regs, rd,
                           if op == LW then s.mem[Index(s.regs[rs1] + Sext16(imm.value))]
                           else Alu.Execute(op, s.regs[rs1], Wrap(Sext16(imm.value)))))
    case InsS(_, rs2, _, rs1) => next.(mem := s.mem[Index(s.regs[rs1]) := s.regs[rs2]])
    case InsB(op, rs1, rs2, target) =>
      if Pipeline.EvalBranch(op, s.regs[rs1], s.regs[rs2]) then s.(pc := Resolve(t, target)) else next
    case InsJ(_, dest) => s.(pc := Resolve(t, dest))
    case InsU(op, rd, imm) => next.(regs := SetReg(s.regs, rd, Wrap(imm.value * 0x800)))
  }

  lemma IndexOfWrap(x: int)
    ensures Index(Wrap(x)) == Index(x)
  {
    assert x == Wrap(x) + x / 0x1_0000_0000 * 64 * MEM_SIZE;
  }

  lemma EffectOfRegister(t: Symbols, b: Body, s: Arch)
    requires Plain(b) && BodyResolvable(t, b) && OnCode(s) && Isa.Decode(Fetch(s)) == Assembled(t, b, s.pc)
    requires b.InsB? ==> -0x8000 <= Resolve(t, b.target) - s.pc < 0x8000 && 0 <= Resolve(t, b.target) < MEM_SIZE
    requires b.InsJ? ==> 0 <= Resolve(t, b.dest) < MEM_SIZE
    requires b.InsR?
    ensures IsaStep(s) == Effect(t, b, s)
  {
    hide Isa.Decode, Pipeline.EvalBranch, Alu.Execute, LoadValue, StoreValue;
  }

  lemma EffectOfImmediate(t: Symbols, b: Body, s: Arch)
    requires Plain(b) && BodyResolvable(t, b) && OnCode(s) && Isa.Decode(Fetch(s)) == Assembled(t, b, s.pc)
    requires b.InsB? ==> -0x8000 <= Resolve(t, b.target) - s.pc < 0x8000 && 0 <= Resolve(t, b.target) < MEM_SIZE
    requires b.InsJ? ==> 0 <= Resolve(t, b.dest) < MEM_SIZE
    requires b.InsI?
    ensures IsaStep(s) == Effect(t, b, s)
  {
    hide Isa.Decode, Pipeline.EvalBranch, Alu.Execute, StoreValue;
    IndexOfWrap(s.regs[b.rs1] + Sext16(b.imm.value));
  }

  lemma EffectOfStore(t: Symbols, b: Body, s: Arch)
    requires Plain(b) && BodyResolvable(t, b) && OnCode(s) && Isa.Decode(Fetch(s)) == Assembled(t, b, s.pc)
    requires b.InsB? ==> -0x8000 <= Resolve(t, b.target) - s.pc < 0x8000 && 0 <= Resolve(t, b.target) < MEM_SIZE
    requires b.InsJ? ==> 0 <= Resolve(t, b.dest) < MEM_SIZE
    requires b.InsS?
    ensures IsaStep(s) == Effect(t, b, s)
  {
    hide Isa.Decode, Pipeline.EvalBranch, Alu.Execute, LoadValue;
    IndexOfWrap(s.regs[b.rs1] as int);
  }

  lemma EffectOfBranch(t: Symbols, b: Body, s: Arch)
    requires Plain(b) && BodyResolvable(t, b) && OnCode(s) && Isa.Decode(Fetch(s)) == Assembled(t, b, s.pc)
    requires b.InsB? ==> -0x8000 <= Resolve(t, b.target) - s.pc < 0x8000 && 0 <= Resolve(t, b.target) < MEM_SIZE
    requires b.InsJ? ==> 0 <= Resolve(t, b.dest) < MEM_SIZE
    requires b.InsB?
    ensures IsaStep(s) == Effect(t, b, s)
  {
    hide Isa.Decode, Pipeline.EvalBranch, Alu.Execute, LoadValue, StoreValue;
    assert Sext16(Resolve(t, b.target) - s.pc) == Resolve(t, b.target) - s.pc;
  }

  lemma EffectOfJump(t: Symbols, b: Body, s: Arch)
    requires Plain(b) && BodyResolvable(t, b) && OnCode(s) && Isa.Decode(Fetch(s)) == Assembled(t, b, s.pc)
    requires b.InsB? ==> -0x8000 <= Resolve(t, b.target) - s.pc < 0x8000 && 0 <= Resolve(t, b.target) < MEM_SIZE
    requires b.InsJ? ==> 0 <= Resolve(t, b.dest) < MEM_SIZE
    requires b.InsJ? || b.InsU?
    ensures IsaStep(s) == Effect(t, b, s)
  {
    hide Isa.Decode, Pipeline.EvalBranch, LoadValue, StoreValue;
    if b.InsU? {
      assert Alu.Execute(MOVHI, 0, b.imm.value) == Wrap(b.imm.value * 0x800);
    }
  }

  lemma EffectIsStep(t: Symbols, b: Body, s: Arch)
    requires Plain(b) && BodyResolvable(t, b) && OnCode(s) && Isa.Decode(Fetch(s)) == Assembled(t, b, s.pc)
    requires b.InsB? ==> -0x8000 <= Resolve(t, b.target) - s.pc < 0x8000 && 0 <= Resolve(t, b.target) < MEM_SIZE
    requires b.InsJ? ==> 0 <= Resolve(t, b.dest) < MEM_SIZE
    ensures IsaStep(s) == Effect(t, b, s)
  {
    hide IsaStep, Effect, Isa.Decode, Assembled;
    match b
    case InsR(_, _, _, _, _) => EffectOfRegister(t, b, s);
    case InsI(_, _, _, _) => EffectOfImmediate(t, b, s);
    case InsS(_, _, _, _) => EffectOfStore(t, b, s);
    case InsB(_, _, _, _) => EffectOfBranch(t, b, s);
    case _ => EffectOfJump(t, b, s);
  }

  lemma PlainIsSteady(t: Symbols, b: Body, s: Arch)
    requires Plain(b) && BodyResolvable(t, b) && s.pc + 2 < CODE_TOP && Isa.Decode(Fetch(s)) == Assembled(t, b, s.pc)
    requires b.InsS? ==> Index(s.regs[b.rs1]) >= CODE_TOP
    ensures Steady(s)
  {
    hide Isa.Decode;
    if b.InsS? { IndexOfWrap(s.regs[b.rs1] as int); }
  }

  /** One plain instruction of the code at s.pc; a store must not go below CODE_TOP. */
  lemma RunOne(t: Symbols, b: Body, rest: seq<Line>, s: Arch) returns (s': Arch)
    requires Plain(b) && CodeAt(s.mem, t, s.pc, [Ins(b)] + rest)
    requires b.InsS? ==> Index(s.regs[b.rs1]) >= CODE_TOP
    ensures BodyResolvable(t, b) && (b.InsB? ==> Resolve(t, b.target) >= 0) && (b.InsJ? ==> Resolve(t, b.dest) >= 0)
    ensures s' == Effect(t, b, s) && Reaches(s, s')
    ensures CodeAt(s.mem, t, s.pc + 1, rest)
  {
    hide Isa.Decode, IsaStep, Effect, Assembled, Steady, Reaches;
    assert ([Ins(b)] + rest)[1..] == rest;
    s' := IsaStep(s);
    PlainIsSteady(t, b, s);
    ReachesStep(s);
    EffectIsStep(t, b, s);
  }
}
