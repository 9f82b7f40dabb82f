/** The two passes of the assembler, on lines that are already split into tokens. */
module AssemblerSpec {
  import opened Words
  import opened Isa
  import opened Memory
  import opened Wrappers
  import opened Assembly
  import opened Encoding

  // ---- Pass 1

  /** The location counter behind a line. */
  function Advance(lc: int, b: Body): int {
    match b
    case Empty => lc
    case Org(a) => a
    case Equ(_, _) => lc
    case Data(vs) => lc + |vs|
    case _ => lc + 1
  }

  /** The symbols after one line; None for a label that is already there. */
  function Define(t: Symbols, lc: int, line: Line): Option<Symbols> {
    if line.mark.Some? && line.mark.value in t then None
    else
      var t1 := if line.mark.Some? then t[line.mark.value := lc] else t;
      Some(if line.body.Equ? then t1[line.body.name := line.body.value] else t1)
  }

  function Pass1(lines: seq<Line>, lc: int, t: Symbols): Option<Symbols>
    decreases lines
  {
    if lines == [] then Some(t)
    else
      var t1 :- Define(t, lc, lines[0]);
      Pass1(lines[1..], Advance(lc, lines[0].body), t1)
  }

  // ---- Pass 2

  function Value(t: Symbols, o: Operand): Option<int> {
    if Resolvable(t, o) then Some(Resolve(t, o)) else None
  }

  /** One instruction word at address pc. A branch keeps the low 16 bits of its distance, without a range check. */
  function EncodeBody(t: Symbols, b: Body, pc: int): Option<Word>
    requires IsInstruction(b)
  {
    match b
    case InsR(op, rd, rs1, rs2, shamt) => Some(EncodeR(op, rd, rs1, rs2, shamt))
    case InsI(op, rd, rs1, imm) =>
      var v :- Value(t, imm);
      Some(EncodeI(op, rd, rs1, if op == MFC || op == MTC then v % 32 else v % 0x1_0000))
    case InsS(op, rs2, off, rs1) =>
      var v :- Value(t, off);
      Some(EncodeS(op, rs2, rs1, v % 0x1_0000))
    case InsB(op, rs1, rs2, target) =>
      var v :- Value(t, target);
      Some(EncodeB(op, rs1, rs2, (v - pc) % 0x1_0000))
    case InsJ(op, dest) =>
      var v :- Value(t, dest);
      Some(EncodeJ(op, v % 0x400_0000))
    case InsU(op, rd, imm) =>
      var v :- Value(t, imm);
      Some(EncodeU(op, rd, v % 0x20_0000))
  }

  type Output = map<int, Word>

  function PutData(t: Symbols, vs: seq<Operand>, lc: int, out: Output): Option<Output>
    decreases vs
  {
    if vs == [] then Some(out)
    else
      var v :- Value(t, vs[0]);
      PutData(t, vs[1..], lc + 1, out[lc := Wrap(v)])
  }

  function PutLine(t: Symbols, b: Body, lc: int, out: Output): Option<Output> {
    if IsInstruction(b) then
      var w :- EncodeBody(t, b, lc);
      Some(out[lc := w])
    else if b.Data? then PutData(t, b.values, lc, out)
    else Some(out)
  }

  function Pass2(lines: seq<Line>, t: Symbols, lc: int, out: Output): Option<Output>
    decreases lines
  {
    if lines == [] then Some(out)
    else
      var out1 :- PutLine(t, lines[0].body, lc, out);
      Pass2(lines[1..], t, Advance(lc, lines[0].body), out1)
  }

  /** The word list that is returned: addresses 0 to the largest used one, 0 where nothing was put. */
  ghost predicate IsImage(words: seq<Word>, out: Output) {
    && (forall a :: a in out ==> a < |words|)
    && (words != [] ==> |words| - 1 in out)
    && forall i :: 0 <= i < |words| ==> words[i] == if i in out then out[i] else 0
  }

  // ---- The counter at a line

  function Counter(lines: seq<Line>, lc: int): int
    decreases lines
  {
    if lines == [] then lc else Counter(lines[1..], Advance(lc, lines[0].body))
  }

  lemma {:induction false} CounterConcat(x: seq<Line>, y: seq<Line>, lc: int)
    ensures Counter(x + y, lc) == Counter(y, Counter(x, lc))
    decreases x
  {
    if x == [] {
      assert x + y == y;
    } else {
      assert (x + y)[1..] == x[1..] + y;
      CounterConcat(x[1..], y, Advance(lc, x[0].body));
    }
  }

  lemma {:induction false} Pass1Concat(x: seq<Line>, y: seq<Line>, lc: int, t: Symbols)
    ensures var r := Pass1(x, lc, t);
            Pass1(x + y, lc, t) == if r.None? then None else Pass1(y, Counter(x, lc), r.value)
    decreases x
  {
    if x == [] {
      assert x + y == y;
    } else {
      assert (x + y)[1..] == x[1..] + y;
      var t1 := Define(t, lc, x[0]);
      if t1.Some? { Pass1Concat(x[1..], y, Advance(lc, x[0].body), t1.value); }
    }
  }

  lemma {:induction false} Pass2Concat(x: seq<Line>, y: seq<Line>, t: Symbols, lc: int, out: Output)
    ensures var r := Pass2(x, t, lc, out);
            Pass2(x + y, t, lc, out) == if r.None? then None else Pass2(y, t, Counter(x, lc), r.value)
    decreases x
  {
    hide PutLine;
    if x == [] {
      assert x + y == y;
    } else {
      assert (x + y)[1..] == x[1..] + y;
      var out1 := PutLine(t, x[0].body, lc, out);
      if out1.Some? { Pass2Concat(x[1..], y, t, Advance(lc, x[0].body), out1.value); }
    }
  }

  // ---- The passes agree

  predicate Redefines(line: Line, n: Symbol) { line.body.Equ? && line.body.name == n }

  /** Pass 1 fails exactly on a label that a line before it has defined, as a label or by .equ. */
  lemma {:induction false} Pass1AcceptsIff(lines: seq<Line>, lc: int, t: Symbols)
    ensures Pass1(lines, lc, t).Some? <==> LabelsNew(lines, t)
    decreases lines
  {
    if lines != [] {
      var rest := lines[1..];
      if Define(t, lc, lines[0]).Some? {
        var t1 := Define(t, lc, lines[0]).value;
        assert forall n :: n in t1 <==> n in t || Introduces(lines[0], n);
        Pass1AcceptsIff(rest, Advance(lc, lines[0].body), t1);
        FirstAndRest(lines, t, t1);
      }
    }
  }

  predicate Introduces(line: Line, n: Symbol) { line.mark == Some(n) || Redefines(line, n) }

  predicate LabelsNew(lines: seq<Line>, t: Symbols) {
    forall i :: 0 <= i < |lines| && lines[i].mark.Some? ==>
      lines[i].mark.value !in t && forall j :: 0 <= j < i ==> !Introduces(lines[j], lines[i].mark.value)
  }

  lemma FirstAndRest(lines: seq<Line>, t: Symbols, t1: Symbols)
    requires lines != [] && (lines[0].mark.Some? ==> lines[0].mark.value !in t)
    requires forall n :: n in t1 <==> n in t || Introduces(lines[0], n)
    ensures LabelsNew(lines, t) <==> LabelsNew(lines[1..], t1)
  {
    var rest := lines[1..];
    assert forall i :: 0 <= i < |rest| ==> rest[i] == lines[i + 1];
    if LabelsNew(rest, t1) {
      forall i | 0 <= i < |lines| && lines[i].mark.Some?
        ensures lines[i].mark.value !in t && forall j :: 0 <= j < i ==> !Introduces(lines[j], lines[i].mark.value)
      {
        if i > 0 {
          assert rest[i - 1] == lines[i];
          forall j | 0 <= j < i ensures !Introduces(lines[j], lines[i].mark.value) {
            if j > 0 { assert rest[j - 1] == lines[j]; }
          }
        }
      }
    }
    if LabelsNew(lines, t) {
      forall i | 0 <= i < |rest| && rest[i].mark.Some?
        ensures rest[i].mark.value !in t1 && forall j :: 0 <= j < i ==> !Introduces(rest[j], rest[i].mark.value)
      {
        assert lines[i + 1] == rest[i];
        assert !Introduces(lines[0], rest[i].mark.value);
        forall j | 0 <= j < i ensures !Introduces(rest[j], rest[i].mark.value) { assert lines[j + 1] == rest[j]; }
      }
    }
  }

  /** The value of a .equ symbol is the one that its last .equ gives. */
  lemma EquIsValue(before: seq<Line>, line: Line, behind: seq<Line>, t: Symbols)
    requires Pass1(before + ([line] + behind), 0, map[]) == Some(t) && line.body.Equ?
    requires forall i :: 0 <= i < |behind| ==> !Redefines(behind[i], line.body.name)
    ensures line.body.name in t && t[line.body.name] == line.body.value
  {
    var n, lc := line.body.name, Counter(before, 0);
    Pass1Concat(before, [line] + behind, 0, map[]);
    var t0 := Pass1(before, 0, map[]).value;
    assert ([line] + behind)[0] == line && ([line] + behind)[1..] == behind;
    var t1 := Define(t0, lc, line).value;
    SymbolKept(behind, Advance(lc, line.body), t1, n);
  }

  /** A known symbol that no later .equ redefines keeps its value (a second label of that name is an error). */
  lemma {:induction false} SymbolKept(lines: seq<Line>, lc: int, t: Symbols, n: Symbol)
    requires Pass1(lines, lc, t).Some? && n in t
    requires forall i :: 0 <= i < |lines| ==> !Redefines(lines[i], n)
    ensures n in Pass1(lines, lc, t).value && Pass1(lines, lc, t).value[n] == t[n]
    decreases lines
  {
    if lines != [] {
      assert !Redefines(lines[0], n);
      var t1 := Define(t, lc, lines[0]).value;
      assert forall i :: 0 <= i < |lines[1..]| ==> lines[1..][i] == lines[i + 1];
      SymbolKept(lines[1..], Advance(lc, lines[0].body), t1, n);
    }
  }

  /** A label that no .equ on its own or a later line redefines has, in the symbol table, the value of pass 2's
      location counter at its line. */
  lemma LabelIsCounter(before: seq<Line>, line: Line, behind: seq<Line>, t: Symbols)
    requires Pass1(before + ([line] + behind), 0, map[]) == Some(t) && line.mark.Some?
    requires !Redefines(line, line.mark.value) && forall i :: 0 <= i < |behind| ==>
             !Redefines(behind[i], line.mark.value)
    ensures line.mark.value in t && t[line.mark.value] == Counter(before, 0)
  {
    var n, lc := line.mark.value, Counter(before, 0);
    Pass1Concat(before, [line] + behind, 0, map[]);
    var t0 := Pass1(before, 0, map[]).value;
    assert ([line] + behind)[1..] == behind;
    var t1 := Define(t0, lc, line).value;
    assert n in t1 && t1[n] == lc;
    SymbolKept(behind, Advance(lc, line.body), t1, n);
  }

  // ---- Branch targets

  /** The next program counter of a taken branch at pc, from the word the assembler made for it. */
  function BranchGoes(op: Opcode, rs1: Reg, rs2: Reg, target: int, pc: nat): nat
    requires Defined(op) && FmtOf(op) == InstFmt.B
  {
    var i := Isa.Decode(EncodeB(op, rs1, rs2, (target - pc) % 0x1_0000));
    if i.InstrB? then Index(pc + i.off) else 0
  }

  /** A branch goes to its target exactly when the distance fits in 16 bits, directly or round the end of the
      address space; the assembler checks neither. */
  lemma BranchReachesIff(op: Opcode, rs1: Reg, rs2: Reg, target: nat, pc: nat)
    requires Defined(op) && FmtOf(op) == InstFmt.B && target < MEM_SIZE && pc < MEM_SIZE
    ensures BranchGoes(op, rs1, rs2, target, pc) == target
            <==> -0x8000 <= target - pc < 0x8000 || target - pc >= MEM_SIZE - 0x8000 || target - pc < 0x8000 - MEM_SIZE
  {
    var d := target - pc;
    DecodeB(op, rs1, rs2, d % 0x1_0000);
    SextOfLow(d);
    SextIs(d);
    hide Isa.Decode, EncodeB, Sext16, Index, FmtOf;
    IndexNear(pc + Sext16(d));
  }

  /** The sign extension of the low half differs from the whole by a multiple of 2^16. */
  lemma SextIs(d: int)
    ensures -0x8000 <= Sext16(d) < 0x8000 && (d - Sext16(d)) % 0x1_0000 == 0
    ensures -0x8000 <= d < 0x8000 ==> Sext16(d) == d
    ensures MEM_SIZE - 0x8000 <= d < MEM_SIZE + 0x8000 ==> Sext16(d) == d - MEM_SIZE
    ensures -MEM_SIZE - 0x8000 <= d < 0x8000 - MEM_SIZE ==> Sext16(d) == d + MEM_SIZE
  {
  }

  lemma IndexNear(x: int)
    requires -MEM_SIZE <= x < 2 * MEM_SIZE
    ensures Index(x) == if x < 0 then x + MEM_SIZE else if x < MEM_SIZE then x else x - MEM_SIZE
  {
  }

  // ---- Code that was assembled is code in memory

  /** Opcodes have the format of their line. */
  predicate Encodable(b: Body) {
    match b
    case InsR(op, _, _, _, _) => Defined(op) && FmtOf(op) == InstFmt.R
    case InsI(op, _, _, _) => Defined(op) && FmtOf(op) == InstFmt.I
    case InsS(op, _, _, _) => Defined(op) && FmtOf(op) == InstFmt.S
    case InsB(op, _, _, _) => Defined(op) && FmtOf(op) == InstFmt.B
    case InsJ(op, _) => Defined(op) && FmtOf(op) == InstFmt.J
    case InsU(op, _, _) => Defined(op) && FmtOf(op) == InstFmt.U
    case _ => true
  }

  lemma EncodedDecodes(t: Symbols, b: Body, a: int)
    requires IsInstruction(b) && Encodable(b) && EncodeBody(t, b, a).Some?
    ensures BodyResolvable(t, b) && Isa.Decode(EncodeBody(t, b, a).value) == Assembled(t, b, a)
  {
    hide EncodeR, EncodeI, EncodeS, EncodeB, EncodeJ, EncodeU, Isa.Decode, Sext16, FmtOf;
    match b
    case InsR(op, rd, rs1, rs2, shamt) => DecodeR(op, rd, rs1, rs2, shamt);
    case InsI(op, rd, rs1, imm) =>
      var v := Resolve(t, imm);
      DecodeI(op, rd, rs1, if op == MFC || op == MTC then v % 32 else v % 0x1_0000);
      SextOfLow(v);
      SmallSext(v % 32);
    case InsS(op, rs2, off, rs1) =>
      DecodeS(op, rs2, rs1, Resolve(t, off) % 0x1_0000);
      SextOfLow(Resolve(t, off));
    case InsB(op, rs1, rs2, target) =>
      DecodeB(op, rs1, rs2, (Resolve(t, target) - a) % 0x1_0000);
      SextOfLow(Resolve(t, target) - a);
    case InsJ(op, dest) => DecodeJ(op, Resolve(t, dest) % 0x400_0000);
    case InsU(op, rd, imm) => DecodeU(op, rd, Resolve(t, imm) % 0x20_0000);
  }

  lemma SmallSext(v: int)
    requires 0 <= v < 32
    ensures Sext16(v) == v
  {
  }

  /** Branches name their target, and jumps name it or give an address. */
  predicate Targeted(b: Body) {
    match b
    case InsB(_, _, _, target) => target.Sym?
    case InsJ(_, dest) => dest.Num? ==> 0 <= dest.value < MEM_SIZE
    case _ => true
  }

  predicate IsCodeLine(b: Body) { (b.Empty? || IsInstruction(b)) && Encodable(b) && Targeted(b) }

  /** Labels and instructions only. */
  predicate IsCode(lines: seq<Line>) { forall i :: 0 <= i < |lines| ==> IsCodeLine(lines[i].body) }

  /** Labels stand where t says, and every jump and branch can reach its target. */
  predicate Placed(t: Symbols, a: nat, lines: seq<Line>)
    decreases lines
  {
    lines != [] ==>
      var Line(mark, b) := lines[0];
      && (mark.Some? ==> mark.value in t && t[mark.value] == a)
      && (b.InsB? ==>
           Resolvable(t, b.target) && -0x8000 <= Resolve(t, b.target) - a < 0x8000
           && 0 <= Resolve(t, b.target) < MEM_SIZE)
      && (b.InsJ? ==> Resolvable(t, b.dest) && 0 <= Resolve(t, b.dest) < MEM_SIZE)
      && Placed(t, if IsInstruction(b) then a + 1 else a, lines[1..])
  }

  lemma {:induction false} CodeCounter(lines: seq<Line>, a: int)
    requires IsCode(lines)
    ensures Counter(lines, a) == a + Size(lines)
    decreases lines
  {
    if lines != [] {
      assert forall i :: 0 <= i < |lines[1..]| ==> lines[1..][i] == lines[i + 1];
      CodeCounter(lines[1..], Advance(a, lines[0].body));
    }
  }

  /** Words put outside a range leave the range as it was. */
  predicate Avoids(lines: seq<Line>, lc: int, lo: int, hi: int)
    decreases lines
  {
    lines != [] ==>
      var b := lines[0].body;
      && (IsInstruction(b) ==> lc < lo || lc >= hi)
      && (b.Data? ==> lc + |b.values| <= lo || lc >= hi)
      && Avoids(lines[1..], Advance(lc, b), lo, hi)
  }

  predicate AllResolvable(t: Symbols, vs: seq<Operand>) { forall k :: 0 <= k < |vs| ==> Resolvable(t, vs[k]) }

  /** Every symbol of the line is in the table. */
  predicate LineResolvable(t: Symbols, b: Body) {
    if b.Data? then AllResolvable(t, b.values) else BodyResolvable(t, b)
  }

  lemma NoneResolvable(t: Symbols)
    ensures AllResolvable(t, [])
  {
  }

  lemma AllButFirst(t: Symbols, vs: seq<Operand>)
    requires vs != []
    ensures AllResolvable(t, vs) <==> Resolvable(t, vs[0]) && AllResolvable(t, vs[1..])
  {
    if AllResolvable(t, vs[1..]) && Resolvable(t, vs[0]) {
      forall k | 0 <= k < |vs| ensures Resolvable(t, vs[k]) {
        if k > 0 { assert vs[k] == vs[1..][k - 1]; }
      }
    }
  }

  lemma {:induction false} DataAccepted(t: Symbols, vs: seq<Operand>, lc: int, out: Output)
    ensures PutData(t, vs, lc, out).Some? <==> AllResolvable(t, vs)
    decreases vs
  {
    hide Resolve, AllResolvable;
    NoneResolvable(t);
    if vs != [] {
      AllButFirst(t, vs);
      if Resolvable(t, vs[0]) { DataAccepted(t, vs[1..], lc + 1, out[lc := Wrap(Resolve(t, vs[0]))]); }
    }
  }

  /** Word k of a data line is its operand's value, modulo 2^32. */
  lemma {:induction false} DataWords(t: Symbols, vs: seq<Operand>, lc: int, out: Output, k: nat)
    requires PutData(t, vs, lc, out).Some? && k < |vs|
    ensures var r := PutData(t, vs, lc, out).value;
            Resolvable(t, vs[k]) && lc + k in r && r[lc + k] == Wrap(Resolve(t, vs[k]))
    decreases vs
  {
    hide Resolve;
    var rest, out1 := vs[1..], out[lc := Wrap(Resolve(t, vs[0]))];
    if k == 0 {
      DataAvoids(t, rest, lc + 1, out1, lc);
    } else {
      DataWords(t, rest, lc + 1, out1, k - 1);
      assert rest[k - 1] == vs[k] && lc + 1 + (k - 1) == lc + k;
    }
  }

  /** Pass 2 fails exactly on a symbol that is not in the table. */
  lemma {:induction false} Pass2AcceptsIff(lines: seq<Line>, t: Symbols, lc: int, out: Output)
    ensures Pass2(lines, t, lc, out).Some? <==> forall i :: 0 <= i < |lines| ==> LineResolvable(t, lines[i].body)
    decreases lines
  {
    hide PutLine, LineResolvable;
    if lines != [] {
      var b, rest := lines[0].body, lines[1..];
      LineAccepted(t, b, lc, out);
      assert forall i :: 0 <= i < |rest| ==> rest[i] == lines[i + 1];
      if PutLine(t, b, lc, out).Some? {
        Pass2AcceptsIff(rest, t, Advance(lc, b), PutLine(t, b, lc, out).value);
        forall i | 0 <= i < |lines| && i > 0 ensures lines[i] == rest[i - 1] {}
      }
    }
  }

  lemma LineAccepted(t: Symbols, b: Body, lc: int, out: Output)
    ensures PutLine(t, b, lc, out).Some? <==> LineResolvable(t, b)
  {
    if b.Data? { DataAccepted(t, b.values, lc, out); }
    hide PutData, EncodeR, EncodeI, EncodeS, EncodeB, EncodeJ, EncodeU, Resolve;
  }

  lemma {:induction false} DataAvoids(t: Symbols, vs: seq<Operand>, lc: int, out: Output, k: int)
    requires PutData(t, vs, lc, out).Some? && (k < lc || k >= lc + |vs|)
    ensures var r := PutData(t, vs, lc, out).value; (k in r <==> k in out) && (k in out ==> r[k] == out[k])
    decreases vs
  {
    if vs != [] { DataAvoids(t, vs[1..], lc + 1, out[lc := Wrap(Value(t, vs[0]).value)], k); }
  }

  lemma {:induction false} Pass2Avoids(lines: seq<Line>, t: Symbols, lc: int, out: Output, lo: int, hi: int, k: int)
    requires Pass2(lines, t, lc, out).Some? && Avoids(lines, lc, lo, hi) && lo <= k < hi
    ensures var r := Pass2(lines, t, lc, out).value; (k in r <==> k in out) && (k in out ==> r[k] == out[k])
    decreases lines
  {
    if lines != [] {
      var b := lines[0].body;
      var out1 := PutLine(t, b, lc, out).value;
      if b.Data? { DataAvoids(t, b.values, lc, out, k); }
      Pass2Avoids(lines[1..], t, Advance(lc, b), out1, lo, hi, k);
    }
  }

  lemma {:induction false} CodeAvoids(lines: seq<Line>, a: int, lo: int, hi: int)
    requires IsCode(lines) && (a + Size(lines) <= lo || a >= hi)
    ensures Avoids(lines, a, lo, hi)
    decreases lines
  {
    if lines != [] {
      assert forall i :: 0 <= i < |lines[1..]| ==> lines[1..][i] == lines[i + 1];
      CodeAvoids(lines[1..], Advance(a, lines[0].body), lo, hi);
    }
  }

  /** What pass 2 puts for a stretch of code is that code's machine code. */
  lemma {:induction false} Pass2Code(m: Mem, t: Symbols, a: nat, lines: seq<Line>, out: Output)
    requires IsCode(lines) && Placed(t, a, lines) && Pass2(lines, t, a, out).Some? && a + Size(lines) + 2 <= CODE_TOP
    requires var r := Pass2(lines, t, a, out).value; forall k :: a <= k < a + Size(lines) ==> k in r && m[k] == r[k]
    ensures CodeAt(m, t, a, lines)
    decreases lines
  {
    hide EncodeBody, Assembled, Isa.Decode, Encodable;
    if lines != [] {
      var b, rest := lines[0].body, lines[1..];
      assert forall i :: 0 <= i < |rest| ==> rest[i] == lines[i + 1];
      var out1 := PutLine(t, b, a, out).value;
      var next: nat := Advance(a, b);
      if IsInstruction(b) {
        CodeAvoids(rest, next, a, a + 1);
        Pass2Avoids(rest, t, next, out1, a, a + 1, a);
        EncodedDecodes(t, b, a);
      }
      Pass2Code(m, t, next, rest, out1);
    }
  }

  lemma {:induction false} CodeWritten(t: Symbols, a: int, lines: seq<Line>, out: Output, k: int)
    requires IsCode(lines) && Pass2(lines, t, a, out).Some? && (k in out || a <= k < a + Size(lines))
    ensures k in Pass2(lines, t, a, out).value
    decreases lines
  {
    hide EncodeBody, Encodable;
    if lines != [] {
      var b, rest := lines[0].body, lines[1..];
      assert forall i :: 0 <= i < |rest| ==> rest[i] == lines[i + 1];
      CodeWritten(t, Advance(a, b), rest, PutLine(t, b, a, out).value, k);
    }
  }

  /** A stretch of code in a source file, with nothing assembled over it later, is in memory as assembled. */
  lemma AssembledCode(before: seq<Line>, code: seq<Line>, behind: seq<Line>, t: Symbols, out: Output, m: Mem)
    requires IsCode(code) && Counter(before, 0) >= 0
    requires Pass2(before + (code + behind), t, 0, map[]) == Some(out)
    requires var a := Counter(before, 0);
             && Placed(t, a, code) && a + Size(code) + 2 <= CODE_TOP
                 && Avoids(behind, a + Size(code), a, a + Size(code))
             && forall k :: a <= k < a + Size(code) && k in out ==> m[k] == out[k]
    ensures CodeAt(m, t, Counter(before, 0), code)
  {
    var a := Counter(before, 0);
    Pass2Concat(before, code + behind, t, 0, map[]);
    var out0 := Pass2(before, t, 0, map[]).value;
    Pass2Concat(code, behind, t, a, out0);
    CodeCounter(code, a);
    var out1 := Pass2(code, t, a, out0).value;
    forall k | a <= k < a + Size(code)
      ensures k in out1 && m[k] == out1[k]
    {
      CodeWritten(t, a, code, out0, k);
      Pass2Avoids(behind, t, a + Size(code), out1, a, a + Size(code), k);
    }
    Pass2Code(m, t, a, code, out0);
  }
}
