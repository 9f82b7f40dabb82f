/** Whole programs: the lines that the compiler emits for globals and main, assembled and run. */
module Programs {
  import opened Words
  import opened Isa
  import opened Memory
  import opened Registers
  import opened Wrappers
  import opened Ast
  import opened Assembly
  import opened AssemblerSpec
  import opened Sequential
  import opened CodeGen
  import opened Semantics
  import opened CompilerStatic
  import opened CompilerStmtStatic
  import opened CompilerExpr
  import opened CompilerStmt
  import opened CompilerLabels

  datatype Global = Scalar(name: string, init: Option<Expr>) | Array(name: string, size: nat, inits: seq<Expr>)

  datatype Program = Program(globals: seq<Global>, body: seq<Stmt>)

  const MAIN := Named("MAIN")

  // ---- What is emitted

  function GlobalLayout(gs: seq<Global>, l: Layout): Layout
    decreases gs
  {
    if gs == [] then l
    else
      GlobalLayout(gs[1..],
                   match gs[0]
                   case Array(name, size, _) => Declare(l, name, size)
                   case Scalar(name, _) => l.(globals := l.globals[name := l.next], next := l.next + 1))
  }

  function StartLayout(p: Program): Layout { GlobalLayout(p.globals, Layout(map[], map[], GLOBAL_BASE_ADDR)) }

  function StartContext(p: Program): Cx { Cx(map[], FIRST_REG, 0, StartLayout(p), [], true) }

  /** Only integer literals count as initial values; anything else is 0. */
  function InitialValue(e: Option<Expr>): int { if e.Some? && e.value.IntLiteral? then e.value.value else 0 }

  function ElementValue(inits: seq<Expr>, i: nat): int { InitialValue(if i < |inits| then Some(inits[i]) else None) }

  function WordLine(v: int): Line { Ins(Data([Num(v)])) }

  function ElementLines(inits: seq<Expr>, size: nat, i: nat): seq<Line>
    requires i <= size
    decreases size - i
  {
    if i == size then [] else [WordLine(ElementValue(inits, i))] + ElementLines(inits, size, i + 1)
  }

  function GlobalLines(g: Global, address: int): seq<Line> {
    match g
    case Array(_, size, inits) => [Ins(Org(address))] + ElementLines(inits, size, 0)
    case Scalar(_, init) => [Ins(Org(address)), WordLine(InitialValue(init))]
  }

  /** Where the layout has put a global. */
  function AddressOf(l: Layout, g: Global): int {
    match g
    case Array(name, _, _) => if name in l.arrays then l.arrays[name].0 else 0
    case Scalar(name, _) => if name in l.globals then l.globals[name] else 0
  }

  function DataLines(gs: seq<Global>, l: Layout): seq<Line>
    decreases gs
  {
    if gs == [] then [] else GlobalLines(gs[0], AddressOf(l, gs[0])) + DataLines(gs[1..], l)
  }

  /** The code from address 0 on: the jump to main, main, and the HLT it falls into. */
  function MainCode(p: Program): Option<seq<Line>> {
    var o :- GenSeq(StartContext(p), p.body);
    Some([JumpTo(MAIN), Mark(MAIN)] + o.code + [Ending(StartContext(p))])
  }

  /** The layout when the data is emitted; arrays that main declares are then in it too. */
  function FinalLayout(p: Program): Layout { AfterSeq(StartLayout(p), p.body) }

  function GenProgram(p: Program): Option<seq<Line>> {
    var code :- MainCode(p);
    Some([Ins(Org(0))] + (code + DataLines(p.globals, FinalLayout(p))))
  }

  /** The emitted lines in the order of emission. */
  lemma ProgramLines(p: Program, o: Out)
    requires GenSeq(StartContext(p), p.body) == Some(o)
    ensures GenProgram(p)
         == Some([Ins(Org(0)), JumpTo(MAIN), Mark(MAIN)] + o.code + [Ending(StartContext(p))] + DataLines(p.globals,
             FinalLayout(p)))
  {
    hide GenSeq, DataLines, FinalLayout;
    var data, ending := DataLines(p.globals, FinalLayout(p)), [Ending(StartContext(p))];
    assert [Ins(Org(0))] + (([JumpTo(MAIN), Mark(MAIN)] + o.code + ending) + data)
        == [Ins(Org(0)), JumpTo(MAIN), Mark(MAIN)] + o.code + ending + data;
  }

  lemma NoProgram(p: Program)
    requires GenSeq(StartContext(p), p.body).None?
    ensures GenProgram(p).None?
  {
  }

  // ---- Assembling it cannot fail

  lemma StartSound(p: Program)
    ensures Sound(StartContext(p))
  {
  }

  lemma MainTidy(p: Program)
    requires MainCode(p).Some?
    ensures var code := MainCode(p).value; IsCode(code) && Unique(code) && Uses(code) <= Defs(code)
  {
    hide GenSeq, StartLayout;
    var cx := StartContext(p);
    StartSound(p);
    var o := GenSeq(cx, p.body).value;
    SeqTidy(cx, p.body);
    var head, ending := [JumpTo(MAIN), Mark(MAIN)], [Ending(cx)];
    HeadTidy();
    TidyBare(ending, 0, {});
    LabelsConcat(head, o.code);
    LabelsConcat(head + o.code, ending);
    CodeConcat(head, o.code);
    CodeConcat(head + o.code, ending);
  }

  lemma HeadTidy()
    ensures var head := [JumpTo(MAIN), Mark(MAIN)];
              Defs(head) == {MAIN} && Uses(head) == {MAIN} && Unique(head) && IsCode(head)
  {
    var jump, mark := [JumpTo(MAIN)], [Mark(MAIN)];
    assert Defs([]) == {} && Uses([]) == {};
    assert Defs(mark) == {MAIN} && Uses(mark) == {} && Unique(mark) && IsCode(mark);
    TidyBare(jump, 0, {MAIN});
    assert Uses(jump) == {MAIN};
    LabelsConcat(jump, mark);
    CodeConcat(jump, mark);
    assert jump + mark == [JumpTo(MAIN), Mark(MAIN)];
  }

  predicate NoEqu(lines: seq<Line>) { forall i :: 0 <= i < |lines| ==> !lines[i].body.Equ? }

  /** Pass 1 accepts distinct labels and puts each in the table. */
  lemma {:induction false} Pass1Accepts(lines: seq<Line>, lc: int, t: Symbols)
    requires Unique(lines) && Defs(lines) !! t.Keys && NoEqu(lines)
    ensures Pass1(lines, lc, t).Some? && Pass1(lines, lc, t).value.Keys == t.Keys + Defs(lines)
    decreases lines
  {
    if lines != [] {
      var t1 := Define(t, lc, lines[0]).value;
      assert forall i :: 0 <= i < |lines[1..]| ==> lines[1..][i] == lines[i + 1];
      assert t1.Keys == t.Keys + Marked(lines[0]);
      Pass1Accepts(lines[1..], Advance(lc, lines[0].body), t1);
    }
  }

  /** Data lines hold numbers only. */
  predicate Numeric(b: Body) { b.Data? ==> forall i :: 0 <= i < |b.values| ==> b.values[i].Num? }

  lemma {:induction false} NumbersPut(t: Symbols, vs: seq<Operand>, lc: int, out: Output)
    requires forall i :: 0 <= i < |vs| ==> vs[i].Num?
    ensures PutData(t, vs, lc, out).Some?
    decreases vs
  {
    if vs != [] {
      assert forall i :: 0 <= i < |vs[1..]| ==> vs[1..][i] == vs[i + 1];
      NumbersPut(t, vs[1..], lc + 1, out[lc := Wrap(Value(t, vs[0]).value)]);
    }
  }

  /** Pass 2 accepts lines whose symbols are all in the table. */
  lemma {:induction false} Pass2Accepts(lines: seq<Line>, t: Symbols, lc: int, out: Output)
    requires Uses(lines) <= t.Keys && forall i :: 0 <= i < |lines| ==> Numeric(lines[i].body)
    ensures Pass2(lines, t, lc, out).Some?
    decreases lines
  {
    if lines != [] {
      var b := lines[0].body;
      assert Numeric(b);
      BodyAccepted(t, b, lc, out);
      assert forall i :: 0 <= i < |lines[1..]| ==> lines[1..][i] == lines[i + 1];
      Pass2Accepts(lines[1..], t, Advance(lc, b), PutLine(t, b, lc, out).value);
    }
  }

  lemma BodyAccepted(t: Symbols, b: Body, lc: int, out: Output)
    requires Used(b) <= t.Keys && Numeric(b)
    ensures PutLine(t, b, lc, out).Some?
  {
    if b.Data? { NumbersPut(t, b.values, lc, out); }
  }

  // ---- Data

  predicate IsDataLine(line: Line) { line.mark.None? && (line.body.Org? || line.body.Data?) && Numeric(line.body) }

  lemma {:induction false} DataShape(lines: seq<Line>)
    requires forall i :: 0 <= i < |lines| ==> IsDataLine(lines[i])
    ensures Defs(lines) == {} && Uses(lines) == {} && Unique(lines) && NoEqu(lines)
    decreases lines
  {
    if lines != [] {
      assert IsDataLine(lines[0]);
      assert forall i :: 0 <= i < |lines[1..]| ==> lines[1..][i] == lines[i + 1];
      DataShape(lines[1..]);
    }
  }

  lemma {:induction false} ElementLinesAreData(inits: seq<Expr>, size: nat, i: nat)
    requires i <= size
    ensures forall k :: 0 <= k < |ElementLines(inits, size, i)| ==> IsDataLine(ElementLines(inits, size, i)[k])
    decreases size - i
  {
    if i < size { ElementLinesAreData(inits, size, i + 1); }
  }

  lemma {:induction false} DataLinesAreData(gs: seq<Global>, l: Layout)
    ensures forall k :: 0 <= k < |DataLines(gs, l)| ==> IsDataLine(DataLines(gs, l)[k])
    decreases gs
  {
    if gs != [] {
      if gs[0].Array? { ElementLinesAreData(gs[0].inits, gs[0].size, 0); }
      DataLinesAreData(gs[1..], l);
    }
  }

  // ---- Where the data goes

  /** Everything in the layout lies from `base` on. */
  predicate LaidOutFrom(l: Layout, base: int) {
    l.next >= base && (forall n :: n in l.globals ==> l.globals[n] >= base) && forall n :: n in l.arrays ==>
        l.arrays[n].0 >= base
  }

  /** l' still knows the names of l, and lies from `base` on. */
  predicate LaidOutAfter(l: Layout, l': Layout, base: int) {
    LaidOutFrom(l', base) && l.globals.Keys <= l'.globals.Keys && l.arrays.Keys <= l'.arrays.Keys
  }

  predicate Knows(l: Layout, g: Global) { if g.Array? then g.name in l.arrays else g.name in l.globals }

  lemma {:induction false} LayoutKnows(gs: seq<Global>, l: Layout, base: int)
    requires LaidOutFrom(l, base)
    ensures LaidOutAfter(l, GlobalLayout(gs, l), base) && forall k :: 0 <= k < |gs| ==>
            Knows(GlobalLayout(gs, l), gs[k])
    decreases gs
  {
    if gs != [] {
      var l1 := match gs[0]
        case Array(name, size, _) => Declare(l, name, size)
        case Scalar(name, _) => l.(globals := l.globals[name := l.next], next := l.next + 1);
      LayoutKnows(gs[1..], l1, base);
      assert Knows(l1, gs[0]);
      assert forall k :: 0 <= k < |gs[1..]| ==> gs[1..][k] == gs[k + 1];
    }
  }

  lemma {:induction false} AfterLaidOut(l: Layout, s: Stmt, base: int)
    requires LaidOutFrom(l, base)
    ensures LaidOutAfter(l, After(l, s), base)
    decreases s, 1
  {
    match s
    case If(_, thenBody, elseBody) =>
      AfterSeqLaidOut(l, thenBody, base);
      AfterSeqLaidOut(AfterSeq(l, thenBody), elseBody, base);
    case While(_, body) => AfterSeqLaidOut(l, body, base);
    case For(init, _, update, body) =>
      if init.Some? { AfterLaidOut(l, init.value, base); }
      var l0 := if init.Some? then After(l, init.value) else l;
      AfterSeqLaidOut(l0, body, base);
      if update.Some? { AfterLaidOut(AfterSeq(l0, body), update.value, base); }
    case Block(stmts) => AfterSeqLaidOut(l, stmts, base);
    case _ =>
  }

  lemma {:induction false} AfterSeqLaidOut(l: Layout, stmts: seq<Stmt>, base: int)
    requires LaidOutFrom(l, base)
    ensures LaidOutAfter(l, AfterSeq(l, stmts), base)
    decreases stmts, 0
  {
    if stmts != [] {
      AfterLaidOut(l, stmts[0], base);
      AfterSeqLaidOut(After(l, stmts[0]), stmts[1..], base);
    }
  }

  lemma AddressesAbove(p: Program)
    ensures forall k :: 0 <= k < |p.globals| ==> AddressOf(FinalLayout(p), p.globals[k]) >= GLOBAL_BASE_ADDR
  {
    LayoutKnows(p.globals, Layout(map[], map[], GLOBAL_BASE_ADDR), GLOBAL_BASE_ADDR);
    AfterSeqLaidOut(StartLayout(p), p.body, GLOBAL_BASE_ADDR);
    assert forall k :: 0 <= k < |p.globals| ==> Knows(StartLayout(p), p.globals[k]);
  }

  /** The generator's layout behind main is the final layout, and it knows every global. */
  lemma LayoutIsFinal(p: Program)
    requires GenSeq(StartContext(p), p.body).Some?
    ensures var cx := GenSeq(StartContext(p), p.body).value.cx; cx.layout == FinalLayout(p) && cx.main
    ensures forall k :: 0 <= k < |p.globals| ==> Knows(FinalLayout(p), p.globals[k])
  {
    hide GenSeq, AfterSeq, GlobalLayout;
    StartSound(p);
    SeqFacts(StartContext(p), p.body);
    LayoutKnows(p.globals, Layout(map[], map[], GLOBAL_BASE_ADDR), GLOBAL_BASE_ADDR);
    AfterSeqLaidOut(StartLayout(p), p.body, GLOBAL_BASE_ADDR);
    assert forall k :: 0 <= k < |p.globals| ==> Knows(StartLayout(p), p.globals[k]);
  }

  lemma {:induction false} ElementsAvoid(inits: seq<Expr>, size: nat, i: nat, lc: int, hi: int)
    requires i <= size && lc >= hi
    ensures Avoids(ElementLines(inits, size, i), lc, 0, hi) && Counter(ElementLines(inits, size, i), lc) >= hi
    decreases size - i
  {
    if i < size {
      var x, rest := WordLine(ElementValue(inits, i)), ElementLines(inits, size, i + 1);
      assert ([x] + rest)[1..] == rest;
      ElementsAvoid(inits, size, i + 1, lc + 1, hi);
    }
  }

  lemma {:induction false} AvoidsConcat(x: seq<Line>, y: seq<Line>, lc: int, lo: int, hi: int)
    ensures Avoids(x + y, lc, lo, hi) <==> Avoids(x, lc, lo, hi) && Avoids(y, Counter(x, lc), lo, hi)
    decreases x
  {
    if x == [] {
      assert x + y == y;
    } else {
      assert (x + y)[1..] == x[1..] + y;
      AvoidsConcat(x[1..], y, Advance(lc, x[0].body), lo, hi);
    }
  }

  lemma GlobalAvoids(g: Global, address: int, lc: int, hi: int)
    requires address >= hi
    ensures Avoids(GlobalLines(g, address), lc, 0, hi) && Counter(GlobalLines(g, address), lc) >= hi
  {
    match g
    case Array(_, size, inits) =>
      var rest := ElementLines(inits, size, 0);
      assert ([Ins(Org(address))] + rest)[1..] == rest;
      ElementsAvoid(inits, size, 0, address, hi);
    case Scalar(_, init) =>
      var org, word := Ins(Org(address)), WordLine(InitialValue(init));
      assert [org, word][1..] == [word] && [word][1..] == [];
      assert Counter([word], address) == Counter([], address + 1) == address + 1;
  }

  lemma {:induction false} DataAvoidsCode(gs: seq<Global>, l: Layout, lc: int, hi: int)
    requires forall k :: 0 <= k < |gs| ==> AddressOf(l, gs[k]) >= hi
    ensures Avoids(DataLines(gs, l), lc, 0, hi)
    decreases gs
  {
    if gs != [] {
      var x := GlobalLines(gs[0], AddressOf(l, gs[0]));
      GlobalAvoids(gs[0], AddressOf(l, gs[0]), lc, hi);
      assert forall k :: 0 <= k < |gs[1..]| ==> gs[1..][k] == gs[k + 1];
      DataAvoidsCode(gs[1..], l, Counter(x, lc), hi);
      AvoidsConcat(x, DataLines(gs[1..], l), lc, 0, hi);
    }
  }

  // ---- Labels point into the code

  /** Labels of code that starts at a point into it, and stand where they say. */
  lemma {:induction false} LabelsPlaced(lines: seq<Line>, a: nat, t0: Symbols, t: Symbols, top: nat)
    requires IsCode(lines) && Pass1(lines, a, t0) == Some(t) && a + Size(lines) <= top <= CODE_TOP
    requires Uses(lines) <= t.Keys && NoEqu(lines)
    requires forall n :: n in Uses(lines) ==> 0 <= t[n] <= top
    ensures Placed(t, a, lines)
    decreases lines
  {
    hide Encodable;
    if lines != [] {
      var b, rest := lines[0].body, lines[1..];
      assert forall i :: 0 <= i < |rest| ==> rest[i] == lines[i + 1];
      var t1 := Define(t0, a, lines[0]).value;
      var next: nat := Advance(a, b);
      if lines[0].mark.Some? {
        SymbolKept(rest, next, t1, lines[0].mark.value);
      }
      assert Used(b) <= t.Keys;
      LabelsPlaced(rest, next, t1, t, top);
    }
  }

  lemma {:induction false} LabelsWithin(lines: seq<Line>, a: nat, t0: Symbols, t: Symbols)
    requires IsCode(lines) && Pass1(lines, a, t0) == Some(t) && NoEqu(lines)
    ensures forall n :: n in Defs(lines) ==> n in t && a <= t[n] <= a + Size(lines)
    decreases lines
  {
    hide Encodable;
    if lines != [] {
      var rest := lines[1..];
      assert forall i :: 0 <= i < |rest| ==> rest[i] == lines[i + 1];
      var t1 := Define(t0, a, lines[0]).value;
      var next: nat := Advance(a, lines[0].body);
      if lines[0].mark.Some? { SymbolKept(rest, next, t1, lines[0].mark.value); }
      LabelsWithin(rest, next, t1, t);
    }
  }

  /** The program assembles, and a memory that holds the image holds the code with all its labels in place. */
  lemma ProgramAssembles(p: Program) returns (t: Symbols, out: Output)
    requires GenProgram(p).Some? && Size(MainCode(p).value) + 2 <= CODE_TOP
    ensures Pass1(GenProgram(p).value, 0, map[]) == Some(t) && Pass2(GenProgram(p).value, t, 0, map[]) == Some(out)
    ensures forall m: Mem :: (forall k :: 0 <= k < Size(MainCode(p).value) && k in out ==> m[k] == out[k]) ==>
            CodeAt(m, t, 0, MainCode(p).value)
  {
    hide GenSeq, MainCode, GlobalLayout, AfterSeq, DataLines, Encodable, CodeAt, Pass1, Pass2, Placed, Counter;
    var code, data, org := MainCode(p).value, DataLines(p.globals, FinalLayout(p)), [Ins(Org(0))];
    MainTidy(p);
    DataLinesAreData(p.globals, FinalLayout(p));
    DataShape(data);
    OrgShape(Org(0));
    CodeHasNoEqu(code);
    LabelsConcat(code, data);
    LabelsConcat(org, code + data);
    var lines := GenProgram(p).value;
    assert lines == org + (code + data);
    Pass1Accepts(lines, 0, map[]);
    t := Pass1(lines, 0, map[]).value;
    Pass1Concat(org, code + data, 0, map[]);
    Pass1Concat(code, data, 0, map[]);
    OrgPass(map[]);
    var t1 := Pass1(code, 0, map[]).value;
    CodeCounter(code, 0);
    assert Pass1(data, Size(code), t1) == Some(t);
    DataDefinesNothing(data, Size(code), t1);
    LabelsWithin(code, 0, map[], t);
    LabelsPlaced(code, 0, map[], t, Size(code));
    NumericLines(lines, org, code, data);
    Pass2Accepts(lines, t, 0, map[]);
    out := Pass2(lines, t, 0, map[]).value;
    AddressesAbove(p);
    DataAvoidsCode(p.globals, FinalLayout(p), Size(code), Size(code));
    forall m: Mem | forall k :: 0 <= k < Size(code) && k in out ==> m[k] == out[k]
      ensures CodeAt(m, t, 0, code)
    {
      OrgCounter();
      AssembledCode(org, code, data, t, out, m);
    }
  }

  lemma OrgShape(b: Body)
    requires b.Org?
    ensures Defs([Ins(b)]) == {} && Uses([Ins(b)]) == {} && Unique([Ins(b)])
  {
    assert Defs([]) == {} && Uses([]) == {};
  }

  lemma OrgCounter()
    ensures Counter([Ins(Org(0))], 0) == 0
  {
  }

  lemma OrgPass(t: Symbols)
    ensures Pass1([Ins(Org(0))], 0, t) == Some(t) && Counter([Ins(Org(0))], 0) == 0
  {
  }

  lemma CodeHasNoEqu(lines: seq<Line>)
    requires IsCode(lines)
    ensures NoEqu(lines)
  {
    hide Encodable;
  }

  lemma NumericLines(lines: seq<Line>, org: seq<Line>, code: seq<Line>, data: seq<Line>)
    requires lines == org + (code + data) && org == [Ins(Org(0))] && IsCode(code)
    requires forall k :: 0 <= k < |data| ==> IsDataLine(data[k])
    ensures forall i :: 0 <= i < |lines| ==> Numeric(lines[i].body)
  {
    hide Encodable;
    forall i | 0 <= i < |lines| ensures Numeric(lines[i].body) {
      if i > |code| { assert lines[i] == data[i - 1 - |code|]; } else if i > 0 { assert lines[i] == code[i - 1]; }
    }
  }

  lemma {:induction false} DataDefinesNothing(data: seq<Line>, lc: int, t: Symbols)
    requires forall k :: 0 <= k < |data| ==> IsDataLine(data[k])
    ensures Pass1(data, lc, t) == Some(t)
    decreases data
  {
    if data != [] {
      assert IsDataLine(data[0]);
      assert forall i :: 0 <= i < |data[1..]| ==> data[1..][i] == data[i + 1];
      DataDefinesNothing(data[1..], Advance(lc, data[0].body), t);
    }
  }

  // ---- Running it

  /** The assembler turns the program's lines into these words. */
  ghost predicate AssemblesTo(p: Program, words: seq<Word>) {
    && GenProgram(p).Some? && Pass1(GenProgram(p).value, 0, map[]).Some?
    && Pass2(GenProgram(p).value, Pass1(GenProgram(p).value, 0, map[]).value, 0, map[]).Some?
    && IsImage(words, Pass2(GenProgram(p).value, Pass1(GenProgram(p).value, 0, map[]).value, 0, map[]).value)
  }

  /** Memory as load_program leaves it. */
  ghost predicate Holds(m: Mem, words: seq<Word>) { forall i :: 0 <= i < |words| && i < MEM_SIZE ==> m[i] == words[i] }

  /** The meaning of main, started with the loaded image as memory; nothing below the data may be overwritten. */
  function Meaning(p: Program, m: Mem, fuel: nat): Outcome {
    ExecSeq(fuel, StartLayout(p), CODE_TOP, p.body, Store(map[], m))
  }

  lemma ImageHolds(words: seq<Word>, out: Output, m: Mem, size: nat)
    requires IsImage(words, out) && Holds(m, words) && size <= MEM_SIZE
    ensures forall k :: 0 <= k < size && k in out ==> m[k] == out[k]
  {
  }

  lemma MainParts(p: Program, m: Mem, t: Symbols)
    requires MainCode(p).Some? && CodeAt(m, t, 0, MainCode(p).value)
    ensures var cx := StartContext(p);
            var o := GenSeq(cx, p.body).value;
            && GenSeq(cx, p.body).Some? && CodeAt(m, t, 0, [JumpTo(MAIN)] + ([Mark(MAIN)] + (o.code + [Ending(cx)])))
            && MAIN in t && t[MAIN] == 1 && CodeAt(m, t, 1, o.code) && CodeAt(m, t, 1 + Size(o.code), [Ending(cx)])
            && Size(MainCode(p).value) == Size(o.code) + 2
  {
    hide CodeAt, Size, GenSeq, StartLayout;
    var cx := StartContext(p);
    var o := GenSeq(cx, p.body).value;
    var tail := o.code + [Ending(cx)];
    assert MainCode(p).value == [JumpTo(MAIN)] + ([Mark(MAIN)] + tail);
    var jump := [JumpTo(MAIN)];
    assert jump == jump + [] && [Ending(cx)] == [Ending(cx)] + [];
    NoCode();
    CodeHead(m, t, 0, JumpTo(MAIN), [Mark(MAIN)] + tail);
    Split(m, t, 0, jump, [Mark(MAIN)] + tail);
    CodeHead(m, t, 0, JumpTo(MAIN), []);
    CodeHead(m, t, 1, Mark(MAIN), tail);
    Split(m, t, 1, o.code, [Ending(cx)]);
    CodeHead(m, t, 1 + Size(o.code), Ending(cx), []);
  }

  /** A compiled, assembled and loaded program halts, and memory and R1 are then as the meaning of main says. */
  lemma CompiledProgramRuns(p: Program, words: seq<Word>, m: Mem, fuel: nat, regs: Regs) returns (k: nat)
    requires AssemblesTo(p, words) && Holds(m, words) && Size(MainCode(p).value) + 2 <= CODE_TOP
    requires Defines(Meaning(p, m, fuel))
    ensures var o, s := Meaning(p, m, fuel), IsaRun(Arch(regs, m, 0), k);
            && (o.Normal? || o.Returned?) && AtHalt(s) && s.mem == o.st.mem
            && (o.Returned? && o.result.Some? ==> s.regs[1] == o.result.value)
            && SteadyRun(Arch(regs, m, 0), k) && s.pc + 2 < CODE_TOP
  {
    hide IsaStep, CodeAt, Size, GenSeq, ExecSeq, GlobalLayout, DataLines, Isa.Decode, Pass1, Pass2, IsImage, Holds,
      Reaches, Sound;
    var t, out := ProgramAssembles(p);
    var limit := CODE_TOP;
    ImageHolds(words, out, m, Size(MainCode(p).value));
    var cx := StartContext(p);
    StartSound(p);
    MainParts(p, m, t);
    hide MainCode;
    var o := GenSeq(cx, p.body).value;
    var s, st := Arch(regs, m, 0), Store(map[], m);
    var s1 := RunJump(t, MAIN, [Mark(MAIN)] + (o.code + [Ending(cx)]), s);
    assert Agree(cx, st, s1) && SameCode(m, s1.mem, limit);
    var r := Meaning(p, m, fuel);
    var s2 := SeqRuns(t, m, limit, fuel, cx, p.body, o, r, s1, st);
    ReachesTrans(s, s1, s2);
    SeqFacts(cx, p.body);
    if r.Normal? {
      assert s2.pc == 1 + Size(o.code);
      OneEnding(cx);
      CodeNow(m, s2.mem, limit, t, s2.pc, [Ending(cx)]);
      EndingWord(t, cx, s2);
    }
    HaltWord(s2);
    k := Steps(s, s2);
  }

  lemma OneEnding(cx: Cx)
    ensures Size([Ending(cx)]) == 1
  {
    assert Size([]) == 0;
  }

  lemma HaltWord(s: Arch)
    ensures s.pc + 2 < CODE_TOP && Isa.Decode(Fetch(s)) == InstrJ(HLT, 0) ==> AtHalt(s)
  {
  }

  lemma Steps(s: Arch, s': Arch) returns (k: nat)
    requires Reaches(s, s')
    ensures IsaRun(s, k) == s' && SteadyRun(s, k)
  {
    hide IsaStep, Steady;
    k :| IsaRun(s, k) == s' && SteadyRun(s, k);
  }
}
