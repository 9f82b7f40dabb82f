/** The data section: where the words of globals are emitted, and what a loaded program finds there. */
module GlobalData {
  import opened Words
  import opened Memory
  import opened Isa
  import opened Ast
  import opened Assembly
  import opened AssemblerSpec
  import opened CodeGen
  import opened Semantics
  import opened Wrappers
  import opened Programs

  // ---- What is emitted

  /** The words that are emitted for a global: 0 for everything that is not an integer literal. */
  function EmittedWords(g: Global): seq<int> {
    match g
    case Scalar(_, init) => [InitialValue(init)]
    case Array(_, size, inits) => seq(size, i requires 0 <= i < size => ElementValue(inits, i))
  }

  function Flat(gs: seq<Global>): seq<int> { if gs == [] then [] else EmittedWords(gs[0]) + Flat(gs[1..]) }

  /** The globals lie in l one behind the other, from base on. */
  predicate Consecutive(gs: seq<Global>, l: Layout, base: int)
    decreases gs
  {
    gs == [] || (AddressOf(l, gs[0]) == base && Consecutive(gs[1..], l, base + |EmittedWords(gs[0])|))
  }

  predicate Distinct(gs: seq<Global>) { forall i, j :: 0 <= i < j < |gs| ==> gs[i].name != gs[j].name }

  // ---- What the assembler puts

  function PutInts(out: Output, at: int, vs: seq<int>): Output
    decreases vs
  {
    if vs == [] then out else PutInts(out[at := Wrap(vs[0])], at + 1, vs[1..])
  }

  lemma {:induction false} PutIntsConcat(out: Output, at: int, x: seq<int>, y: seq<int>)
    ensures PutInts(PutInts(out, at, x), at + |x|, y) == PutInts(out, at, x + y)
    decreases x
  {
    if x == [] {
      assert x + y == y;
    } else {
      assert (x + y)[1..] == x[1..] + y;
      PutIntsConcat(out[at := Wrap(x[0])], at + 1, x[1..], y);
    }
  }

  lemma {:induction false} PutIntsAt(out: Output, at: int, vs: seq<int>, k: int)
    ensures var r := PutInts(out, at, vs);
            if at <= k < at + |vs| then k in r && r[k] == Wrap(vs[k - at])
            else (k in r <==> k in out) && (k in r ==> r[k] == out[k])
    decreases vs
  {
    if vs != [] { PutIntsAt(out[at := Wrap(vs[0])], at + 1, vs[1..], k); }
  }

  lemma WordPut(v: int, t: Symbols, lc: int, out: Output)
    ensures PutLine(t, WordLine(v).body, lc, out) == Some(out[lc := Wrap(v)]) && Advance(lc, WordLine(v).body) == lc + 1
  {
    assert [Num(v)][1..] == [];
    assert PutData(t, [], lc + 1, out[lc := Wrap(v)]) == Some(out[lc := Wrap(v)]);
  }

  lemma {:induction false} ElementsPut(inits: seq<Expr>, size: nat, i: nat, t: Symbols, lc: int, out: Output,
      all: seq<int>)
    requires i <= size == |all| && forall k :: 0 <= k < size ==> all[k] == ElementValue(inits, k)
    ensures Pass2(ElementLines(inits, size, i), t, lc, out) == Some(PutInts(out, lc, all[i..]))
    decreases size - i
  {
    hide PutLine, ElementValue;
    if i < size {
      var line, rest := WordLine(ElementValue(inits, i)), ElementLines(inits, size, i + 1);
      WordPut(all[i], t, lc, out);
      assert ([line] + rest)[1..] == rest;
      assert all[i..][1..] == all[i + 1..];
      ElementsPut(inits, size, i + 1, t, lc + 1, out[lc := Wrap(all[i])], all);
    }
  }

  lemma GlobalPut(g: Global, address: int, t: Symbols, lc: int, out: Output)
    ensures Pass2(GlobalLines(g, address), t, lc, out) == Some(PutInts(out, address, EmittedWords(g)))
  {
    var org, ws := Ins(Org(address)), EmittedWords(g);
    if g.Array? {
      var rest := ElementLines(g.inits, g.size, 0);
      assert ([org] + rest)[1..] == rest && ws[0..] == ws;
      ElementsPut(g.inits, g.size, 0, t, address, out, ws);
    } else {
      var line := WordLine(ws[0]);
      WordPut(ws[0], t, address, out);
      assert [org, line][1..] == [line] && [line][1..] == [] && ws[1..] == [];
      var out1 := out[address := Wrap(ws[0])];
      assert Pass2([], t, address + 1, out1) == Some(out1);
      assert Pass2([line], t, address, out) == Some(out1);
      assert PutInts(out1, address + 1, []) == out1;
    }
  }

  /** Address a is one of global g's words under layout l. */
  predicate Occupies(l: Layout, g: Global, a: int) { AddressOf(l, g) <= a < AddressOf(l, g) + |EmittedWords(g)| }

  lemma GlobalPutAt(g: Global, l: Layout, t: Symbols, lc: int, out: Output, a: int)
    ensures Pass2(GlobalLines(g, AddressOf(l, g)), t, lc, out).Some?
    ensures var r := Pass2(GlobalLines(g, AddressOf(l, g)), t, lc, out).value;
            if Occupies(l, g, a) then a in r && r[a] == Wrap(EmittedWords(g)[a - AddressOf(l, g)])
            else (a in r <==> a in out) && (a in r ==> r[a] == out[a])
  {
    GlobalPut(g, AddressOf(l, g), t, lc, out);
    PutIntsAt(out, AddressOf(l, g), EmittedWords(g), a);
    hide Pass2, GlobalLines, EmittedWords, AddressOf;
  }

  lemma DataStep(gs: seq<Global>, l: Layout, t: Symbols, lc: int, out: Output)
    requires gs != []
    ensures var r := Pass2(GlobalLines(gs[0], AddressOf(l, gs[0])), t, lc, out);
            Pass2(DataLines(gs, l), t, lc, out)
            == if r.None? then None else Pass2(DataLines(gs[1..], l), t,
                Counter(GlobalLines(gs[0], AddressOf(l, gs[0])), lc), r.value)
  {
    hide GlobalLines, AddressOf, PutLine;
    Pass2Concat(GlobalLines(gs[0], AddressOf(l, gs[0])), DataLines(gs[1..], l), t, lc, out);
  }

  /** The data section leaves alone what belongs to none of the globals, and drops nothing. */
  lemma {:induction false} DataKeeps(gs: seq<Global>, l: Layout, t: Symbols, lc: int, out: Output, a: int)
    ensures Pass2(DataLines(gs, l), t, lc, out).Some?
    ensures a in out ==> a in Pass2(DataLines(gs, l), t, lc, out).value
    ensures (forall k :: 0 <= k < |gs| ==> !Occupies(l, gs[k], a)) ==>
              var r := Pass2(DataLines(gs, l), t, lc, out).value; (a in r <==> a in out) && (a in r ==> r[a] == out[a])
    decreases gs
  {
    hide Occupies, GlobalLines, AddressOf, PutLine;
    if gs != [] {
      DataStep(gs, l, t, lc, out);
      GlobalPutAt(gs[0], l, t, lc, out, a);
      assert forall k :: 0 <= k < |gs[1..]| ==> gs[1..][k] == gs[k + 1];
      var x := GlobalLines(gs[0], AddressOf(l, gs[0]));
      DataKeeps(gs[1..], l, t, Counter(x, lc), Pass2(x, t, lc, out).value, a);
    }
  }

  /** Every word of global k is put; it stays if it belongs to no other global. */
  lemma {:induction false} DataAt(gs: seq<Global>, l: Layout, t: Symbols, lc: int, out: Output, k: nat, a: int)
    requires k < |gs| && Occupies(l, gs[k], a)
    ensures Pass2(DataLines(gs, l), t, lc, out).Some? && a in Pass2(DataLines(gs, l), t, lc, out).value
    ensures (forall j :: 0 <= j < |gs| && j != k ==> !Occupies(l, gs[j], a)) ==>
              Pass2(DataLines(gs, l), t, lc, out).value[a] == Wrap(EmittedWords(gs[k])[a - AddressOf(l, gs[k])])
    decreases k
  {
    hide GlobalLines, EmittedWords, AddressOf, PutLine;
    DataStep(gs, l, t, lc, out);
    GlobalPutAt(gs[0], l, t, lc, out, a);
    var x := GlobalLines(gs[0], AddressOf(l, gs[0]));
    var out1 := Pass2(x, t, lc, out).value;
    assert forall j :: 0 <= j < |gs[1..]| ==> gs[1..][j] == gs[j + 1];
    if k == 0 {
      DataKeeps(gs[1..], l, t, Counter(x, lc), out1, a);
    } else {
      DataAt(gs[1..], l, t, Counter(x, lc), out1, k - 1, a);
    }
  }

  // ---- Where the layout puts them

  /** One step of the layout. */
  function Place(l: Layout, g: Global): Layout {
    match g
    case Array(name, size, _) => Declare(l, name, size)
    case Scalar(name, _) => l.(globals := l.globals[name := l.next], next := l.next + 1)
  }

  lemma {:induction false} LaterGlobalsElsewhere(gs: seq<Global>, l: Layout, g: Global)
    requires forall k :: 0 <= k < |gs| ==> gs[k].name != g.name
    ensures AddressOf(GlobalLayout(gs, l), g) == AddressOf(l, g)
    decreases gs
  {
    if gs != [] {
      assert forall k :: 0 <= k < |gs[1..]| ==> gs[1..][k] == gs[k + 1];
      assert gs[0].name != g.name;
      LaterGlobalsElsewhere(gs[1..], Place(l, gs[0]), g);
    }
  }

  lemma {:induction false} LayoutConsecutive(gs: seq<Global>, l: Layout)
    requires Distinct(gs)
    ensures Consecutive(gs, GlobalLayout(gs, l), l.next)
    decreases gs
  {
    if gs != [] {
      var l1 := Place(l, gs[0]);
      assert forall k :: 0 <= k < |gs[1..]| ==> gs[1..][k] == gs[k + 1];
      assert AddressOf(l1, gs[0]) == l.next && l1.next == l.next + |EmittedWords(gs[0])|;
      LaterGlobalsElsewhere(gs[1..], l1, gs[0]);
      LayoutConsecutive(gs[1..], l1);
    }
  }

  /** The names under which a statement declares arrays. */
  function ArrayNames(s: Stmt): set<string>
    decreases s, 1
  {
    match s
    case ArrayDecl(name, _, _) => {name}
    case If(_, thenBody, elseBody) => AllArrayNames(thenBody) + AllArrayNames(elseBody)
    case While(_, body) => AllArrayNames(body)
    case For(init, _, update, body) =>
      (if init.Some? then ArrayNames(init.value) else {}) + AllArrayNames(body)
      + (if update.Some? then ArrayNames(update.value) else {})
    case Block(stmts) => AllArrayNames(stmts)
    case _ => {}
  }

  function AllArrayNames(stmts: seq<Stmt>): set<string>
    decreases stmts, 0
  {
    if stmts == [] then {} else ArrayNames(stmts[0]) + AllArrayNames(stmts[1..])
  }

  lemma {:induction false} AfterElsewhere(l: Layout, s: Stmt, g: Global)
    requires g.name !in ArrayNames(s)
    ensures AddressOf(After(l, s), g) == AddressOf(l, g)
    decreases s, 1
  {
    match s
    case If(_, thenBody, elseBody) =>
      AfterSeqElsewhere(l, thenBody, g);
      AfterSeqElsewhere(AfterSeq(l, thenBody), elseBody, g);
    case While(_, body) => AfterSeqElsewhere(l, body, g);
    case For(init, _, update, body) =>
      if init.Some? { AfterElsewhere(l, init.value, g); }
      var l0 := if init.Some? then After(l, init.value) else l;
      AfterSeqElsewhere(l0, body, g);
      if update.Some? { AfterElsewhere(AfterSeq(l0, body), update.value, g); }
    case Block(stmts) => AfterSeqElsewhere(l, stmts, g);
    case _ =>
  }

  lemma {:induction false} AfterSeqElsewhere(l: Layout, stmts: seq<Stmt>, g: Global)
    requires g.name !in AllArrayNames(stmts)
    ensures AddressOf(AfterSeq(l, stmts), g) == AddressOf(l, g)
    decreases stmts, 0
  {
    hide AddressOf;
    if stmts != [] {
      AfterElsewhere(l, stmts[0], g);
      AfterSeqElsewhere(After(l, stmts[0]), stmts[1..], g);
    }
  }

  /** The array `name` lies at `bound` or behind. */
  predicate Behind(l: Layout, name: string, bound: int) { name in l.arrays && l.arrays[name].0 >= bound }

  /** A declaration puts its array behind everything that was laid out before. */
  lemma {:induction false} AfterBehind(l: Layout, s: Stmt, name: string, bound: int)
    requires l.next >= bound
    ensures After(l, s).next >= bound
    ensures name in ArrayNames(s) || Behind(l, name, bound) ==> Behind(After(l, s), name, bound)
    decreases s, 1
  {
    match s
    case If(_, thenBody, elseBody) =>
      AfterSeqBehind(l, thenBody, name, bound);
      AfterSeqBehind(AfterSeq(l, thenBody), elseBody, name, bound);
    case While(_, body) => AfterSeqBehind(l, body, name, bound);
    case For(init, _, update, body) =>
      if init.Some? { AfterBehind(l, init.value, name, bound); }
      var l0 := if init.Some? then After(l, init.value) else l;
      AfterSeqBehind(l0, body, name, bound);
      if update.Some? { AfterBehind(AfterSeq(l0, body), update.value, name, bound); }
    case Block(stmts) => AfterSeqBehind(l, stmts, name, bound);
    case _ =>
  }

  lemma {:induction false} AfterSeqBehind(l: Layout, stmts: seq<Stmt>, name: string, bound: int)
    requires l.next >= bound
    ensures AfterSeq(l, stmts).next >= bound
    ensures name in AllArrayNames(stmts) || Behind(l, name, bound) ==> Behind(AfterSeq(l, stmts), name, bound)
    decreases stmts, 0
  {
    hide Behind;
    if stmts != [] {
      AfterBehind(l, stmts[0], name, bound);
      AfterSeqBehind(After(l, stmts[0]), stmts[1..], name, bound);
    }
  }

  lemma {:induction false} LayoutNext(gs: seq<Global>, l: Layout)
    ensures GlobalLayout(gs, l).next == l.next + |Flat(gs)|
    decreases gs
  {
    if gs != [] {
      assert Place(l, gs[0]).next == l.next + |EmittedWords(gs[0])|;
      LayoutNext(gs[1..], Place(l, gs[0]));
    }
  }

  /** Global k lies within the flat list, and before every later one. */
  lemma {:induction false} ConsecutiveWithin(gs: seq<Global>, l: Layout, base: int, k: nat)
    requires Consecutive(gs, l, base) && k < |gs|
    ensures base <= AddressOf(l, gs[k]) && AddressOf(l, gs[k]) + |EmittedWords(gs[k])| <= base + |Flat(gs)|
    ensures forall j :: k < j < |gs| ==> AddressOf(l, gs[k]) + |EmittedWords(gs[k])| <= AddressOf(l, gs[j])
    decreases k
  {
    hide AddressOf, EmittedWords;
    var base1 := base + |EmittedWords(gs[0])|;
    assert forall j :: 0 <= j < |gs[1..]| ==> gs[1..][j] == gs[j + 1];
    if k > 0 {
      ConsecutiveWithin(gs[1..], l, base1, k - 1);
    } else {
      forall j | 0 < j < |gs| ensures base1 <= AddressOf(l, gs[j]) { ConsecutiveFrom(gs[1..], l, base1, j - 1); }
    }
  }

  lemma {:induction false} ConsecutiveFrom(gs: seq<Global>, l: Layout, base: int, j: nat)
    requires Consecutive(gs, l, base) && j < |gs|
    ensures base <= AddressOf(l, gs[j])
    decreases j
  {
    hide AddressOf, EmittedWords;
    if j > 0 { ConsecutiveFrom(gs[1..], l, base + |EmittedWords(gs[0])|, j - 1); }
  }

  /** main declares an array under the name of global k, itself an array. */
  predicate Moved(p: Program, k: nat)
    requires k < |p.globals|
  {
    p.globals[k].Array? && p.globals[k].name in AllArrayNames(p.body)
  }

  lemma ProgramData(p: Program)
    requires Distinct(p.globals)
    ensures Consecutive(p.globals, StartLayout(p), GLOBAL_BASE_ADDR)
    ensures StartLayout(p).next == GLOBAL_BASE_ADDR + |Flat(p.globals)|
  {
    LayoutConsecutive(p.globals, Layout(map[], map[], GLOBAL_BASE_ADDR));
    LayoutNext(p.globals, Layout(map[], map[], GLOBAL_BASE_ADDR));
  }

  /** A moved array is emitted behind all globals; every other global where the code looks for it. */
  lemma FinalAddress(p: Program, k: nat)
    requires k < |p.globals|
    ensures if Moved(p, k) then AddressOf(FinalLayout(p), p.globals[k]) >= StartLayout(p).next
            else AddressOf(FinalLayout(p), p.globals[k]) == AddressOf(StartLayout(p), p.globals[k])
  {
    var g := p.globals[k];
    if g.Scalar? {
      ScalarElsewhere(StartLayout(p), p.body, g);
    } else if Moved(p, k) {
      AfterSeqBehind(StartLayout(p), p.body, g.name, StartLayout(p).next);
    } else {
      AfterSeqElsewhere(StartLayout(p), p.body, g);
    }
  }

  lemma {:induction false} ScalarStays(l: Layout, s: Stmt)
    ensures After(l, s).globals == l.globals
    decreases s, 1
  {
    match s
    case If(_, thenBody, elseBody) =>
      ScalarsStay(l, thenBody);
      ScalarsStay(AfterSeq(l, thenBody), elseBody);
    case While(_, body) => ScalarsStay(l, body);
    case For(init, _, update, body) =>
      if init.Some? { ScalarStays(l, init.value); }
      var l0 := if init.Some? then After(l, init.value) else l;
      ScalarsStay(l0, body);
      if update.Some? { ScalarStays(AfterSeq(l0, body), update.value); }
    case Block(stmts) => ScalarsStay(l, stmts);
    case _ =>
  }

  lemma {:induction false} ScalarsStay(l: Layout, stmts: seq<Stmt>)
    ensures AfterSeq(l, stmts).globals == l.globals
    decreases stmts, 0
  {
    if stmts != [] {
      ScalarStays(l, stmts[0]);
      ScalarsStay(After(l, stmts[0]), stmts[1..]);
    }
  }

  lemma ScalarElsewhere(l: Layout, stmts: seq<Stmt>, g: Global)
    requires g.Scalar?
    ensures AddressOf(AfterSeq(l, stmts), g) == AddressOf(l, g)
  {
    ScalarsStay(l, stmts);
  }

  /** The data of a non-empty global is emitted where the code looks for it exactly when main declares no array
      under the name of this array. */
  lemma DataStaysIff(p: Program, k: nat)
    requires Distinct(p.globals) && k < |p.globals| && EmittedWords(p.globals[k]) != []
    ensures AddressOf(FinalLayout(p), p.globals[k]) == AddressOf(StartLayout(p), p.globals[k]) <==> !Moved(p, k)
  {
    hide AddressOf, FinalLayout, StartLayout, EmittedWords, Moved, Flat, Consecutive;
    FinalAddress(p, k);
    ProgramData(p);
    ConsecutiveWithin(p.globals, StartLayout(p), GLOBAL_BASE_ADDR, k);
  }

  /** An address that the code uses for global k belongs to no other global's data, and to its own exactly if the
      global was not moved. */
  lemma OwnAddress(p: Program, k: nat, j: nat, a: int)
    requires Distinct(p.globals) && k < |p.globals| && j < |p.globals| && Occupies(StartLayout(p), p.globals[k], a)
    ensures GLOBAL_BASE_ADDR <= a < StartLayout(p).next
    ensures Occupies(FinalLayout(p), p.globals[j], a) <==> j == k && !Moved(p, k)
  {
    hide AddressOf, FinalLayout, StartLayout, EmittedWords, Moved, Flat, Consecutive;
    FinalAddress(p, j);
    ProgramData(p);
    ConsecutiveWithin(p.globals, StartLayout(p), GLOBAL_BASE_ADDR, k);
    ConsecutiveWithin(p.globals, StartLayout(p), GLOBAL_BASE_ADDR, j);
  }

  // ---- What main finds

  /** The output of the second pass, split at the data. */
  lemma OutputParts(p: Program, words: seq<Word>) returns (t: Symbols, lc: int, out0: Output, out: Output)
    requires AssemblesTo(p, words) && Size(MainCode(p).value) + 2 <= CODE_TOP
    ensures Pass2(DataLines(p.globals, FinalLayout(p)), t, lc, out0) == Some(out) && IsImage(words, out)
    ensures forall a :: a >= Size(MainCode(p).value) ==> a !in out0
  {
    hide GenSeq, GlobalLayout, AfterSeq, Pass1, Pass2, DataLines, IsImage, Avoids;
    var lines, data, code := GenProgram(p).value, DataLines(p.globals, FinalLayout(p)), MainCode(p).value;
    var org := [Ins(Org(0))];
    t := Pass1(lines, 0, map[]).value;
    out := Pass2(lines, t, 0, map[]).value;
    assert lines == org + (code + data);
    Pass2Concat(org, code + data, t, 0, map[]);
    OriginPut(t);
    Pass2Concat(code, data, t, 0, map[]);
    out0 := Pass2(code, t, 0, map[]).value;
    lc := Counter(code, 0);
    MainTidy(p);
    forall a | a >= Size(code)
      ensures a !in out0
    {
      CodeAvoids(code, 0, Size(code), a + 1);
      Pass2Avoids(code, t, 0, map[], Size(code), a + 1, a);
    }
  }

  lemma OriginPut(t: Symbols)
    ensures Pass2([Ins(Org(0))], t, 0, map[]) == Some(map[]) && Counter([Ins(Org(0))], 0) == 0
  {
    assert [Ins(Org(0))][1..] == [];
  }

  /** What is emitted for global k is loaded where the final layout has it, unless another global lies there too. */
  lemma LoadedWord(p: Program, words: seq<Word>, m: Mem, k: nat, a: nat)
    requires AssemblesTo(p, words) && Holds(m, words) && Size(MainCode(p).value) + 2 <= CODE_TOP
    requires k < |p.globals| && Occupies(FinalLayout(p), p.globals[k], a) && a < MEM_SIZE
    requires forall j :: 0 <= j < |p.globals| && j != k ==> !Occupies(FinalLayout(p), p.globals[j], a)
    ensures m[a] == Wrap(EmittedWords(p.globals[k])[a - AddressOf(FinalLayout(p), p.globals[k])])
  {
    hide GenSeq, AfterSeq, Pass2, DataLines, EmittedWords, AddressOf, MainCode, FinalLayout, AssemblesTo;
    var t, lc, out0, out := OutputParts(p, words);
    DataAt(p.globals, FinalLayout(p), t, lc, out0, k, a);
  }

  /** Between the code and a word of data, memory is 0 where no global lies. */
  lemma GapWord(p: Program, words: seq<Word>, m: Mem, a: nat, k: nat, b: nat)
    requires AssemblesTo(p, words) && Holds(m, words) && Size(MainCode(p).value) + 2 <= CODE_TOP
    requires Size(MainCode(p).value) <= a < b && a < MEM_SIZE && k < |p.globals|
             && Occupies(FinalLayout(p), p.globals[k], b)
    requires forall j :: 0 <= j < |p.globals| ==> !Occupies(FinalLayout(p), p.globals[j], a)
    ensures m[a] == 0
  {
    hide GenSeq, AfterSeq, Pass2, DataLines, EmittedWords, AddressOf, MainCode, FinalLayout, AssemblesTo, Size;
    var t, lc, out0, out := OutputParts(p, words);
    DataAt(p.globals, FinalLayout(p), t, lc, out0, k, b);
    DataKeeps(p.globals, FinalLayout(p), t, lc, out0, a);
  }

  /** What a loaded program finds at an address that its code uses for global k: the emitted word, or 0 where the
      data was moved away. */
  lemma FoundWord(p: Program, words: seq<Word>, m: Mem, k: nat, a: nat)
    requires AssemblesTo(p, words) && Holds(m, words) && Size(MainCode(p).value) + 2 <= CODE_TOP
    requires Distinct(p.globals) && k < |p.globals| && Occupies(StartLayout(p), p.globals[k], a) && a < MEM_SIZE
    ensures m[a] == if Moved(p, k) then 0
            else Wrap(EmittedWords(p.globals[k])[a - AddressOf(StartLayout(p), p.globals[k])])
  {
    hide GenSeq, AfterSeq, Pass2, DataLines, EmittedWords, AddressOf, MainCode, StartLayout, FinalLayout, AssemblesTo,
      Moved;
    var gs, l := p.globals, FinalLayout(p);
    forall j: nat | j < |gs|
      ensures Occupies(l, gs[j], a) <==> j == k && !Moved(p, k)
    {
      OwnAddress(p, k, j, a);
    }
    FinalAddress(p, k);
    if Moved(p, k) {
      var t, lc, out0, out := OutputParts(p, words);
      OwnAddress(p, k, k, a);
      DataKeeps(gs, l, t, lc, out0, a);
      DataAt(gs, l, t, lc, out0, k, AddressOf(l, gs[k]));
    } else {
      LoadedWord(p, words, m, k, a);
    }
  }

  /** When main starts, every word of a global holds what was emitted for it, at the address the code uses, exactly
      when main declares no array under the name of this array, or when only zeros were emitted. */
  lemma GlobalStartsIff(p: Program, words: seq<Word>, m: Mem, k: nat)
    requires AssemblesTo(p, words) && Holds(m, words) && Size(MainCode(p).value) + 2 <= CODE_TOP
    requires Distinct(p.globals) && k < |p.globals|
    requires AddressOf(StartLayout(p), p.globals[k]) + |EmittedWords(p.globals[k])| <= MEM_SIZE
    ensures var a, ws := AddressOf(StartLayout(p), p.globals[k]), EmittedWords(p.globals[k]);
            && a >= GLOBAL_BASE_ADDR
            && ((forall i :: 0 <= i < |ws| ==> m[a + i] == Wrap(ws[i]))
                <==> !Moved(p, k) || forall i :: 0 <= i < |ws| ==> Wrap(ws[i]) == 0)
  {
    hide EmittedWords, AddressOf, MainCode, StartLayout, FinalLayout, AssemblesTo, Moved, Holds, Consecutive;
    ProgramData(p);
    ConsecutiveWithin(p.globals, StartLayout(p), GLOBAL_BASE_ADDR, k);
    var a, ws := AddressOf(StartLayout(p), p.globals[k]), EmittedWords(p.globals[k]);
    forall i | 0 <= i < |ws|
      ensures m[a + i] == if Moved(p, k) then 0 else Wrap(ws[i])
    {
      FoundWord(p, words, m, k, a + i);
    }
  }

  // ---- What the initialiser says

  /** The initialiser of word i of a global, if it has one. */
  function Initialiser(g: Global, i: nat): Option<Expr> {
    match g
    case Scalar(_, init) => init
    case Array(_, _, inits) => if i < |inits| then Some(inits[i]) else None
  }

  /** v is the value of the initialiser of word i, which is 0 if there is none. */
  predicate Initialises(l: Layout, g: Global, i: nat, st: Store, v: Word) {
    var e := Initialiser(g, i);
    if e.Some? then Eval(l, e.value, st) == Some(v) else v == 0
  }

  predicate HasLiteral(g: Global, i: nat) { Initialiser(g, i).Some? ==> Initialiser(g, i).value.IntLiteral? }

  lemma EmittedIff(l: Layout, g: Global, i: nat, st: Store, v: Word)
    requires i < |EmittedWords(g)| && Initialises(l, g, i, st, v)
    ensures Wrap(EmittedWords(g)[i]) == v <==> HasLiteral(g, i) || v == 0
  {
    hide Loadable;
  }

  /** A word of a global that stays in place starts with the value of its initialiser exactly when that is an
      integer literal (or missing), or the value is 0. */
  lemma InitialiserIff(p: Program, words: seq<Word>, m: Mem, k: nat, i: nat, v: Word)
    requires AssemblesTo(p, words) && Holds(m, words) && Size(MainCode(p).value) + 2 <= CODE_TOP
    requires Distinct(p.globals) && k < |p.globals| && !Moved(p, k)
    requires i < |EmittedWords(p.globals[k])| && 0 <= AddressOf(StartLayout(p), p.globals[k]) + i < MEM_SIZE
    requires Initialises(StartLayout(p), p.globals[k], i, Store(map[], m), v)
    ensures m[AddressOf(StartLayout(p), p.globals[k]) + i] == v <==> HasLiteral(p.globals[k], i) || v == 0
  {
    hide AssemblesTo, Holds, MainCode, Distinct, Moved, EmittedWords, AddressOf, StartLayout, Initialises, HasLiteral;
    EmittedIff(StartLayout(p), p.globals[k], i, Store(map[], m), v);
    FoundWord(p, words, m, k, AddressOf(StartLayout(p), p.globals[k]) + i);
  }

  /** `int g = -5;` parses to a negation and is emitted as 0. */
  lemma NegativeInitialiserFails(l: Layout, st: Store)
    ensures var g := Scalar("g", Some(Unary(Negate, IntLiteral(5))));
            EmittedWords(g) == [0] && Eval(l, Initialiser(g, 0).value, st) == Some(0xFFFF_FFFB)
  {
    assert Eval(l, IntLiteral(5), st) == Some(5);
  }

  /** `int a[1] = {7};` and a local `int a[1];` in main: the 7 is emitted one word behind the address at which main
      reads the global before its own declaration. */
  lemma MovedArrayFails(words: seq<Word>, m: Mem)
    requires AssemblesTo(Program([Array("a", 1, [IntLiteral(7)])], [ArrayDecl("a", 1, [])]), words) && Holds(m, words)
    ensures var p := Program([Array("a", 1, [IntLiteral(7)])], [ArrayDecl("a", 1, [])]);
            AddressOf(StartLayout(p), p.globals[0]) == 0x4000 && AddressOf(FinalLayout(p), p.globals[0]) == 0x4001
            && m[0x4000] == 0 && m[0x4001] == 7
  {
    var p := Program([Array("a", 1, [IntLiteral(7)])], [ArrayDecl("a", 1, [])]);
    hide Occupies, Moved, Distinct, AddressOf, StartLayout, FinalLayout, MainCode, Holds, EmittedWords, DataLines,
      GenSeq, AllArrayNames;
    MovedLayouts(p);
    MovedPlaces(p);
    MovedCode(p);
    hide AssemblesTo;
    FoundWord(p, words, m, 0, 0x4000);
    LoadedWord(p, words, m, 0, 0x4001);
  }

  lemma MovedPlaces(p: Program)
    requires p.globals == [Array("a", 1, [IntLiteral(7)])]
    requires AddressOf(StartLayout(p), p.globals[0]) == 0x4000 && AddressOf(FinalLayout(p), p.globals[0]) == 0x4001
    ensures Occupies(StartLayout(p), p.globals[0], 0x4000) && Occupies(FinalLayout(p), p.globals[0], 0x4001)
    ensures Distinct(p.globals) && EmittedWords(p.globals[0])[0] == 7 && Wrap(7) == 7
  {
    hide StartLayout, FinalLayout;
  }

  lemma MovedLayouts(p: Program)
    requires p == Program([Array("a", 1, [IntLiteral(7)])], [ArrayDecl("a", 1, [])])
    ensures AddressOf(StartLayout(p), p.globals[0]) == 0x4000 && AddressOf(FinalLayout(p), p.globals[0]) == 0x4001
    ensures Moved(p, 0)
  {
    var l0, l1 := Layout(map[], map[], GLOBAL_BASE_ADDR), Layout(map[], map["a" := (0x4000, 1)], 0x4001);
    assert p.globals[1..] == [] && p.body[1..] == [];
    assert GlobalLayout([], l1) == l1;
    assert StartLayout(p) == l1;
    var l2 := Declare(l1, "a", 1);
    assert AfterSeq(l2, []) == l2;
    assert AfterSeq(l1, p.body) == AfterSeq(After(l1, p.body[0]), p.body[1..]);
    assert AllArrayNames([]) == {};
  }

  lemma MovedCode(p: Program)
    requires p == Program([Array("a", 1, [IntLiteral(7)])], [ArrayDecl("a", 1, [])]) && MainCode(p).Some?
    ensures Size(MainCode(p).value) + 2 <= CODE_TOP
  {
    hide GlobalLayout;
    var cx := StartContext(p);
    assert p.body[1..] == [];
    var cx1 := GenStmt(cx, p.body[0]).value.cx;
    assert GenStmt(cx, p.body[0]).value.code == [];
    assert GenSeq(cx1, []) == Some(Out([], cx1));
    assert GenSeq(cx, p.body).value.code == [] + [];
    assert MainCode(p).value == [JumpTo(MAIN), Mark(MAIN), Ending(cx)];
    var l0, l1, l2 := JumpTo(MAIN), Mark(MAIN), Ending(cx);
    assert [l0, l1, l2][1..] == [l1, l2] && [l1, l2][1..] == [l2] && [l2][1..] == [];
    assert Size([]) == 0 && Size([l2]) <= 1 && Size([l1, l2]) <= 2;
  }
}
