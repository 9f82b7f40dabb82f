/** What linking means: where module words go, and what relocation does to them. */
module Linking {
  import opened Words
  import opened Wrappers
  import opened Isa

  datatype RelocKind = Abs26 | Pc16 | Imm16

  datatype Reloc = Reloc(addr: nat, sym: string, kind: RelocKind)

  /** An object file: words with their offsets, exported symbols and relocations. */
  datatype Module = Module(text: seq<(nat, Word)>, data: seq<(nat, Word)>, symbols: seq<(string, nat)>,
      relocs: seq<Reloc>)

  datatype Linked = Linked(text: seq<(nat, Word)>, data: seq<(nat, Word)>, symbols: map<string, nat>,
      relocs: seq<Reloc>)

  const EMPTY := Linked([], [], map[], [])

  datatype Bases = Bases(text: nat, data: nat)

  // ---- Collecting modules

  function Shift(ws: seq<(nat, Word)>, offset: nat): seq<(nat, Word)> {
    seq(|ws|, i requires 0 <= i < |ws| => (ws[i].0 + offset, ws[i].1))
  }

  function SymbolAddress(b: Bases, st: Linked, m: Module, addr: nat): nat {
    if addr < |m.text| then b.text + |st.text| + addr else b.data + |st.data| + (addr - |m.text|)
  }

  /** The symbols of a module from index i on; None for a name that is already there. */
  function AddSymbols(b: Bases, st: Linked, m: Module, i: nat, t: map<string, nat>): Option<map<string, nat>>
    requires i <= |m.symbols|
    decreases |m.symbols| - i
  {
    if i == |m.symbols| then Some(t)
    else if m.symbols[i].0 in t then None
    else AddSymbols(b, st, m, i + 1, t[m.symbols[i].0 := SymbolAddress(b, st, m, m.symbols[i].1)])
  }

  function ShiftRelocs(rs: seq<Reloc>, offset: nat): seq<Reloc> {
    seq(|rs|, i requires 0 <= i < |rs| => rs[i].(addr := rs[i].addr + offset))
  }

  function AddObject(b: Bases, st: Linked, m: Module): Option<Linked> {
    var t :- AddSymbols(b, st, m, 0, st.symbols);
    Some(Linked(st.text + Shift(m.text, |st.text|), st.data + Shift(m.data, |st.data|), t,
                st.relocs + ShiftRelocs(m.relocs, |st.text|)))
  }

  function AddAll(b: Bases, st: Linked, ms: seq<Module>): Option<Linked>
    decreases ms
  {
    if ms == [] then Some(st)
    else
      var next :- AddObject(b, st, ms[0]);
      AddAll(b, next, ms[1..])
  }

  // ---- Relocation

  type Image = map<int, Word>

  function PutAll(mem: Image, base: nat, ws: seq<(nat, Word)>): Image
    decreases ws
  {
    if ws == [] then mem else PutAll(mem[base + ws[0].0 := ws[0].1], base, ws[1..])
  }

  /** The word with its relocated field filled in; None when the value is out of the field's range. */
  function Patch(kind: RelocKind, w: Word, value: nat, at: int): Option<Word> {
    match kind
    case Abs26 => if value > 0x3FF_FFFF then None else Some(w / 0x400_0000 * 0x400_0000 + value % 0x400_0000)
    case Pc16 =>
      if value - at < -32768 || value - at > 32767 then None
          else Some(w / 0x1_0000 * 0x1_0000 + (value - at) % 0x1_0000)
    case Imm16 => if value > 0xFFFF then None else Some(w / 0x1_0000 * 0x1_0000 + value % 0x1_0000)
  }

  function Relocate(b: Bases, t: map<string, nat>, r: Reloc, mem: Image): Option<Image> {
    if r.sym !in t then None
    else
      var at := b.text + r.addr;
      var w :- Patch(r.kind, if at in mem then mem[at] else 0, t[r.sym], at);
      Some(mem[at := w])
  }

  function RelocateAll(b: Bases, t: map<string, nat>, rs: seq<Reloc>, mem: Image): Option<Image>
    decreases rs
  {
    if rs == [] then Some(mem)
    else
      var next :- Relocate(b, t, rs[0], mem);
      RelocateAll(b, t, rs[1..], next)
  }

  function Resolve(b: Bases, st: Linked): Option<Image> {
    RelocateAll(b, st.symbols, st.relocs, PutAll(PutAll(map[], b.text, st.text), b.data, st.data))
  }

  // ---- Where words go

  /** Offsets count up from 0. */
  predicate Dense(ws: seq<(nat, Word)>) { forall i :: 0 <= i < |ws| ==> ws[i].0 == i }

  predicate DenseModule(m: Module) { Dense(m.text) && Dense(m.data) }

  lemma DenseShift(x: seq<(nat, Word)>, y: seq<(nat, Word)>)
    requires Dense(x) && Dense(y)
    ensures Dense(x + Shift(y, |x|))
  {
  }

  function TextSize(ms: seq<Module>): nat { if ms == [] then 0 else |ms[0].text| + TextSize(ms[1..]) }

  function DataSize(ms: seq<Module>): nat { if ms == [] then 0 else |ms[0].data| + DataSize(ms[1..]) }

  /** Collecting dense modules gives dense sections; module j's words are those behind the modules before it. */
  lemma {:induction false} CollectedWords(b: Bases, st: Linked, ms: seq<Module>)
    requires AddAll(b, st, ms).Some? && Dense(st.text) && Dense(st.data) && forall j :: 0 <= j < |ms| ==>
             DenseModule(ms[j])
    ensures var r := AddAll(b, st, ms).value;
            && Dense(r.text) && Dense(r.data)
            && |r.text| == |st.text| + TextSize(ms) && |r.data| == |st.data| + DataSize(ms)
            && st.text <= r.text && st.data <= r.data
    decreases ms
  {
    if ms != [] {
      var next := AddObject(b, st, ms[0]).value;
      assert DenseModule(ms[0]);
      DenseShift(st.text, ms[0].text);
      DenseShift(st.data, ms[0].data);
      assert forall j :: 0 <= j < |ms[1..]| ==> ms[1..][j] == ms[j + 1];
      CollectedWords(b, next, ms[1..]);
    }
  }

  lemma {:induction false} AddAllConcat(b: Bases, st: Linked, xs: seq<Module>, ys: seq<Module>)
    ensures var r := AddAll(b, st, xs);
            AddAll(b, st, xs + ys) == if r.None? then None else AddAll(b, r.value, ys)
    decreases xs
  {
    if xs == [] {
      assert xs + ys == ys;
    } else {
      assert (xs + ys)[1..] == xs[1..] + ys;
      var next := AddObject(b, st, xs[0]);
      if next.Some? { AddAllConcat(b, next.value, xs[1..], ys); }
    }
  }

  /** One module's words, found in the sections collected from it and the modules behind it. */
  lemma NextWords(b: Bases, st: Linked, m: Module, behind: seq<Module>)
    requires Dense(st.text) && Dense(st.data) && DenseModule(m) && forall j :: 0 <= j < |behind| ==>
             DenseModule(behind[j])
    requires AddObject(b, st, m).Some? && AddAll(b, AddObject(b, st, m).value, behind).Some?
    ensures var r := AddAll(b, AddObject(b, st, m).value, behind).value;
            && |st.text| + |m.text| <= |r.text| && |st.data| + |m.data| <= |r.data|
            && (forall i :: 0 <= i < |m.text| ==> r.text[|st.text| + i].1 == m.text[i].1)
            && (forall i :: 0 <= i < |m.data| ==> r.data[|st.data| + i].1 == m.data[i].1)
  {
    hide AddSymbols, ShiftRelocs, AddAll;
    var next := AddObject(b, st, m).value;
    DenseShift(st.text, m.text);
    DenseShift(st.data, m.data);
    CollectedWords(b, next, behind);
    var r := AddAll(b, next, behind).value;
    SameWords(st.text, m.text, r.text);
    SameWords(st.data, m.data, r.data);
  }

  /** Word i of module j's sections, found in the collected ones. */
  lemma ModuleWords(b: Bases, before: seq<Module>, m: Module, behind: seq<Module>)
    requires var ms := before + ([m] + behind);
             AddAll(b, EMPTY, ms).Some? && forall j :: 0 <= j < |ms| ==> DenseModule(ms[j])
    ensures var r := AddAll(b, EMPTY, before + ([m] + behind)).value;
            && Dense(r.text) && Dense(r.data) && |r.text| == TextSize(before + ([m] + behind))
            && TextSize(before) + |m.text| <= |r.text| && DataSize(before) + |m.data| <= |r.data|
            && (forall i :: 0 <= i < |m.text| ==> r.text[TextSize(before) + i].1 == m.text[i].1)
            && (forall i :: 0 <= i < |m.data| ==> r.data[DataSize(before) + i].1 == m.data[i].1)
  {
    assert Dense(EMPTY.text) && Dense(EMPTY.data);
    hide AddObject, Dense;
    var ms := before + ([m] + behind);
    CollectedWords(b, EMPTY, ms);
    AddAllConcat(b, EMPTY, before, [m] + behind);
    assert forall j :: 0 <= j < |before| ==> before[j] == ms[j];
    CollectedWords(b, EMPTY, before);
    var st := AddAll(b, EMPTY, before).value;
    assert ([m] + behind)[0] == m && ([m] + behind)[1..] == behind;
    assert forall j :: 0 <= j < |behind| ==> behind[j] == ms[|before| + 1 + j];
    assert ms[|before|] == m;
    NextWords(b, st, m, behind);
  }

  lemma SameWords(x: seq<(nat, Word)>, y: seq<(nat, Word)>, all: seq<(nat, Word)>)
    requires x + Shift(y, |x|) <= all
    ensures |x| + |y| <= |all| && forall i :: 0 <= i < |y| ==> all[|x| + i].1 == y[i].1
  {
    var z := x + Shift(y, |x|);
    forall i | 0 <= i < |y| ensures all[|x| + i].1 == y[i].1 { assert z[|x| + i] == all[|x| + i]; }
  }

  /** A dense section lies at its base, word behind word, and touches nothing else. */
  lemma {:induction false} PutDense(mem: Image, base: nat, ws: seq<(nat, Word)>, from: nat, k: int)
    requires forall i :: 0 <= i < |ws| ==> ws[i].0 == from + i
    ensures var r := PutAll(mem, base, ws);
            if base + from <= k < base + from + |ws| then k in r && r[k] == ws[k - base - from].1
            else (k in r <==> k in mem) && (k in r ==> r[k] == mem[k])
    decreases ws
  {
    if ws != [] { PutDense(mem[base + ws[0].0 := ws[0].1], base, ws[1..], from + 1, k); }
  }

  /** Before relocation every text and data word is in memory at its own address, text below data. */
  lemma Placement(b: Bases, st: Linked, k: int)
    requires Dense(st.text) && Dense(st.data) && b.text + |st.text| <= b.data
    ensures var mem := PutAll(PutAll(map[], b.text, st.text), b.data, st.data);
            if b.text <= k < b.text + |st.text| then k in mem && mem[k] == st.text[k - b.text].1
            else if b.data <= k < b.data + |st.data| then k in mem && mem[k] == st.data[k - b.data].1
            else k !in mem
  {
    PutDense(map[], b.text, st.text, 0, k);
    PutDense(PutAll(map[], b.text, st.text), b.data, st.data, 0, k);
  }

  // ---- What relocation changes

  /** The bits outside the field. */
  function Outside(kind: RelocKind, w: Word): int { if kind.Abs26? then w / 0x400_0000 else w / 0x1_0000 }

  /** The address that the field of w names, for a word at address `at`. */
  function Target(kind: RelocKind, w: Word, at: int): int {
    match kind
    case Abs26 => Low26(w)
    case Pc16 => at + Sext16(w)
    case Imm16 => w % 0x1_0000
  }

  /** A patched word names its symbol's address and keeps all other bits. */
  lemma PatchMeans(kind: RelocKind, w: Word, value: nat, at: int)
    requires Patch(kind, w, value, at).Some?
    ensures var p := Patch(kind, w, value, at).value;
              Target(kind, p, at) == value && Outside(kind, p) == Outside(kind, w)
  {
    hide Sext16, Low26;
    match kind
    case Abs26 => PatchedWide(w, value);
    case Imm16 =>
      assert value % 0x1_0000 == value;
      PatchedHalf(w, value);
    case Pc16 =>
      SextOfOffset(value - at);
      PatchedHalf(w, (value - at) % 0x1_0000);
  }

  lemma SextOfOffset(d: int)
    requires -32768 <= d <= 32767
    ensures Sext16(d % 0x1_0000) == d
  {
  }

  lemma PatchedWide(w: Word, value: nat)
    requires value <= 0x3FF_FFFF
    ensures var p: Word := w / 0x400_0000 * 0x400_0000 + value % 0x400_0000;
              Low26(p) == value && p / 0x400_0000 == w / 0x400_0000
  {
  }

  lemma PatchedHalf(w: Word, low: nat)
    requires low < 0x1_0000
    ensures var p: Word := w / 0x1_0000 * 0x1_0000 + low;
            p % 0x1_0000 == low && p / 0x1_0000 == w / 0x1_0000 && Sext16(p) == Sext16(low)
  {
  }

  lemma {:induction false} Untouched(b: Bases, t: map<string, nat>, rs: seq<Reloc>, mem: Image, k: int)
    requires RelocateAll(b, t, rs, mem).Some? && forall i :: 0 <= i < |rs| ==> b.text + rs[i].addr != k
    ensures var r := RelocateAll(b, t, rs, mem).value; (k in r <==> k in mem) && (k in r ==> r[k] == mem[k])
    decreases rs
  {
    hide Patch;
    if rs != [] {
      assert b.text + rs[0].addr != k;
      assert forall i :: 0 <= i < |rs[1..]| ==> rs[1..][i] == rs[i + 1];
      Untouched(b, t, rs[1..], Relocate(b, t, rs[0], mem).value, k);
    }
  }

  lemma {:induction false} RelocateConcat(b: Bases, t: map<string, nat>, xs: seq<Reloc>, ys: seq<Reloc>, mem: Image)
    ensures var r := RelocateAll(b, t, xs, mem);
            RelocateAll(b, t, xs + ys, mem) == if r.None? then None else RelocateAll(b, t, ys, r.value)
    decreases xs
  {
    hide Relocate;
    if xs == [] {
      assert xs + ys == ys;
    } else {
      assert (xs + ys)[1..] == xs[1..] + ys;
      var next := Relocate(b, t, xs[0], mem);
      if next.Some? { RelocateConcat(b, t, xs[1..], ys, next.value); }
    }
  }

  /** Relocations go to different words. */
  predicate Separate(rs: seq<Reloc>) { forall i, j :: 0 <= i < j < |rs| ==> rs[i].addr != rs[j].addr }

  /** Carrying out relocation i, between those before and those behind it. */
  lemma RelocateAt(b: Bases, t: map<string, nat>, rs: seq<Reloc>, mem: Image, i: nat)
    requires RelocateAll(b, t, rs, mem).Some? && i < |rs|
    ensures RelocateAll(b, t, rs[..i], mem).Some?
    ensures Relocate(b, t, rs[i], RelocateAll(b, t, rs[..i], mem).value).Some?
    ensures RelocateAll(b, t, rs, mem)
         == RelocateAll(b, t, rs[i + 1..], Relocate(b, t, rs[i], RelocateAll(b, t, rs[..i], mem).value).value)
  {
    hide Relocate;
    assert rs == rs[..i] + ([rs[i]] + rs[i + 1..]);
    RelocateConcat(b, t, rs[..i], [rs[i]] + rs[i + 1..], mem);
    assert ([rs[i]] + rs[i + 1..])[1..] == rs[i + 1..];
  }

  /** In the linked image each relocated word names the linked address of its symbol and is otherwise the word
      that was there before. */
  lemma RelocatedWord(b: Bases, t: map<string, nat>, rs: seq<Reloc>, mem: Image, i: nat)
    requires RelocateAll(b, t, rs, mem).Some? && Separate(rs) && i < |rs|
    ensures var r, at := RelocateAll(b, t, rs, mem).value, b.text + rs[i].addr;
            && rs[i].sym in t && at in r
            && Target(rs[i].kind, r[at], at) == t[rs[i].sym]
            && Outside(rs[i].kind, r[at]) == Outside(rs[i].kind, if at in mem then mem[at] else 0)
  {
    hide Patch, RelocateAll, Target, Outside;
    var at := b.text + rs[i].addr;
    RelocateAt(b, t, rs, mem, i);
    var m1 := RelocateAll(b, t, rs[..i], mem).value;
    var m2 := Relocate(b, t, rs[i], m1).value;
    forall j | 0 <= j < i ensures b.text + rs[..i][j].addr != at { assert rs[..i][j] == rs[j]; }
    Untouched(b, t, rs[..i], mem, at);
    var rest := rs[i + 1..];
    forall j | 0 <= j < |rest| ensures b.text + rest[j].addr != at { assert rest[j] == rs[i + 1 + j]; }
    Untouched(b, t, rest, m2, at);
    PatchMeans(rs[i].kind, if at in m1 then m1[at] else 0, t[rs[i].sym], at);
  }

  /** Linking dense modules whose text ends below the data: word i of any module is at its own address, as the
      module has it unless a relocation names that address. */
  lemma LinkedWords(b: Bases, before: seq<Module>, m: Module, behind: seq<Module>, st: Linked, mem: Image, i: nat)
    requires var ms := before + ([m] + behind);
             && AddAll(b, EMPTY, ms) == Some(st) && Resolve(b, st) == Some(mem)
             && (forall j :: 0 <= j < |ms| ==> DenseModule(ms[j])) && b.text + TextSize(ms) <= b.data
    ensures i < |m.text| ==>
              var at := b.text + TextSize(before) + i;
              at < b.data && at in mem && ((forall k :: 0 <= k < |st.relocs| ==> b.text + st.relocs[k].addr != at) ==>
                  mem[at] == m.text[i].1)
    ensures i < |m.data| ==>
              var at := b.data + DataSize(before) + i;
              at in mem && ((forall k :: 0 <= k < |st.relocs| ==> b.text + st.relocs[k].addr != at) ==>
                  mem[at] == m.data[i].1)
  {
    hide Patch, PutAll, AddAll, AddObject;
    ModuleWords(b, before, m, behind);
    var image := PutAll(PutAll(map[], b.text, st.text), b.data, st.data);
    if i < |m.text| {
      var at := b.text + TextSize(before) + i;
      Placement(b, st, at);
      StaysIn(b, st.symbols, st.relocs, image, at);
      if forall k :: 0 <= k < |st.relocs| ==> b.text + st.relocs[k].addr != at {
        Untouched(b, st.symbols, st.relocs, image, at);
      }
    }
    if i < |m.data| {
      var at := b.data + DataSize(before) + i;
      Placement(b, st, at);
      StaysIn(b, st.symbols, st.relocs, image, at);
      if forall k :: 0 <= k < |st.relocs| ==> b.text + st.relocs[k].addr != at {
        Untouched(b, st.symbols, st.relocs, image, at);
      }
    }
  }

  // ---- When linking succeeds

  /** The value fits the field: 26 bits, a signed distance of 16 bits, or 16 bits. */
  predicate Reachable(kind: RelocKind, value: nat, at: int) {
    match kind
    case Abs26 => value < 0x400_0000
    case Pc16 => at - 0x8000 <= value < at + 0x8000
    case Imm16 => value < 0x1_0000
  }

  /** Relocation succeeds exactly when every symbol is defined and every value fits its field. */
  lemma {:induction false} RelocatesIff(b: Bases, t: map<string, nat>, rs: seq<Reloc>, mem: Image)
    ensures RelocateAll(b, t, rs, mem).Some? <==>
              forall i :: 0 <= i < |rs| ==> rs[i].sym in t && Reachable(rs[i].kind, t[rs[i].sym], b.text + rs[i].addr)
    decreases rs
  {
    if rs != [] {
      var rest := rs[1..];
      assert forall i :: 0 <= i < |rest| ==> rest[i] == rs[i + 1];
      OneRelocatesIff(b, t, rs[0], mem);
      hide Relocate, Reachable;
      if Relocate(b, t, rs[0], mem).Some? {
        RelocatesIff(b, t, rest, Relocate(b, t, rs[0], mem).value);
        forall i | 0 < i < |rs| ensures rs[i] == rest[i - 1] {}
      }
    }
  }

  lemma OneRelocatesIff(b: Bases, t: map<string, nat>, r: Reloc, mem: Image)
    ensures Relocate(b, t, r, mem).Some? <==> r.sym in t && Reachable(r.kind, t[r.sym], b.text + r.addr)
  {
  }

  lemma ResolvesIff(b: Bases, st: Linked)
    ensures Resolve(b, st).Some? <==>
              forall i :: 0 <= i < |st.relocs| ==>
                var r := st.relocs[i]; r.sym in st.symbols && Reachable(r.kind, st.symbols[r.sym], b.text + r.addr)
  {
    hide RelocateAll, PutAll, Reachable;
    RelocatesIff(b, st.symbols, st.relocs, PutAll(PutAll(map[], b.text, st.text), b.data, st.data));
  }

  /** The names that modules export, in order. */
  function Exports(ms: seq<Module>): seq<string>
    decreases ms
  {
    if ms == [] then [] else Names(ms[0].symbols) + Exports(ms[1..])
  }

  function Names(symbols: seq<(string, nat)>): seq<string> {
    seq(|symbols|, i requires 0 <= i < |symbols| => symbols[i].0)
  }

  /** No name twice, and none that is known already. */
  predicate AllNew(names: seq<string>, known: set<string>) {
    (forall i :: 0 <= i < |names| ==> names[i] !in known) && forall i, j :: 0 <= i < j < |names| ==>
        names[i] != names[j]
  }

  lemma AllNewFirst(n: string, names: seq<string>, known: set<string>)
    ensures AllNew([n] + names, known) <==> n !in known && AllNew(names, known + {n})
  {
    var all := [n] + names;
    if AllNew(all, known) {
      forall i | 0 <= i < |names| ensures names[i] !in known + {n} { assert all[i + 1] == names[i] && all[0] == n; }
      forall i, j | 0 <= i < j < |names| ensures names[i] != names[j] { assert all[i + 1] != all[j + 1]; }
    }
    if n !in known && AllNew(names, known + {n}) {
      forall i, j | 0 <= i < j < |all| ensures all[i] != all[j] { if i > 0 { assert names[i - 1] != names[j - 1]; } }
    }
  }

  lemma {:induction false} AllNewConcat(x: seq<string>, y: seq<string>, known: set<string>)
    ensures AllNew(x + y, known) <==> AllNew(x, known) && AllNew(y, known + set n | n in x)
    decreases x
  {
    if x == [] {
      assert x + y == y && known + (set n | n in x) == known;
    } else {
      var r := x[1..];
      assert x == [x[0]] + r && x + y == [x[0]] + (r + y);
      AllNewFirst(x[0], r + y, known);
      AllNewFirst(x[0], r, known);
      AllNewConcat(r, y, known + {x[0]});
      assert known + {x[0]} + (set n | n in r) == known + set n | n in x;
    }
  }

  lemma {:induction false} SymbolsAddedIff(b: Bases, st: Linked, m: Module, i: nat, t: map<string, nat>)
    requires i <= |m.symbols|
    ensures var r := AddSymbols(b, st, m, i, t);
            && (r.Some? <==> AllNew(Names(m.symbols)[i..], t.Keys))
            && (r.Some? ==> r.value.Keys == t.Keys + set n | n in Names(m.symbols)[i..])
    decreases |m.symbols| - i
  {
    var names := Names(m.symbols);
    if i < |m.symbols| {
      var n := m.symbols[i].0;
      assert names[i..] == [n] + names[i + 1..];
      AllNewFirst(n, names[i + 1..], t.Keys);
      if n !in t {
        var t1 := t[n := SymbolAddress(b, st, m, m.symbols[i].1)];
        assert t1.Keys == t.Keys + {n};
        SymbolsAddedIff(b, st, m, i + 1, t1);
      }
    }
  }

  /** Modules can be linked together exactly when no name is exported twice. */
  lemma {:induction false} AddsIff(b: Bases, st: Linked, ms: seq<Module>)
    ensures AddAll(b, st, ms).Some? <==> AllNew(Exports(ms), st.symbols.Keys)
    decreases ms
  {
    hide AddSymbols, AllNew;
    if ms == [] {
      NothingNew(st.symbols.Keys);
    } else {
      SymbolsAddedIff(b, st, ms[0], 0, st.symbols);
      var names := Names(ms[0].symbols);
      assert names[0..] == names;
      AllNewConcat(names, Exports(ms[1..]), st.symbols.Keys);
      if AddObject(b, st, ms[0]).Some? { AddsIff(b, AddObject(b, st, ms[0]).value, ms[1..]); }
    }
  }

  lemma NothingNew(known: set<string>)
    ensures AllNew([], known)
  {
  }

  // ---- Symbols and relocations of one module, in the linked whole

  /** The linked address of an address of module m: in its text, or behind it in its data. */
  function LinkedAddress(b: Bases, before: seq<Module>, m: Module, addr: nat): nat {
    if addr < |m.text| then b.text + TextSize(before) + addr else b.data + DataSize(before) + (addr - |m.text|)
  }

  lemma {:induction false} SymbolsAdded(b: Bases, st: Linked, m: Module, i: nat, t: map<string, nat>)
    requires i <= |m.symbols| && AddSymbols(b, st, m, i, t).Some?
    ensures var r := AddSymbols(b, st, m, i, t).value;
            && (forall n :: n in t ==> n in r && r[n] == t[n])
            && forall j :: i <= j < |m.symbols| ==>
                 m.symbols[j].0 in r && r[m.symbols[j].0] == SymbolAddress(b, st, m, m.symbols[j].1)
    decreases |m.symbols| - i
  {
    hide SymbolAddress;
    if i < |m.symbols| {
      SymbolsAdded(b, st, m, i + 1, t[m.symbols[i].0 := SymbolAddress(b, st, m, m.symbols[i].1)]);
    }
  }

  /** Later modules leave symbols and relocations alone. */
  lemma {:induction false} LaterModules(b: Bases, st: Linked, ms: seq<Module>)
    requires AddAll(b, st, ms).Some?
    ensures var r := AddAll(b, st, ms).value;
            (forall n :: n in st.symbols ==> n in r.symbols && r.symbols[n] == st.symbols[n]) && st.relocs <= r.relocs
    decreases ms
  {
    if ms != [] {
      SymbolsAdded(b, st, ms[0], 0, st.symbols);
      LaterModules(b, AddObject(b, st, ms[0]).value, ms[1..]);
    }
  }

  /** The module in the middle: what is collected before it and with it. */
  lemma MiddleModule(b: Bases, before: seq<Module>, m: Module, behind: seq<Module>) returns (st0: Linked, st1: Linked)
    requires var ms := before + ([m] + behind);
             AddAll(b, EMPTY, ms).Some? && forall j :: 0 <= j < |ms| ==> DenseModule(ms[j])
    ensures |st0.text| == TextSize(before) && |st0.data| == DataSize(before) && AddObject(b, st0, m) == Some(st1)
    ensures AddAll(b, st1, behind) == AddAll(b, EMPTY, before + ([m] + behind))
  {
    hide AddObject, DenseModule;
    var ms := before + ([m] + behind);
    AddAllConcat(b, EMPTY, before, [m] + behind);
    assert forall j :: 0 <= j < |before| ==> before[j] == ms[j];
    CollectedWords(b, EMPTY, before);
    st0 := AddAll(b, EMPTY, before).value;
    assert ([m] + behind)[0] == m && ([m] + behind)[1..] == behind;
    st1 := AddObject(b, st0, m).value;
  }

  /** A label's value in the symbol table is the linked address of the word it labels in its module. */
  lemma SymbolLinked(b: Bases, before: seq<Module>, m: Module, behind: seq<Module>, st: Linked, j: nat)
    requires var ms := before + ([m] + behind);
             AddAll(b, EMPTY, ms) == Some(st) && forall j :: 0 <= j < |ms| ==> DenseModule(ms[j])
    requires j < |m.symbols|
    ensures m.symbols[j].0 in st.symbols && st.symbols[m.symbols[j].0] == LinkedAddress(b, before, m, m.symbols[j].1)
  {
    hide AddAll, DenseModule, TextSize, DataSize;
    var st0, st1 := MiddleModule(b, before, m, behind);
    SymbolsAdded(b, st0, m, 0, st0.symbols);
    LaterModules(b, st1, behind);
  }

  /** A relocated word of module m names the linked address of its symbol and keeps all bits outside the field. */
  lemma RelocationLinked(b: Bases, before: seq<Module>, m: Module, behind: seq<Module>, st: Linked, mem: Image, j: nat)
    requires var ms := before + ([m] + behind);
             && AddAll(b, EMPTY, ms) == Some(st) && Resolve(b, st) == Some(mem)
             && (forall j :: 0 <= j < |ms| ==> DenseModule(ms[j])) && b.text + TextSize(ms) <= b.data
    requires Separate(st.relocs) && j < |m.relocs| && m.relocs[j].addr < |m.text|
    ensures var r := m.relocs[j];
            var at := LinkedAddress(b, before, m, r.addr);
            && r.sym in st.symbols && at in mem
            && Target(r.kind, mem[at], at) == st.symbols[r.sym]
                && Outside(r.kind, mem[at]) == Outside(r.kind, m.text[r.addr].1)
  {
    hide AddAll, DenseModule, Dense, TextSize, DataSize, PutAll, RelocateAll, Target, Outside, AddSymbols;
    var st0, st1 := MiddleModule(b, before, m, behind);
    LaterModules(b, st1, behind);
    var r, k := m.relocs[j], |st0.relocs| + j;
    assert st1.relocs[k] == r.(addr := r.addr + |st0.text|) && st.relocs[k] == st1.relocs[k];
    var image := PutAll(PutAll(map[], b.text, st.text), b.data, st.data);
    RelocatedWord(b, st.symbols, st.relocs, image, k);
    ModuleWords(b, before, m, behind);
    Placement(b, st, b.text + TextSize(before) + r.addr);
  }

  lemma {:induction false} StaysIn(b: Bases, t: map<string, nat>, rs: seq<Reloc>, mem: Image, k: int)
    requires RelocateAll(b, t, rs, mem).Some? && k in mem
    ensures k in RelocateAll(b, t, rs, mem).value
    decreases rs
  {
    hide Patch;
    if rs != [] { StaysIn(b, t, rs[1..], Relocate(b, t, rs[0], mem).value, k); }
  }

  /** Words of different modules never share an address. */
  lemma {:induction false} SectionsApart(ms: seq<Module>, j: nat, k: nat)
    requires j < k < |ms|
    ensures TextSize(ms[..j]) + |ms[j].text| <= TextSize(ms[..k])
            && DataSize(ms[..j]) + |ms[j].data| <= DataSize(ms[..k])
    decreases k
  {
    assert ms[..k] == ms[..k - 1] + [ms[k - 1]];
    SizeConcat(ms[..k - 1], [ms[k - 1]]);
    assert TextSize([]) == 0 && DataSize([]) == 0;
    assert [ms[k - 1]][1..] == [];
    assert TextSize([ms[k - 1]]) == |ms[k - 1].text| && DataSize([ms[k - 1]]) == |ms[k - 1].data|;
    if j < k - 1 { SectionsApart(ms, j, k - 1); }
  }

  lemma {:induction false} SizeConcat(xs: seq<Module>, ys: seq<Module>)
    ensures TextSize(xs + ys) == TextSize(xs) + TextSize(ys) && DataSize(xs + ys) == DataSize(xs) + DataSize(ys)
    decreases xs
  {
    if xs == [] {
      assert xs + ys == ys;
    } else {
      assert (xs + ys)[1..] == xs[1..] + ys;
      SizeConcat(xs[1..], ys);
    }
  }

  // ---- Addresses of a linked image

  predicate NonNegative(mem: Image) { forall k :: k in mem ==> k >= 0 }

  lemma {:induction false} PutNonNegative(mem: Image, base: nat, ws: seq<(nat, Word)>)
    requires NonNegative(mem)
    ensures NonNegative(PutAll(mem, base, ws))
    decreases ws
  {
    if ws != [] { PutNonNegative(mem[base + ws[0].0 := ws[0].1], base, ws[1..]); }
  }

  lemma {:induction false} RelocateNonNegative(b: Bases, t: map<string, nat>, rs: seq<Reloc>, mem: Image)
    requires NonNegative(mem) && RelocateAll(b, t, rs, mem).Some?
    ensures NonNegative(RelocateAll(b, t, rs, mem).value)
    decreases rs
  {
    hide Patch;
    if rs != [] { RelocateNonNegative(b, t, rs[1..], Relocate(b, t, rs[0], mem).value); }
  }

  lemma ResolveNonNegative(b: Bases, st: Linked)
    requires Resolve(b, st).Some?
    ensures NonNegative(Resolve(b, st).value)
  {
    PutNonNegative(map[], b.text, st.text);
    PutNonNegative(PutAll(map[], b.text, st.text), b.data, st.data);
    RelocateNonNegative(b, st.symbols, st.relocs, PutAll(PutAll(map[], b.text, st.text), b.data, st.data));
  }
}
