/** The translation cache: 32 entries, fully associative, least recently used out first. */
module Tlb {
  import Bits
  import opened Words
  import opened Wrappers

  const ENTRIES := 32
  const PAGE_SIZE := 1024

  datatype Entry = Entry(vpn: nat, pfn: nat, flags: nat)

  datatype Cache = Cache(entries: seq<Option<Entry>>, lru: seq<nat>, clock: nat)

  predicate Shaped(t: Cache) { |t.entries| == ENTRIES && |t.lru| == ENTRIES }

  function NoEntries(): seq<Option<Entry>> { seq(ENTRIES, (i: int) => None) }

  function NoStamps(): seq<nat> { seq(ENTRIES, (i: int) => 0) }

  /** One translation: the address, the kind of access, and the memory and table base it finds. */
  datatype Access = Access(va: nat, write: bool, exec: bool, mem: seq<nat>, ptbr: nat)

  function Vpn(a: Access): nat { a.va / PAGE_SIZE }

  // ---- Page table entries

  /** The table word of a page; None past the end of memory. */
  function Pte(mem: seq<nat>, ptbr: nat, vpn: nat): Option<nat> {
    if ptbr + vpn < |mem| then Some(mem[ptbr + vpn]) else None
  }

  predicate IsValid(flags: nat) { flags % 2 == 1 }

  predicate Allowed(flags: nat, write: bool, exec: bool) {
    (write ==> flags / 4 % 2 == 1) && (exec ==> flags / 8 % 2 == 1)
  }

  function EntryOf(vpn: nat, pte: nat): Entry { Entry(vpn, pte / PAGE_SIZE, pte % 16) }

  /** The translation that the table alone gives. */
  function Walk(pte: Option<nat>, a: Access): Option<nat> {
    if pte.None? then None
    else
      var e := EntryOf(Vpn(a), pte.value);
      if IsValid(e.flags) && Allowed(e.flags, a.write, a.exec) then Some(e.pfn * PAGE_SIZE + a.va % PAGE_SIZE) else None
  }

  // ---- One translation

  predicate Matches(x: Option<Entry>, vpn: nat) { x.Some? && x.value.vpn == vpn && IsValid(x.value.flags) }

  /** The first entry for the page; |entries| when there is none. */
  function Find(entries: seq<Option<Entry>>, vpn: nat): (i: nat)
    ensures i <= |entries| && (i < |entries| ==> Matches(entries[i], vpn))
    ensures forall j :: 0 <= j < i ==> !Matches(entries[j], vpn)
  {
    if entries == [] || Matches(entries[0], vpn) then 0 else 1 + Find(entries[1..], vpn)
  }

  /** The first of the smallest stamps. */
  function Oldest(lru: seq<nat>): (k: nat)
    requires lru != []
    ensures k < |lru| && forall j :: 0 <= j < |lru| ==> lru[k] <= lru[j] && (j < k ==> lru[k] < lru[j])
  {
    if |lru| == 1 then 0
    else
      var k := Oldest(lru[1..]);
      if lru[0] <= lru[1..][k] then 0 else k + 1
  }

  function Translate(t: Cache, a: Access): (r: (Cache, Option<nat>))
    requires Shaped(t)
    ensures Shaped(r.0)
  {
    var i, now := Find(t.entries, Vpn(a)), t.clock + 1;
    if i < ENTRIES then
      var e := t.entries[i].value;
      if Allowed(e.flags, a.write, a.exec) then
        (t.(lru := t.lru[i := now], clock := now), Some(e.pfn * PAGE_SIZE + a.va % PAGE_SIZE))
      else (t.(clock := now), None)
    else
      var pte := Pte(a.mem, a.ptbr, Vpn(a));
      if pte.None? || !IsValid(EntryOf(Vpn(a), pte.value).flags) then (t.(clock := now), None)
      else
        var k, e := Oldest(t.lru), EntryOf(Vpn(a), pte.value);
        (Cache(t.entries[k := Some(e)], t.lru[k := now], now),
         if Allowed(e.flags, a.write, a.exec) then Some(e.pfn * PAGE_SIZE + a.va % PAGE_SIZE) else None)
  }

  function Flush(t: Cache): Cache { Cache(NoEntries(), NoStamps(), t.clock) }

  // ---- What every translation keeps

  /** Empty slots and only they have stamp 0, so they are always the oldest; pages and stamps are distinct. */
  ghost predicate Sound(t: Cache) {
    && Shaped(t)
    && (forall i :: 0 <= i < ENTRIES ==> (t.entries[i].None? <==> t.lru[i] == 0) && t.lru[i] <= t.clock)
    && (forall i :: 0 <= i < ENTRIES && t.entries[i].Some? ==> IsValid(t.entries[i].value.flags))
    && (forall i, j :: 0 <= i < j < ENTRIES && t.entries[i].Some? && t.entries[j].Some? ==>
          t.entries[i].value.vpn != t.entries[j].value.vpn && t.lru[i] != t.lru[j])
  }

  lemma StampSound(t: Cache, i: nat)
    requires Sound(t) && i < ENTRIES && t.entries[i].Some?
    ensures Sound(t.(lru := t.lru[i := t.clock + 1], clock := t.clock + 1))
  {
  }

  lemma FillSound(t: Cache, k: nat, e: Entry)
    requires Sound(t) && k < ENTRIES && IsValid(e.flags)
    requires forall j :: 0 <= j < ENTRIES && t.entries[j].Some? ==> t.entries[j].value.vpn != e.vpn
    ensures Sound(Cache(t.entries[k := Some(e)], t.lru[k := t.clock + 1], t.clock + 1))
  {
  }

  lemma TranslateSound(t: Cache, a: Access)
    requires Sound(t)
    ensures Sound(Translate(t, a).0)
  {
    var i, pte := Find(t.entries, Vpn(a)), Pte(a.mem, a.ptbr, Vpn(a));
    if i < ENTRIES {
      StampSound(t, i);
    } else if pte.Some? && IsValid(EntryOf(Vpn(a), pte.value).flags) {
      assert forall j :: 0 <= j < ENTRIES && t.entries[j].Some? ==> t.entries[j].value.vpn != Vpn(a);
      FillSound(t, Oldest(t.lru), EntryOf(Vpn(a), pte.value));
    }
  }

  // ---- Transparency

  /** Every cached entry repeats its page table word. */
  ghost predicate Coherent(t: Cache, table: nat -> Option<nat>) {
    Shaped(t) && forall i :: 0 <= i < ENTRIES && t.entries[i].Some? ==> Repeats(t.entries[i].value, table)
  }

  ghost predicate Repeats(e: Entry, table: nat -> Option<nat>) {
    IsValid(e.flags) && table(e.vpn).Some? && e == EntryOf(e.vpn, table(e.vpn).value)
  }

  /** The access finds its own page's word of the page table `table`; all other memory may have changed. */
  ghost predicate Sees(a: Access, table: nat -> Option<nat>) { Pte(a.mem, a.ptbr, Vpn(a)) == table(Vpn(a)) }

  lemma TranslateIsWalk(t: Cache, a: Access, table: nat -> Option<nat>)
    requires Coherent(t, table) && Sees(a, table)
    ensures Translate(t, a).1 == Walk(Pte(a.mem, a.ptbr, Vpn(a)), a) && Coherent(Translate(t, a).0, table)
  {
  }

  function Run(t: Cache, trace: seq<Access>): (Cache, seq<Option<nat>>)
    requires Shaped(t)
    ensures Shaped(Run(t, trace).0)
    decreases trace
  {
    if trace == [] then (t, [])
    else
      var (t1, r) := Translate(t, trace[0]);
      var (t2, rs) := Run(t1, trace[1..]);
      (t2, [r] + rs)
  }

  /** The translations of a trace when each walks the table. */
  function Walks(trace: seq<Access>): seq<Option<nat>> {
    seq(|trace|, i requires 0 <= i < |trace| => Walk(Pte(trace[i].mem, trace[i].ptbr, Vpn(trace[i])), trace[i]))
  }

  /** As long as each access finds its page's table word as it was at the last flush, any sequence of translations
      gives what walking the table gives each time, faults included; frames may be written in between. */
  lemma {:induction false} Transparent(t: Cache, trace: seq<Access>, table: nat -> Option<nat>)
    requires Coherent(t, table) && forall a :: a in trace ==> Sees(a, table)
    ensures Run(t, trace).1 == Walks(trace)
    decreases trace
  {
    if trace != [] {
      TranslateIsWalk(t, trace[0], table);
      Transparent(Translate(t, trace[0]).0, trace[1..], table);
    }
  }

  lemma FlushedIsTransparent(t: Cache, trace: seq<Access>, table: nat -> Option<nat>)
    requires forall a :: a in trace ==> Sees(a, table)
    ensures Run(Flush(t), trace).1 == Walks(trace)
  {
    Transparent(Flush(t), trace, table);
  }

  // ---- The bits of a table word

  /** What the masks PTE_V, PTE_W and PTE_X leave of the flags in a table word w. */
  predicate Permits(w: nat, write: bool, exec: bool) {
    Bitwise(And, w, 1, 4) != 0 && (write ==> Bitwise(And, w, 4, 4) != 0) && (exec ==> Bitwise(And, w, 8, 4) != 0)
  }

  lemma MaskedBits(w: nat)
    ensures Bitwise(And, w, 1, 4) != 0 <==> w % 2 == 1
    ensures Bitwise(And, w, 4, 4) != 0 <==> w / 4 % 2 == 1
    ensures Bitwise(And, w, 8, 4) != 0 <==> w / 8 % 2 == 1
  {
    assert Bitwise(And, w, 8, 4) == 2 * Bitwise(And, w / 2, 4, 3);
    assert Bitwise(And, w / 2, 4, 3) == 2 * Bitwise(And, w / 2 / 2, 2, 2);
    assert Bitwise(And, w / 2 / 2, 2, 2) == 2 * Bitwise(And, w / 2 / 2 / 2, 1, 1);
    assert Bitwise(And, w, 4, 4) == 2 * Bitwise(And, w / 2, 2, 3);
    assert Bitwise(And, w / 2, 2, 3) == 2 * Bitwise(And, w / 2 / 2, 1, 2);
    AndZero(w / 2 / 2 / 2, 1);
    AndZero(w / 2, 3);
    assert w / 2 / 2 == w / 4 && w / 4 / 2 == w / 8;
  }

  lemma {:induction false} AndZero(x: nat, n: nat)
    ensures Bitwise(And, x, 0, n) == 0
  {
    if n > 0 { AndZero(x / 2, n - 1); }
  }

  lemma FlagBits(w: nat)
    ensures w % 16 % 2 == w % 2 && w % 16 / 4 % 2 == w / 4 % 2 && w % 16 / 8 % 2 == w / 8 % 2
  {
    var q, r := w / 16, w % 16;
    EvenPart(w, 16 * q + r, q, r);
    Bits.DivUnique(w, 4, 4 * q + r / 4, r % 4);
    Bits.DivUnique(w, 8, 2 * q + r / 8, r % 8);
    EvenPart(w / 4, 4 * q + r / 4, 2 * q, r / 4);
    EvenPart(w / 8, 2 * q + r / 8, q, r / 8);
  }

  lemma EvenPart(x: nat, y: nat, q: nat, r: nat)
    requires x == y && (y == 16 * q + r || y == 2 * q + r)
    ensures x % 2 == r % 2
  {
  }

  /** A translation succeeds exactly when its page's table word is in memory and has the bits that the access needs;
      the address is then the word's frame with the offset. On any cache that repeats the table. */
  lemma TranslationExact(t: Cache, a: Access, table: nat -> Option<nat>)
    requires Coherent(t, table) && Sees(a, table)
    ensures var k, r := a.ptbr + a.va / 1024, Translate(t, a).1;
            && (r.Some? <==> k < |a.mem| && Permits(a.mem[k], a.write, a.exec))
            && (r.Some? ==> r.value == a.mem[k] / 1024 * 1024 + a.va % 1024)
  {
    TranslateIsWalk(t, a, table);
    var pte := Pte(a.mem, a.ptbr, Vpn(a));
    if pte.Some? {
      MaskedBits(pte.value);
      FlagBits(pte.value);
    }
    hide Bitwise, Translate, Coherent, Sees;
  }

  /** The same on a flushed cache, for every access. */
  lemma FreshTranslation(t: Cache, a: Access)
    ensures var k, r := a.ptbr + a.va / 1024, Translate(Flush(t), a).1;
            && (r.Some? <==> k < |a.mem| && Permits(a.mem[k], a.write, a.exec))
            && (r.Some? ==> r.value == a.mem[k] / 1024 * 1024 + a.va % 1024)
  {
    TranslationExact(Flush(t), a, v => Pte(a.mem, a.ptbr, v));
  }

  // ---- Residency

  /** The translation hits with permission, or fills an entry. */
  predicate Touches(t: Cache, a: Access)
    requires Shaped(t)
  {
    var i, pte := Find(t.entries, Vpn(a)), Pte(a.mem, a.ptbr, Vpn(a));
    if i < ENTRIES then Allowed(t.entries[i].value.flags, a.write, a.exec)
    else pte.Some? && IsValid(EntryOf(Vpn(a), pte.value).flags)
  }

  predicate Holds(t: Cache, vpn: nat)
    requires Shaped(t)
  {
    Find(t.entries, vpn) < ENTRIES
  }

  /** The pages that a trace touches. */
  function Touched(t: Cache, trace: seq<Access>): set<nat>
    requires Shaped(t)
    decreases trace
  {
    if trace == [] then {}
    else (if Touches(t, trace[0]) then {Vpn(trace[0])} else {}) + Touched(Translate(t, trace[0]).0, trace[1..])
  }

  predicate IsNewer(t: Cache, i: nat, j: nat)
    requires Shaped(t) && i < ENTRIES && j < ENTRIES
  {
    t.entries[j].Some? && t.lru[j] > t.lru[i]
  }

  /** The pages in the first n slots that were touched after the one in slot i. */
  function NewerPages(t: Cache, i: nat, n: nat): set<nat>
    requires Shaped(t) && i < ENTRIES && n <= ENTRIES
  {
    set j: nat | j < n && IsNewer(t, i, j) :: t.entries[j].value.vpn
  }

  function Newer(t: Cache, i: nat): set<nat>
    requires Shaped(t) && i < ENTRIES
  {
    NewerPages(t, i, ENTRIES)
  }

  /** Page p is in slot i, and `others` are the pages touched after it. */
  ghost predicate Tracks(t: Cache, p: nat, i: nat, others: set<nat>) {
    Shaped(t) && Sound(t) && i < ENTRIES && t.entries[i].Some? && t.entries[i].value.vpn == p && others == Newer(t, i)
  }

  /** How many of the first n slots are newer than slot i. */
  function NewerSlots(t: Cache, i: nat, n: nat): (c: nat)
    requires Shaped(t) && i < ENTRIES && n <= ENTRIES
  {
    if n == 0 then 0 else NewerSlots(t, i, n - 1) + if IsNewer(t, i, n - 1) then 1 else 0
  }

  lemma {:induction false} SlotsBound(t: Cache, i: nat, n: nat)
    requires Shaped(t) && i < ENTRIES && n <= ENTRIES
    ensures NewerSlots(t, i, n) + (if i < n then 1 else 0) <= n
    ensures NewerSlots(t, i, n) + (if i < n then 1 else 0) == n <==> forall j: nat :: j < n && j != i ==>
            IsNewer(t, i, j)
  {
    if n > 0 { SlotsBound(t, i, n - 1); }
  }

  lemma PagesStep(t: Cache, i: nat, n: nat)
    requires Sound(t) && i < ENTRIES && 0 < n <= ENTRIES
    ensures var before := NewerPages(t, i, n - 1);
            if IsNewer(t, i, n - 1) then
              var v := t.entries[n - 1].value.vpn; v !in before && NewerPages(t, i, n) == before + {v}
            else NewerPages(t, i, n) == before
  {
  }

  /** Distinct slots hold distinct pages. */
  lemma {:induction false} PageCount(t: Cache, i: nat, n: nat)
    requires Sound(t) && i < ENTRIES && n <= ENTRIES
    ensures |NewerPages(t, i, n)| == NewerSlots(t, i, n)
  {
    if n == 0 {
      assert NewerPages(t, i, 0) == {};
    } else {
      hide NewerPages, Sound;
      PagesStep(t, i, n);
      PageCount(t, i, n - 1);
    }
  }

  lemma NewerCount(t: Cache, i: nat)
    requires Sound(t) && i < ENTRIES && t.entries[i].Some?
    ensures |Newer(t, i)| < ENTRIES
    ensures Oldest(t.lru) == i <==> |Newer(t, i)| == ENTRIES - 1
  {
    PageCount(t, i, ENTRIES);
    SlotsBound(t, i, ENTRIES);
    if Oldest(t.lru) != i { assert !IsNewer(t, i, Oldest(t.lru)); }
  }

  lemma {:induction false} SubsetSize<T>(xs: set<T>, ys: set<T>)
    requires xs <= ys
    ensures |xs| <= |ys|
    decreases |xs|
  {
    if xs != {} {
      var x :| x in xs;
      SubsetSize(xs - {x}, ys - {x});
    }
  }

  lemma FindSlot(t: Cache, p: nat, i: nat)
    requires Sound(t) && i < ENTRIES && t.entries[i].Some? && t.entries[i].value.vpn == p
    ensures Find(t.entries, p) == i
  {
  }

  /** A translation that does not touch p: p stays, with the touched page counted, or p is the oldest of 32 and goes. */
  lemma OneMore(t: Cache, p: nat, i: nat, others: set<nat>, a: Access)
    requires Tracks(t, p, i, others) && (Touches(t, a) ==> Vpn(a) != p)
    ensures var t' := Translate(t, a).0;
            var others' := others + if Touches(t, a) then {Vpn(a)} else {};
            if |others'| < ENTRIES then Tracks(t', p, i, others') else Sound(t') && !Holds(t', p)
  {
    TranslateSound(t, a);
    NewerCount(t, i);
    if !Touches(t, a) {
      Untouched(t, a, i);
      assert others + {} == others;
    } else if Find(t.entries, Vpn(a)) < ENTRIES {
      HitCounts(t, p, i, a);
    } else {
      FillCounts(t, p, i, a);
    }
  }

  lemma Untouched(t: Cache, a: Access, i: nat)
    requires Sound(t) && !Touches(t, a) && i < ENTRIES
    ensures var t' := Translate(t, a).0; t'.entries == t.entries && t'.lru == t.lru && Newer(t', i) == Newer(t, i)
  {
  }

  lemma HitCounts(t: Cache, p: nat, i: nat, a: Access)
    requires Sound(t) && i < ENTRIES && t.entries[i].Some? && t.entries[i].value.vpn == p && Vpn(a) != p
    requires Touches(t, a) && Find(t.entries, Vpn(a)) < ENTRIES
    ensures var t' := Translate(t, a).0;
            Tracks(t', p, i, Newer(t, i) + {Vpn(a)}) && |Newer(t, i) + {Vpn(a)}| < ENTRIES
  {
    TranslateSound(t, a);
    var t' := Translate(t, a).0;
    NewerAfter(t, t', i, Find(t.entries, Vpn(a)), Vpn(a));
    NewerCount(t', i);
  }

  lemma FillCounts(t: Cache, p: nat, i: nat, a: Access)
    requires Sound(t) && i < ENTRIES && t.entries[i].Some? && t.entries[i].value.vpn == p && Vpn(a) != p
    requires Touches(t, a) && Find(t.entries, Vpn(a)) == ENTRIES
    ensures var t' := Translate(t, a).0;
            if |Newer(t, i) + {Vpn(a)}| < ENTRIES then Tracks(t', p, i, Newer(t, i) + {Vpn(a)}) else
              Sound(t') && !Holds(t', p)
  {
    TranslateSound(t, a);
    NewerCount(t, i);
    NotCached(t, Vpn(a), i);
    var t', k := Translate(t, a).0, Oldest(t.lru);
    if k != i {
      NewerAfter(t, t', i, k, Vpn(a));
      NewerCount(t', i);
    } else {
      assert forall j :: 0 <= j < ENTRIES ==> !Matches(t'.entries[j], p);
    }
  }

  lemma NotCached(t: Cache, q: nat, i: nat)
    requires Sound(t) && Find(t.entries, q) == ENTRIES && i < ENTRIES
    ensures forall j :: 0 <= j < ENTRIES && t.entries[j].Some? ==> t.entries[j].value.vpn != q
    ensures q !in Newer(t, i)
  {
  }

  /** Stamping slot k with a new time, for page q. */
  lemma NewerAfter(t: Cache, t': Cache, i: nat, k: nat, q: nat)
    requires Sound(t) && Sound(t') && i < ENTRIES && k < ENTRIES && i != k && t.entries[i].Some?
    requires forall j :: 0 <= j < ENTRIES && j != k ==> t'.entries[j] == t.entries[j] && t'.lru[j] == t.lru[j]
    requires t'.entries[k].Some? && t'.entries[k].value.vpn == q && t'.lru[k] == t.clock + 1
    requires t.entries[k] == t'.entries[k] || t.lru[k] <= t.lru[i]
    ensures Newer(t', i) == Newer(t, i) + {q}
  {
    forall v | v in Newer(t, i)
      ensures v in Newer(t', i)
    {
      var j: nat :| j < ENTRIES && IsNewer(t, i, j) && t.entries[j].value.vpn == v;
      assert t'.lru[j] > t'.lru[i];
      assert t'.entries[j].Some? && t'.entries[j].value.vpn == v;
      assert IsNewer(t', i, j);
    }
    assert IsNewer(t', i, k);
    assert q in Newer(t', i);
  }

  /** Least recently used, exactly: once touched, a page that is not touched again (translations that fault for
      want of permission do not touch it) is in the cache if and only if fewer than 32 others were touched since. */
  lemma LruExact(t: Cache, a: Access, trace: seq<Access>)
    requires Sound(t) && Touches(t, a) && Vpn(a) !in Touched(Translate(t, a).0, trace)
    ensures var t1 := Translate(t, a).0;
            Holds(Run(t1, trace).0, Vpn(a)) <==> |Touched(t1, trace)| < ENTRIES
  {
    hide Touched, Touches, Translate, Newer, Find;
    var i := TouchSlot(t, a);
    var t1 := Translate(t, a).0;
    StaysWhile(t1, Vpn(a), i, {}, trace);
    assert {} + Touched(t1, trace) == Touched(t1, trace);
  }

  /** A touched page is in a slot, and no other page is newer. */
  lemma TouchSlot(t: Cache, a: Access) returns (i: nat)
    requires Sound(t) && Touches(t, a)
    ensures Tracks(Translate(t, a).0, Vpn(a), i, {})
  {
    var t1, f := Translate(t, a).0, Find(t.entries, Vpn(a));
    i := if f < ENTRIES then f else Oldest(t.lru);
    TranslateSound(t, a);
    assert Newer(t1, i) == {};
  }

  lemma {:induction false} StaysWhile(t: Cache, p: nat, i: nat, others: set<nat>, trace: seq<Access>)
    requires Tracks(t, p, i, others) && p !in Touched(t, trace)
    ensures Holds(Run(t, trace).0, p) <==> |others + Touched(t, trace)| < ENTRIES
    decreases trace
  {
    hide Newer, Translate, Touches, Find, Vpn, Sound, Touched;
    if trace == [] {
      FindSlot(t, p, i);
      NewerCount(t, i);
      NoneTouched(t, others);
    } else {
      TouchedStep(t, trace);
      OneMore(t, p, i, others, trace[0]);
      var t', rest := Translate(t, trace[0]).0, trace[1..];
      var others' := others + if Touches(t, trace[0]) then {Vpn(trace[0])} else {};
      if |others'| < ENTRIES {
        StaysWhile(t', p, i, others', rest);
      } else {
        StaysAway(t', p, rest);
        SubsetSize(others', others' + Touched(t', rest));
      }
      assert others + Touched(t, trace) == others' + Touched(t', rest);
    }
  }

  lemma NoneTouched(t: Cache, others: set<nat>)
    requires Shaped(t)
    ensures others + Touched(t, []) == others
  {
  }

  lemma TouchedStep(t: Cache, trace: seq<Access>)
    requires Shaped(t) && trace != []
    ensures Touched(t, trace) == (if Touches(t, trace[0]) then {Vpn(trace[0])}
            else {}) + Touched(Translate(t, trace[0]).0, trace[1..])
  {
    hide Touches, Translate;
  }

  /** A page that is not in the cache gets there only by being touched. */
  lemma {:induction false} StaysAway(t: Cache, p: nat, trace: seq<Access>)
    requires Sound(t) && !Holds(t, p) && p !in Touched(t, trace)
    ensures !Holds(Run(t, trace).0, p)
    decreases trace
  {
    if trace != [] {
      hide Touched;
      TouchedStep(t, trace);
      var t' := Translate(t, trace[0]).0;
      TranslateSound(t, trace[0]);
      assert forall j :: 0 <= j < ENTRIES ==> !Matches(t.entries[j], p);
      assert forall j :: 0 <= j < ENTRIES ==> !Matches(t'.entries[j], p);
      StaysAway(t', p, trace[1..]);
    }
  }
}
