/** The heap as a list of blocks, each directly behind the other, and what first-fit allocation with two-way
    coalescing does to it. */
module Blocks {

  const HEAP_START := 0x2000
  const HEAP_END := 0xF000
  const HEAP_SIZE := HEAP_END - HEAP_START
  const HEADER_WORDS := 2

  datatype Block = Block(size: int, used: bool)

  function Total(bs: seq<Block>): int {
    if bs == [] then 0 else bs[0].size + Total(bs[1..])
  }

  /** The address of block i of a list that starts at a. */
  function Addr(bs: seq<Block>, a: int, i: nat): int
    requires i <= |bs|
  {
    a + Total(bs[..i])
  }

  predicate Sized(bs: seq<Block>) { forall i :: 0 <= i < |bs| ==> bs[i].size >= HEADER_WORDS }

  predicate Merged(bs: seq<Block>) { forall i :: 0 <= i < |bs| - 1 ==> bs[i].used || bs[i + 1].used }

  /** The invariant: blocks cover the heap exactly, and no two free blocks are neighbours. */
  predicate WellFormed(bs: seq<Block>) { Sized(bs) && Merged(bs) && Total(bs) == HEAP_SIZE }

  /** Every block size is a multiple of four. */
  predicate Quarters(bs: seq<Block>) { forall i :: 0 <= i < |bs| ==> bs[i].size % 4 == 0 }

  const INITIAL := [Block(HEAP_SIZE, false)]

  // ---- Live allocations

  /** Address and size of each used block. */
  function Live(bs: seq<Block>, a: int): set<(int, int)> {
    if bs == [] then {}
    else (if bs[0].used then {(a, bs[0].size)} else {}) + Live(bs[1..], a + bs[0].size)
  }

  lemma {:induction false} TotalConcat(xs: seq<Block>, ys: seq<Block>)
    ensures Total(xs + ys) == Total(xs) + Total(ys)
  {
    if xs == [] {
      assert xs + ys == ys;
    } else {
      assert (xs + ys)[1..] == xs[1..] + ys;
      TotalConcat(xs[1..], ys);
    }
  }

  lemma {:induction false} LiveConcat(xs: seq<Block>, ys: seq<Block>, a: int)
    ensures Live(xs + ys, a) == Live(xs, a) + Live(ys, a + Total(xs))
  {
    if xs == [] {
      assert xs + ys == ys;
    } else {
      assert (xs + ys)[1..] == xs[1..] + ys;
      LiveConcat(xs[1..], ys, a + xs[0].size);
    }
  }

  /** Live allocations lie inside the list's range. */
  lemma {:induction false} LiveWithin(bs: seq<Block>, a: int)
    requires Sized(bs)
    ensures Total(bs) >= 0
    ensures forall p | p in Live(bs, a) :: a <= p.0 && HEADER_WORDS <= p.1 && p.0 + p.1 <= a + Total(bs)
  {
    if bs != [] { LiveWithin(bs[1..], a + bs[0].size); }
  }

  /** Two live allocations never share a word. */
  lemma {:induction false} LiveDisjoint(bs: seq<Block>, a: int, p: (int, int), q: (int, int))
    requires Sized(bs) && p in Live(bs, a) && q in Live(bs, a) && p != q
    ensures p.0 + p.1 <= q.0 || q.0 + q.1 <= p.0
  {
    var rest := Live(bs[1..], a + bs[0].size);
    LiveWithin(bs[1..], a + bs[0].size);
    if p in rest && q in rest { LiveDisjoint(bs[1..], a + bs[0].size, p, q); }
  }

  /** A block list without neighbouring free blocks is determined by its live allocations: where the free
      space lies, and how it is cut, carries no trace of the history. */
  lemma {:induction false} Canonical(xs: seq<Block>, ys: seq<Block>, a: int)
    requires Sized(xs) && Sized(ys) && Merged(xs) && Merged(ys)
    requires Total(xs) == Total(ys) && Live(xs, a) == Live(ys, a)
    ensures xs == ys
    decreases |xs| + |ys|
  {
    TotalGrows(xs);
    TotalGrows(ys);
    if xs != [] && ys != [] {
      LiveWithin(xs[1..], a + xs[0].size);
      LiveWithin(ys[1..], a + ys[0].size);
      if !xs[0].used { FrontGap(xs, a); }
      if !ys[0].used { FrontGap(ys, a); }
      assert xs[0] == ys[0] by {
        if xs[0].used { assert (a, xs[0].size) in Live(ys, a); }
        if ys[0].used { assert (a, ys[0].size) in Live(xs, a); }
      }
      var b := a + xs[0].size;
      assert Live(xs[1..], b) == Live(xs, a) - {(a, xs[0].size)};
      assert Live(ys[1..], b) == Live(ys, a) - {(a, ys[0].size)};
      Canonical(xs[1..], ys[1..], b);
      assert xs == [xs[0]] + xs[1..] && ys == [ys[0]] + ys[1..];
    }
  }

  lemma {:induction false} TotalGrows(bs: seq<Block>)
    requires Sized(bs)
    ensures Total(bs) >= HEADER_WORDS * |bs|
  {
    if bs != [] { TotalGrows(bs[1..]); }
  }

  /** A free block at the front reaches to the first live allocation, or to the end. */
  lemma FrontGap(bs: seq<Block>, a: int)
    requires Sized(bs) && Merged(bs) && bs != [] && !bs[0].used
    ensures forall p | p in Live(bs, a) :: p.0 >= a + bs[0].size
    ensures if |bs| == 1 then Live(bs, a) == {} && Total(bs) == bs[0].size
            else (a + bs[0].size, bs[1].size) in Live(bs, a)
  {
    LiveWithin(bs[1..], a + bs[0].size);
  }

  // ---- First fit

  predicate Fits(b: Block, need: int) { !b.used && b.size >= need }

  /** The first block that fits; |bs| when there is none. */
  function FirstFit(bs: seq<Block>, need: int): (i: nat)
    ensures i <= |bs| && (i < |bs| ==> Fits(bs[i], need))
    ensures forall j :: 0 <= j < i ==> !Fits(bs[j], need)
  {
    if bs == [] then 0 else if Fits(bs[0], need) then 0 else 1 + FirstFit(bs[1..], need)
  }

  /** What the allocator makes of the block it picks. A remainder of one to three words gets no header. */
  function Carve(b: Block, need: int): seq<Block> {
    [Block(need, true)] + if b.size > need + HEADER_WORDS + 1 then [Block(b.size - need, false)] else []
  }

  function Alloc(bs: seq<Block>, need: int): seq<Block> {
    var i := FirstFit(bs, need);
    if i == |bs| then bs else bs[..i] + Carve(bs[i], need) + bs[i + 1..]
  }

  /** The words that a fitting block has to spare. */
  function Slack(bs: seq<Block>, need: int): int {
    var i := FirstFit(bs, need);
    if i == |bs| then 0 else bs[i].size - need
  }

  lemma AroundBlock(bs: seq<Block>, i: nat, a: int)
    requires i < |bs|
    ensures bs == bs[..i] + [bs[i]] + bs[i + 1..]
    ensures Total(bs) == Total(bs[..i]) + bs[i].size + Total(bs[i + 1..])
    ensures Live(bs, a) == Live(bs[..i], a) + Live([bs[i]], Addr(bs, a, i)) + Live(bs[i + 1..],
            Addr(bs, a, i) + bs[i].size)
  {
    assert bs == bs[..i] + [bs[i]] + bs[i + 1..];
    TotalConcat(bs[..i] + [bs[i]], bs[i + 1..]);
    TotalConcat(bs[..i], [bs[i]]);
    assert Total([bs[i]]) == bs[i].size;
    LiveConcat(bs[..i] + [bs[i]], bs[i + 1..], a);
    LiveConcat(bs[..i], [bs[i]], a);
  }

  lemma CarveFacts(b: Block, need: int, a: int)
    ensures Total(Carve(b, need)) == if b.size > need + HEADER_WORDS + 1 then b.size else need
    ensures Live(Carve(b, need), a) == {(a, need)}
  {
    var tail := if b.size > need + HEADER_WORDS + 1 then [Block(b.size - need, false)] else [];
    TotalConcat([Block(need, true)], tail);
    LiveConcat([Block(need, true)], tail, a);
    assert Total([Block(need, true)]) == need;
    if tail != [] { assert Total(tail) == tail[0].size; }
  }

  /** Allocation adds one live allocation, at the lowest free block that fits, and touches no other. */
  lemma AllocLive(bs: seq<Block>, need: int, a: int)
    requires Sized(bs) && need >= HEADER_WORDS
    ensures var i := FirstFit(bs, need);
            if i == |bs| then Alloc(bs, need) == bs
            else (!(1 <= Slack(bs, need) <= 3) ==> Live(Alloc(bs, need), a) == Live(bs, a) + {(Addr(bs, a, i), need)})
                 && Total(Alloc(bs, need)) == Total(bs) - (if 1 <= Slack(bs, need) <= 3 then Slack(bs, need) else 0)
  {
    var i := FirstFit(bs, need);
    if i < |bs| {
      var x, y := bs[..i], bs[i + 1..];
      AroundBlock(bs, i, a);
      CarveFacts(bs[i], need, Addr(bs, a, i));
      TotalConcat(x + Carve(bs[i], need), y);
      TotalConcat(x, Carve(bs[i], need));
      LiveConcat(x + Carve(bs[i], need), y, a);
      LiveConcat(x, Carve(bs[i], need), a);
    }
  }

  /** Block j of the list with block i replaced by the blocks of c. */
  lemma SpliceAt(bs: seq<Block>, i: nat, c: seq<Block>, j: nat)
    requires i < |bs| && j < |bs| - 1 + |c|
    ensures var r := bs[..i] + c + bs[i + 1..];
            |r| == |bs| - 1 + |c| && r[j] == if j < i then bs[j] else if j < i + |c| then c[j - i] else bs[j - |c| + 1]
  {
  }

  lemma AllocShape(bs: seq<Block>, need: int)
    requires Sized(bs) && Merged(bs) && need >= HEADER_WORDS && FirstFit(bs, need) < |bs|
    ensures Sized(Alloc(bs, need)) && Merged(Alloc(bs, need))
  {
    var i := FirstFit(bs, need);
    var c, r := Carve(bs[i], need), Alloc(bs, need);
    forall j: nat | j < |r|
      ensures r[j].size >= HEADER_WORDS && (j < |r| - 1 ==> r[j].used || r[j + 1].used)
    {
      SpliceAt(bs, i, c, j);
      if j < |r| - 1 { SpliceAt(bs, i, c, j + 1); }
    }
  }

  /** Allocation keeps the heap well formed exactly when it does not leave one to three words over. */
  lemma AllocKeepsIff(bs: seq<Block>, need: int)
    requires WellFormed(bs) && need >= HEADER_WORDS
    ensures WellFormed(Alloc(bs, need)) <==> !(1 <= Slack(bs, need) <= 3)
  {
    hide Alloc;
    AllocLive(bs, need, HEAP_START);
    if FirstFit(bs, need) < |bs| { AllocShape(bs, need); }
  }

  // ---- Release

  /** Two neighbours made into one free block. */
  function Join(bs: seq<Block>, i: nat): seq<Block>
    requires i + 1 < |bs|
  {
    bs[..i] + [Block(bs[i].size + bs[i + 1].size, false)] + bs[i + 2..]
  }

  function JoinNext(bs: seq<Block>, i: nat): seq<Block>
    requires i < |bs|
  {
    if i + 1 < |bs| && !bs[i + 1].used then Join(bs, i) else bs
  }

  function JoinPrevious(bs: seq<Block>, i: nat): seq<Block>
    requires i < |bs|
  {
    if i > 0 && !bs[i - 1].used then Join(bs, i - 1) else bs
  }

  /** Freeing block i: mark it, merge forward, then backward. */
  function Release(bs: seq<Block>, i: nat): seq<Block>
    requires i < |bs|
  {
    JoinPrevious(JoinNext(bs[i := Block(bs[i].size, false)], i), i)
  }

  lemma JoinFacts(bs: seq<Block>, i: nat, a: int)
    requires i + 1 < |bs| && !bs[i].used && !bs[i + 1].used
    ensures Total(Join(bs, i)) == Total(bs) && Live(Join(bs, i), a) == Live(bs, a)
  {
    AroundBlock(bs, i, a);
    AroundBlock(bs[i + 1..], 0, Addr(bs, a, i) + bs[i].size);
    assert bs[i + 1..][1..] == bs[i + 2..] && bs[i + 1..][..0] == [];
    var r := Join(bs, i);
    AroundBlock(r, i, a);
    assert r[..i] == bs[..i] && r[i + 1..] == bs[i + 2..];
  }

  lemma MarkFacts(bs: seq<Block>, i: nat, a: int)
    requires i < |bs| && bs[i].used && Sized(bs)
    ensures var r := bs[i := Block(bs[i].size, false)];
            Total(r) == Total(bs) && Live(r, a) == Live(bs, a) - {(Addr(bs, a, i), bs[i].size)}
  {
    var r := bs[i := Block(bs[i].size, false)];
    AroundBlock(bs, i, a);
    AroundBlock(r, i, a);
    assert r[..i] == bs[..i] && r[i + 1..] == bs[i + 1..];
    var p := (Addr(bs, a, i), bs[i].size);
    LiveWithin(bs[..i], a);
    LiveWithin(bs[i + 1..], p.0 + p.1);
    assert p !in Live(bs[..i], a) && p !in Live(bs[i + 1..], p.0 + p.1);
  }

  lemma JoinAt(bs: seq<Block>, i: nat, j: nat)
    requires i + 1 < |bs| && j < |bs| - 1
    ensures |Join(bs, i)| == |bs| - 1
    ensures Join(bs, i)[j] == if j < i then bs[j] else if j == i then Block(bs[i].size + bs[i + 1].size, false)
            else bs[j + 1]
  {
  }

  /** Free neighbours may stand only directly before block i (`before`) or directly behind it (`behind`). */
  predicate MergedBut(bs: seq<Block>, i: nat, before: bool, behind: bool) {
    forall j :: 0 <= j < |bs| - 1 && (j + 1 == i ==> !before) && (j == i ==> !behind) ==> bs[j].used || bs[j + 1].used
  }

  lemma JoinNextKeeps(bs: seq<Block>, i: nat, a: int)
    requires i < |bs| && Sized(bs) && MergedBut(bs, i, true, true) && !bs[i].used
    ensures var r := JoinNext(bs, i);
            && i < |r| && Sized(r) && MergedBut(r, i, true, false) && !r[i].used
            && Total(r) == Total(bs) && Live(r, a) == Live(bs, a)
  {
    if i + 1 < |bs| && !bs[i + 1].used {
      JoinFacts(bs, i, a);
      var r := Join(bs, i);
      JoinAt(bs, i, i);
      forall j: nat | j < |r|
        ensures r[j].size >= HEADER_WORDS && (j < |r| - 1 && j + 1 != i ==> r[j].used || r[j + 1].used)
      {
        JoinAt(bs, i, j);
        if j < |r| - 1 { JoinAt(bs, i, j + 1); }
      }
    }
  }

  lemma JoinPreviousKeeps(bs: seq<Block>, i: nat, a: int)
    requires i < |bs| && Sized(bs) && MergedBut(bs, i, true, false) && !bs[i].used
    ensures var r := JoinPrevious(bs, i); Sized(r) && Merged(r) && Total(r) == Total(bs) && Live(r, a) == Live(bs, a)
  {
    if i > 0 && !bs[i - 1].used {
      JoinFacts(bs, i - 1, a);
      var r := Join(bs, i - 1);
      forall j: nat | j < |r|
        ensures r[j].size >= HEADER_WORDS && (j < |r| - 1 ==> r[j].used || r[j + 1].used)
      {
        JoinAt(bs, i - 1, j);
        if j < |r| - 1 { JoinAt(bs, i - 1, j + 1); }
      }
    }
  }

  /** Freeing removes exactly the freed allocation, and the heap stays well formed. */
  lemma ReleaseKeeps(bs: seq<Block>, i: nat)
    requires WellFormed(bs) && i < |bs| && bs[i].used
    ensures WellFormed(Release(bs, i))
    ensures Live(Release(bs, i), HEAP_START) == Live(bs, HEAP_START) - {(Addr(bs, HEAP_START, i), bs[i].size)}
  {
    hide JoinNext, JoinPrevious, Live, Total;
    MarkFacts(bs, i, HEAP_START);
    var marked := bs[i := Block(bs[i].size, false)];
    JoinNextKeeps(marked, i, HEAP_START);
    JoinPreviousKeeps(JoinNext(marked, i), i, HEAP_START);
  }

  lemma JoinQuarters(bs: seq<Block>, i: nat)
    requires i + 1 < |bs| && Quarters(bs)
    ensures Quarters(Join(bs, i))
  {
    var r := Join(bs, i);
    forall j: nat | j < |r|
      ensures r[j].size % 4 == 0
    {
      JoinAt(bs, i, j);
    }
  }

  lemma ReleaseKeepsQuarters(bs: seq<Block>, i: nat)
    requires i < |bs| && Quarters(bs)
    ensures Quarters(Release(bs, i))
  {
    hide Join;
    var marked := bs[i := Block(bs[i].size, false)];
    if i + 1 < |bs| && !bs[i + 1].used { JoinAt(marked, i, i); JoinQuarters(marked, i); }
    var ahead := JoinNext(marked, i);
    if i > 0 && !ahead[i - 1].used { JoinQuarters(ahead, i - 1); }
  }

  /** With requests of 2 modulo 4 words, the spare words are never one to three. */
  lemma AllocKeepsQuarters(bs: seq<Block>, need: int)
    requires Quarters(bs) && need % 4 == 0
    ensures Quarters(Alloc(bs, need)) && !(1 <= Slack(bs, need) <= 3)
  {
  }

  /** Allocating and freeing at once restores the identical block list. */
  lemma FreeUndoesAlloc(bs: seq<Block>, need: int)
    requires WellFormed(bs) && need >= HEADER_WORDS && FirstFit(bs, need) < |bs| && !(1 <= Slack(bs, need) <= 3)
    ensures var i := FirstFit(bs, need);
            i < |Alloc(bs, need)| && Alloc(bs, need)[i] == Block(need, true) && Release(Alloc(bs, need), i) == bs
  {
    hide Release, Live, Total, Merged, Sized;
    var i, r := FirstFit(bs, need), Alloc(bs, need);
    AllocLive(bs, need, HEAP_START);
    AllocKeepsIff(bs, need);
    assert r[..i] == bs[..i] && r[i] == Block(need, true);
    ReleaseKeeps(r, i);
    NotLive(bs, i, need);
    var p := (Addr(bs, HEAP_START, i), need);
    assert Live(Release(r, i), HEAP_START) == Live(bs, HEAP_START) + {p} - {p} == Live(bs, HEAP_START);
    Canonical(Release(r, i), bs, HEAP_START);
  }

  lemma NotLive(bs: seq<Block>, i: nat, size: int)
    requires Sized(bs) && i < |bs| && !bs[i].used && size > 0
    ensures (Addr(bs, HEAP_START, i), size) !in Live(bs, HEAP_START)
  {
    AroundBlock(bs, i, HEAP_START);
    var p := (Addr(bs, HEAP_START, i), size);
    LiveWithin(bs[..i], HEAP_START);
    LiveWithin(bs[i + 1..], p.0 + bs[i].size);
  }

  // ---- Runs

  datatype Request = Get(size: int) | Put(ptr: int)

  /** The index of the block at address p in a list from a on; |bs| when there is none. */
  function IndexAt(bs: seq<Block>, a: int, p: int): (i: nat)
    ensures i <= |bs|
  {
    if bs == [] || a == p then 0 else 1 + IndexAt(bs[1..], a + bs[0].size, p)
  }

  function Perform(bs: seq<Block>, r: Request): seq<Block> {
    match r
    case Get(size) => if size <= 0 then bs else Alloc(bs, size + HEADER_WORDS)
    case Put(ptr) =>
      var i := IndexAt(bs, HEAP_START, ptr - HEADER_WORDS);
      if ptr == 0 || i == |bs| then bs else Release(bs, i)
  }

  /** The pointer is one that allocation returned and that is not freed yet. */
  predicate IsLive(bs: seq<Block>, ptr: int) {
    exists p :: p in Live(bs, HEAP_START) && p.0 == ptr - HEADER_WORDS
  }

  /** The request frees nothing but null and live pointers. */
  predicate FreesLive(bs: seq<Block>, r: Request) { r.Put? ==> r.ptr == 0 || IsLive(bs, r.ptr) }

  /** The request leaves no remainder of one to three words. */
  predicate NoRemainder(bs: seq<Block>, r: Request) {
    r.Get? && r.size > 0 ==> !(1 <= Slack(bs, r.size + HEADER_WORDS) <= 3)
  }

  function Run(bs: seq<Block>, rs: seq<Request>): seq<Block>
    decreases rs
  {
    if rs == [] then bs else Run(Perform(bs, rs[0]), rs[1..])
  }

  predicate FreesLiveOnly(bs: seq<Block>, rs: seq<Request>)
    decreases rs
  {
    rs != [] ==> FreesLive(bs, rs[0]) && FreesLiveOnly(Perform(bs, rs[0]), rs[1..])
  }

  predicate NoRemainders(bs: seq<Block>, rs: seq<Request>)
    decreases rs
  {
    rs != [] ==> NoRemainder(bs, rs[0]) && NoRemainders(Perform(bs, rs[0]), rs[1..])
  }

  /** The heap is well formed after every request of the run. */
  predicate StaysWellFormed(bs: seq<Block>, rs: seq<Request>)
    decreases rs
  {
    rs != [] ==> WellFormed(Perform(bs, rs[0])) && StaysWellFormed(Perform(bs, rs[0]), rs[1..])
  }

  lemma {:induction false} IndexOfLive(bs: seq<Block>, a: int, p: (int, int))
    requires Sized(bs) && p in Live(bs, a)
    ensures var i := IndexAt(bs, a, p.0);
            i < |bs| && bs[i] == Block(p.1, true) && Addr(bs, a, i) == p.0
  {
    LiveWithin(bs[1..], a + bs[0].size);
    if p.0 != a {
      var i := IndexAt(bs[1..], a + bs[0].size, p.0);
      IndexOfLive(bs[1..], a + bs[0].size, p);
      assert bs[..i + 1] == [bs[0]] + bs[1..][..i];
      TotalConcat([bs[0]], bs[1..][..i]);
      assert Total([bs[0]]) == bs[0].size;
    }
  }

  /** A request keeps the heap well formed exactly when it leaves no remainder of one to three words. */
  lemma StepKeepsIff(bs: seq<Block>, r: Request)
    requires WellFormed(bs) && FreesLive(bs, r)
    ensures WellFormed(Perform(bs, r)) <==> NoRemainder(bs, r)
  {
    hide Alloc, Release, Slack, WellFormed;
    match r
    case Get(size) =>
      if size > 0 { AllocKeepsIff(bs, size + HEADER_WORDS); }
    case Put(ptr) =>
      if ptr != 0 { PutFrees(bs, ptr); }
  }

  lemma PutFrees(bs: seq<Block>, ptr: int)
    requires WellFormed(bs) && ptr != 0 && IsLive(bs, ptr)
    ensures var i := IndexAt(bs, HEAP_START, ptr - HEADER_WORDS);
            i < |bs| && Perform(bs, Put(ptr)) == Release(bs, i) && WellFormed(Release(bs, i))
  {
    var p :| p in Live(bs, HEAP_START) && p.0 == ptr - HEADER_WORDS;
    IndexOfLive(bs, HEAP_START, p);
    ReleaseKeeps(bs, IndexAt(bs, HEAP_START, p.0));
  }

  /** In any run that frees live pointers only, the blocks always cover the heap exactly, without free neighbours,
      if and only if no allocation leaves a remainder of one to three words. */
  lemma {:induction false} RunKeepsIff(bs: seq<Block>, rs: seq<Request>)
    requires WellFormed(bs) && FreesLiveOnly(bs, rs)
    ensures StaysWellFormed(bs, rs) <==> NoRemainders(bs, rs)
    ensures StaysWellFormed(bs, rs) ==> WellFormed(Run(bs, rs))
    decreases rs
  {
    hide WellFormed, Perform, NoRemainder, FreesLive;
    if rs != [] {
      StepKeepsIff(bs, rs[0]);
      if NoRemainder(bs, rs[0]) { RunKeepsIff(Perform(bs, rs[0]), rs[1..]); }
    }
  }

  // ---- Requests of 2 modulo 4 words never leave a remainder

  /** Every requested size is 2 modulo 4. */
  predicate TwoModFour(rs: seq<Request>) {
    forall i :: 0 <= i < |rs| && rs[i].Get? && rs[i].size > 0 ==> rs[i].size % 4 == 2
  }

  lemma StepKeepsQuarters(bs: seq<Block>, r: Request)
    requires WellFormed(bs) && Quarters(bs) && FreesLive(bs, r) && (r.Get? && r.size > 0 ==> r.size % 4 == 2)
    ensures NoRemainder(bs, r) && Quarters(Perform(bs, r))
  {
    match r
    case Get(size) =>
      if size > 0 { AllocKeepsQuarters(bs, size + HEADER_WORDS); }
    case Put(ptr) =>
      if ptr != 0 {
        PutFrees(bs, ptr);
        ReleaseKeepsQuarters(bs, IndexAt(bs, HEAP_START, ptr - HEADER_WORDS));
      }
  }

  lemma {:induction false} TwoModFourKeeps(bs: seq<Block>, rs: seq<Request>)
    requires WellFormed(bs) && Quarters(bs) && FreesLiveOnly(bs, rs) && TwoModFour(rs)
    ensures NoRemainders(bs, rs)
    decreases rs
  {
    hide WellFormed, Quarters, Perform, NoRemainder, FreesLive;
    if rs != [] {
      StepKeepsQuarters(bs, rs[0]);
      StepKeepsIff(bs, rs[0]);
      assert forall i :: 0 <= i < |rs[1..]| ==> rs[1..][i] == rs[i + 1];
      TwoModFourKeeps(Perform(bs, rs[0]), rs[1..]);
    }
  }

  // ---- What a history leaves behind

  /** A run from the initial heap that frees live pointers only and leaves no remainders. */
  predicate CleanHistory(rs: seq<Request>) { FreesLiveOnly(INITIAL, rs) && NoRemainders(INITIAL, rs) }

  /** Two runs that leave the same live allocations leave the same heap, whatever they did and in whatever order. */
  lemma HistoryIndependent(rs: seq<Request>, qs: seq<Request>)
    requires CleanHistory(rs) && CleanHistory(qs)
    requires Live(Run(INITIAL, rs), HEAP_START) == Live(Run(INITIAL, qs), HEAP_START)
    ensures Run(INITIAL, rs) == Run(INITIAL, qs)
  {
    InitialFacts();
    RunKeepsIff(INITIAL, rs);
    RunKeepsIff(INITIAL, qs);
    Canonical(Run(INITIAL, rs), Run(INITIAL, qs), HEAP_START);
  }

  lemma InitialFacts()
    ensures WellFormed(INITIAL) && Quarters(INITIAL) && Live(INITIAL, HEAP_START) == {}
  {
    assert Total(INITIAL) == HEAP_SIZE;
  }

  /** Once everything is freed, the heap is the single block it started as. */
  lemma AllFreed(rs: seq<Request>)
    requires CleanHistory(rs) && Live(Run(INITIAL, rs), HEAP_START) == {}
    ensures Run(INITIAL, rs) == INITIAL
  {
    InitialFacts();
    assert Run(INITIAL, []) == INITIAL;
    HistoryIndependent(rs, []);
  }

  /** One request of 0xCFFD words leaves one word over: the block list no longer covers the heap, and freeing
      the block again does not bring the word back. */
  lemma SpareWordIsLost()
    ensures var bs := Alloc(INITIAL, 0xCFFD + HEADER_WORDS);
            Slack(INITIAL, 0xCFFD + HEADER_WORDS) == 1 && !WellFormed(bs)
            && |bs| == 1 && Total(Release(bs, 0)) == HEAP_SIZE - 1
  {
    var bs := Alloc(INITIAL, 0xCFFD + HEADER_WORDS);
    assert FirstFit(INITIAL, 0xCFFD + HEADER_WORDS) == 0;
    assert bs == [Block(0xCFFF, true)];
    assert Total(bs) == 0xCFFF;
    assert Release(bs, 0) == [Block(0xCFFF, false)];
  }
}
