/** The kernel heap in memory: block headers inside one word array, walked and rewritten in place. */
module Heap {
  import opened Blocks

  const BLOCK_FREE := 0
  const BLOCK_USED := 1
  const INT_MAX := 0x7FFF_FFFF

  function Flag(b: Block): int { if b.used then BLOCK_USED else BLOCK_FREE }

  /** The headers of bs stand in m, one block directly behind the other, from address a on. */
  ghost predicate Tiles(m: seq<int>, a: int, bs: seq<Block>)
    decreases bs
  {
    bs != [] ==>
      && bs[0].size >= HEADER_WORDS && 0 <= a && a + 1 < |m|
      && m[a] == bs[0].size && m[a + 1] == Flag(bs[0])
      && Tiles(m, a + bs[0].size, bs[1..])
  }

  lemma {:induction false} TilesConcat(m: seq<int>, a: int, xs: seq<Block>, ys: seq<Block>)
    ensures Tiles(m, a, xs + ys) <==> Tiles(m, a, xs) && Tiles(m, a + Total(xs), ys)
    decreases xs
  {
    if xs == [] {
      assert xs + ys == ys;
    } else {
      assert (xs + ys)[1..] == xs[1..] + ys;
      TilesConcat(m, a + xs[0].size, xs[1..], ys);
    }
  }

  lemma {:induction false} TilesSized(m: seq<int>, a: int, bs: seq<Block>)
    requires Tiles(m, a, bs)
    ensures Sized(bs) && Total(bs) >= 0
    decreases bs
  {
    if bs != [] { TilesSized(m, a + bs[0].size, bs[1..]); }
  }

  /** Headers outside the changed words stay. */
  lemma {:induction false} TilesFrame(m: seq<int>, m': seq<int>, a: int, bs: seq<Block>)
    requires Tiles(m, a, bs) && |m'| == |m|
    requires forall k :: a <= k < a + Total(bs) && 0 <= k < |m| ==> m'[k] == m[k]
    ensures Tiles(m', a, bs)
    decreases bs
  {
    if bs != [] {
      TilesSized(m, a + bs[0].size, bs[1..]);
      TilesFrame(m, m', a + bs[0].size, bs[1..]);
    }
  }

  /** The list around block i: what is before, the block, what is behind. */
  lemma TilesAround(m: seq<int>, a: int, bs: seq<Block>, i: nat)
    requires Tiles(m, a, bs) && i < |bs|
    ensures Tiles(m, a, bs[..i]) && Tiles(m, Addr(bs, a, i), [bs[i]])
            && Tiles(m, Addr(bs, a, i) + bs[i].size, bs[i + 1..])
    ensures Addr(bs, a, i) + bs[i].size == Addr(bs, a, i + 1)
            && Total(bs) == Total(bs[..i]) + bs[i].size + Total(bs[i + 1..])
    ensures 0 <= Addr(bs, a, i) && Addr(bs, a, i) + 1 < |m| && bs[i].size >= HEADER_WORDS
    ensures m[Addr(bs, a, i)] == bs[i].size && m[Addr(bs, a, i) + 1] == Flag(bs[i])
    ensures a <= Addr(bs, a, i) && 0 <= Total(bs[i + 1..])
  {
    AroundBlock(bs, i, a);
    TilesConcat(m, a, bs[..i] + [bs[i]], bs[i + 1..]);
    TilesConcat(m, a, bs[..i], [bs[i]]);
    TotalConcat(bs[..i], [bs[i]]);
    assert bs[..i + 1] == bs[..i] + [bs[i]] && Total([bs[i]]) == bs[i].size;
    TilesSized(m, a, bs[..i]);
    TilesSized(m, Addr(bs, a, i) + bs[i].size, bs[i + 1..]);
  }

  /** Replacing block i by the blocks c: the headers of c are written, and no word outside block i changes. */
  lemma TilesReplaced(m: seq<int>, m': seq<int>, a: int, bs: seq<Block>, i: nat, c: seq<Block>)
    requires Tiles(m, a, bs) && i < |bs| && |m'| == |m| && Tiles(m', Addr(bs, a, i), c) && Total(c) == bs[i].size
    requires forall k :: 0 <= k < |m| && !(Addr(bs, a, i) <= k < Addr(bs, a, i) + bs[i].size) ==> m'[k] == m[k]
    ensures Tiles(m', a, bs[..i] + c + bs[i + 1..])
  {
    hide Tiles, Total;
    TilesAround(m, a, bs, i);
    var at := Addr(bs, a, i);
    TilesFrame(m, m', a, bs[..i]);
    TilesFrame(m, m', at + bs[i].size, bs[i + 1..]);
    TilesConcat(m', a, bs[..i], c);
    TotalConcat(bs[..i], c);
    TilesConcat(m', a, bs[..i] + c, bs[i + 1..]);
  }

  /** Two free neighbours become one by adding their sizes into the first header. */
  lemma TilesJoined(m: seq<int>, m': seq<int>, a: int, bs: seq<Block>, i: nat)
    requires Tiles(m, a, bs) && i + 1 < |bs| && !bs[i].used && 0 <= Addr(bs, a, i) < |m|
    requires m' == m[Addr(bs, a, i) := bs[i].size + bs[i + 1].size]
    ensures Tiles(m', a, Join(bs, i))
  {
    var at := Addr(bs, a, i);
    var c := Block(bs[i].size + bs[i + 1].size, false);
    var rest := bs[i + 2..];
    assert Total([c]) == c.size;
    TilesAround(m, a, bs, i);
    TilesAround(m, a, bs, i + 1);
    OneTile(m', at, c);
    hide Tiles, Total, Addr;
    TilesFrame(m, m', a, bs[..i]);
    TilesFrame(m, m', at + c.size, rest);
    TotalConcat(bs[..i], [c]);
    TilesConcat(m', a, bs[..i], [c]);
    TilesConcat(m', a, bs[..i] + [c], rest);
    EndOf(bs, a, i);
  }

  lemma EndOf(bs: seq<Block>, a: int, i: nat)
    requires i <= |bs|
    ensures Addr(bs, a, i) == a + Total(bs[..i])
  {
  }

  lemma OneTile(m: seq<int>, a: int, b: Block)
    requires 0 <= a && a + 1 < |m| && b.size >= HEADER_WORDS && m[a] == b.size && m[a + 1] == Flag(b)
    ensures Tiles(m, a, [b])
  {
  }

  /** Words of live allocations, headers included, are outside every free block. */
  lemma LiveApart(bs: seq<Block>, a: int, i: nat, p: (int, int))
    requires Sized(bs) && i < |bs| && !bs[i].used && p in Live(bs, a)
    ensures p.0 + p.1 <= Addr(bs, a, i) || Addr(bs, a, i) + bs[i].size <= p.0
  {
    AroundBlock(bs, i, a);
    LiveWithin(bs[..i], a);
    LiveWithin(bs[i + 1..], Addr(bs, a, i) + bs[i].size);
  }

  lemma AddrBound(bs: seq<Block>, i: nat)
    requires Sized(bs) && Total(bs) == HEAP_SIZE && i <= |bs|
    ensures HEAP_START <= Addr(bs, HEAP_START, i) <= HEAP_END && (Addr(bs, HEAP_START, i) < HEAP_END <==> i < |bs|)
  {
    assert bs == bs[..i] + bs[i..];
    TotalConcat(bs[..i], bs[i..]);
    LiveWithin(bs[..i], 0);
    if i < |bs| { LiveWithin(bs[i + 1..], 0); assert bs[i..][1..] == bs[i + 1..]; }
  }

  lemma CarvedTiles(m: seq<int>, at: int, b: Block, need: int)
    requires 0 <= at && at + 1 < |m| && need >= HEADER_WORDS && m[at] == need && m[at + 1] == BLOCK_USED
    requires b.size > need + HEADER_WORDS + 1 ==>
               at + need + 1 < |m| && m[at + need] == b.size - need && m[at + need + 1] == BLOCK_FREE
    ensures Tiles(m, at, Carve(b, need))
  {
    var c := Carve(b, need);
    if b.size > need + HEADER_WORDS + 1 {
      assert c[1..] == [Block(b.size - need, false)];
      assert Tiles(m, at + need, c[1..]);
    } else {
      assert c[1..] == [];
    }
  }

  /** The words that allocating from block i changes, and that they are the new headers. */
  lemma Allocated(m: seq<int>, m': seq<int>, bs: seq<Block>, need: int)
    requires Tiles(m, HEAP_START, bs) && need >= HEADER_WORDS && |m'| == |m| >= HEAP_END && WellFormed(bs)
    requires FirstFit(bs, need) < |bs| && !(1 <= Slack(bs, need) <= 3)
    requires var b, at := bs[FirstFit(bs, need)], Addr(bs, HEAP_START, FirstFit(bs, need));
             && 0 <= at && at + b.size <= |m|
             && m'[at] == need && m'[at + 1] == BLOCK_USED
             && (b.size > need + HEADER_WORDS + 1 ==> m'[at + need] == b.size - need && m'[at + need + 1] == BLOCK_FREE)
             && forall k :: 0 <= k < |m| && !(at <= k < at + b.size) ==> m'[k] == m[k]
    ensures Tiles(m', HEAP_START, Alloc(bs, need))
  {
    var i := FirstFit(bs, need);
    var at, c := Addr(bs, HEAP_START, i), Carve(bs[i], need);
    CarveFacts(bs[i], need, at);
    CarvedTiles(m', at, bs[i], need);
    hide Tiles, Total, Sized, Merged;
    TilesReplaced(m, m', HEAP_START, bs, i, c);
  }

  lemma MarkedTiles(m: seq<int>, m': seq<int>, bs: seq<Block>, i: nat)
    requires Tiles(m, HEAP_START, bs) && i < |bs| && 0 <= Addr(bs, HEAP_START, i) + 1 < |m| && Sized(bs)
    requires m' == m[Addr(bs, HEAP_START, i) + 1 := BLOCK_FREE]
    ensures var r := bs[i := Block(bs[i].size, false)];
            && Tiles(m', HEAP_START, r) && Total(r) == Total(bs) && Sized(r)
            && forall k: nat :: k <= i ==> Addr(r, HEAP_START, k) == Addr(bs, HEAP_START, k)
  {
    var free := Block(bs[i].size, false);
    var r := bs[i := free];
    TilesAround(m, HEAP_START, bs, i);
    OneTile(m', Addr(bs, HEAP_START, i), free);
    assert Total([free]) == free.size;
    assert forall k: nat :: k <= i ==> r[..k] == bs[..k];
    assert r[..i] == bs[..i] && r[i + 1..] == bs[i + 1..];
    AroundBlock(r, i, HEAP_START);
    hide Tiles, Total;
    TilesReplaced(m, m', HEAP_START, bs, i, [free]);
    assert r == bs[..i] + [free] + bs[i + 1..];
  }

  lemma JoinedBlocks(m: seq<int>, m': seq<int>, bs: seq<Block>, i: nat)
    requires Tiles(m, HEAP_START, bs) && i + 1 < |bs| && !bs[i].used && !bs[i + 1].used
             && 0 <= Addr(bs, HEAP_START, i) < |m| && Sized(bs)
    requires m' == m[Addr(bs, HEAP_START, i) := bs[i].size + bs[i + 1].size]
    ensures var r := Join(bs, i);
            && Tiles(m', HEAP_START, r) && Total(r) == Total(bs) && Sized(r) && i < |r|
                && r[i] == Block(bs[i].size + bs[i + 1].size, false)
            && forall k: nat :: k <= i ==> Addr(r, HEAP_START, k) == Addr(bs, HEAP_START, k)
  {
    hide Tiles, Total;
    TilesJoined(m, m', HEAP_START, bs, i);
    JoinFacts(bs, i, HEAP_START);
    var r := Join(bs, i);
    forall j: nat | j < |r| ensures r[j].size >= HEADER_WORDS { JoinAt(bs, i, j); }
    JoinAt(bs, i, i);
    assert forall k: nat :: k <= i ==> r[..k] == bs[..k];
  }

  lemma AddrStrict(bs: seq<Block>, i: nat, j: nat)
    requires Sized(bs) && i <= |bs| && j <= |bs|
    ensures i < j ==> Addr(bs, HEAP_START, i) < Addr(bs, HEAP_START, j)
    ensures j < i ==> Addr(bs, HEAP_START, j) < Addr(bs, HEAP_START, i)
  {
    if i < j { AddrOrder(bs, i, j); } else if j < i { AddrOrder(bs, j, i); }
  }

  lemma AddrOrder(bs: seq<Block>, i: nat, j: nat)
    requires Sized(bs) && i < j <= |bs|
    ensures Addr(bs, HEAP_START, i) < Addr(bs, HEAP_START, j)
  {
    assert bs[..j] == bs[..i] + bs[i..j];
    TotalConcat(bs[..i], bs[i..j]);
    TotalGrows(bs[i..j]);
  }

  lemma StartOf(bs: seq<Block>)
    ensures Addr(bs, HEAP_START, 0) == HEAP_START
  {
  }

  lemma LiveKept(bs: seq<Block>, i: nat)
    requires WellFormed(bs) && i < |bs| && !bs[i].used
    ensures forall p | p in Live(bs, HEAP_START) ::
              p.0 + p.1 <= Addr(bs, HEAP_START, i) || Addr(bs, HEAP_START, i) + bs[i].size <= p.0
  {
    forall p | p in Live(bs, HEAP_START)
      ensures p.0 + p.1 <= Addr(bs, HEAP_START, i) || Addr(bs, HEAP_START, i) + bs[i].size <= p.0
    {
      LiveApart(bs, HEAP_START, i, p);
    }
  }

  lemma LiveCount(bs: seq<Block>, i: nat)
    requires Sized(bs) && i <= |bs|
    ensures i == 0 ==> Live(bs[..i], HEAP_START) == {}
    ensures i < |bs| ==> |Live(bs[..i + 1], HEAP_START)| == |Live(bs[..i], HEAP_START)| + if bs[i].used then 1 else 0
  {
    if i < |bs| {
      assert bs[..i + 1] == bs[..i] + [bs[i]];
      LiveConcat(bs[..i], [bs[i]], HEAP_START);
      LiveWithin(bs[..i], HEAP_START);
      var p := (Addr(bs, HEAP_START, i), bs[i].size);
      assert Live([bs[i]], p.0) == if bs[i].used then {p} else {};
      assert p !in Live(bs[..i], HEAP_START);
    }
  }

  class KernelHeap {
    const mem: array<int>
    ghost var blocks: seq<Block>

    /** The array has words for the whole heap, and its headers are those of `blocks`, which cover it. */
    ghost predicate Chained()
      reads this, mem
    {
      mem.Length >= HEAP_END && Tiles(mem[..], HEAP_START, blocks) && Sized(blocks) && Total(blocks) == HEAP_SIZE
    }

    ghost predicate Valid()
      reads this, mem
    {
      Chained() && Merged(blocks)
    }

    /** memory_init: one free block, whatever the memory held. */
    constructor (memory: array<int>)
      requires memory.Length >= HEAP_END
      modifies memory
      ensures Valid() && mem == memory && blocks == INITIAL
      ensures forall k :: 0 <= k < mem.Length && k != HEAP_START && k != HEAP_START + 1 ==> mem[k] == old(memory[k])
    {
      mem := memory;
      blocks := INITIAL;
      new;
      mem[HEAP_START] := HEAP_SIZE;
      mem[HEAP_START + 1] := BLOCK_FREE;
      InitialFacts();
    }

    /** The allocating branch: the block at cur is cut to size, and what is left over gets its own header. */
    method Take(cur: int, blockSize: int, totalNeeded: int) returns (ptr: int)
      requires Valid() && totalNeeded >= HEADER_WORDS && FirstFit(blocks, totalNeeded) < |blocks|
      requires cur == Addr(blocks, HEAP_START, FirstFit(blocks, totalNeeded)) && HEAP_START <= cur
      requires blockSize == blocks[FirstFit(blocks, totalNeeded)].size && cur + blockSize <= HEAP_END
      modifies this`blocks, mem
      ensures blocks == Alloc(old(blocks), totalNeeded) && ptr == cur + HEADER_WORDS
      ensures Valid() <==> !(1 <= Slack(old(blocks), totalNeeded) <= 3)
      ensures forall k :: 0 <= k < mem.Length && !(cur <= k < cur + blockSize) ==> mem[k] == old(mem[k])
    {
      hide Tiles, Total, Addr, Sized, Merged;
      AllocKeepsIff(blocks, totalNeeded);
      if blockSize > totalNeeded + HEADER_WORDS + 1 {
        var next := cur + totalNeeded;
        mem[next] := blockSize - totalNeeded;
        mem[next + 1] := BLOCK_FREE;
      }
      mem[cur] := totalNeeded;
      mem[cur + 1] := BLOCK_USED;
      if !(1 <= Slack(blocks, totalNeeded) <= 3) {
        Allocated(old(mem[..]), mem[..], blocks, totalNeeded);
      }
      blocks := Alloc(blocks, totalNeeded);
      ptr := cur + HEADER_WORDS;
    }

    /** First fit. A null result (0) means that no free block is large enough, or a size that is not positive.
        The heap stays valid unless one to three words are left over, where no header is written for them. */
    method Kmalloc(size: int) returns (ptr: int)
      requires Valid() && size + HEADER_WORDS <= INT_MAX
      modifies this`blocks, mem
      ensures size <= 0 ==> ptr == 0 && blocks == old(blocks)
      ensures size > 0 ==>
                var i := FirstFit(old(blocks), size + HEADER_WORDS);
                && blocks == Alloc(old(blocks), size + HEADER_WORDS)
                && ptr == if i == |old(blocks)| then 0 else Addr(old(blocks), HEAP_START, i) + HEADER_WORDS
      ensures ptr == 0 ==> mem[..] == old(mem[..])
      ensures ptr == 0 <==>
                size <= 0 || forall b :: b in old(blocks) && !b.used ==> b.size < size + HEADER_WORDS
      ensures Valid() <==> (size > 0 ==> !(1 <= Slack(old(blocks), size + HEADER_WORDS) <= 3))
      ensures forall p, k :: p in Live(old(blocks), HEAP_START) && p.0 <= k < p.0 + p.1 && 0 <= k < mem.Length ==>
              mem[k] == old(mem[k])
      ensures forall k :: 0 <= k < HEAP_START || HEAP_END <= k < mem.Length ==> mem[k] == old(mem[k])
    {
      hide Tiles, Total, Addr, Sized, Merged, Live;
      if size <= 0 {
        return 0;
      }
      var totalNeeded := size + HEADER_WORDS;
      var cur := HEAP_START;
      ghost var i := 0;
      StartOf(blocks);
      ghost var fit := FirstFit(blocks, totalNeeded);
      AllocKeepsIff(blocks, totalNeeded);
      while cur < HEAP_END
        invariant i <= fit <= |blocks| && cur == Addr(blocks, HEAP_START, i)
        invariant mem[..] == old(mem[..]) && blocks == old(blocks)
        decreases HEAP_END - cur
      {
        AddrBound(blocks, i);
        AddrBound(blocks, i + 1);
        TilesAround(mem[..], HEAP_START, blocks, i);
        var blockSize := mem[cur];
        var blockUsed := mem[cur + 1];
        if blockSize <= 0 {
          return 0;
        }
        if blockUsed == BLOCK_FREE && blockSize >= totalNeeded {
          ptr := Take(cur, blockSize, totalNeeded);
          LiveKept(old(blocks), i);
          return;
        }
        cur := cur + blockSize;
        i := i + 1;
      }
      AddrBound(blocks, i);
      return 0;
    }

    method MarkFree(header: int, ghost i: nat)
      requires Chained() && i < |blocks| && header == Addr(blocks, HEAP_START, i)
      modifies this`blocks, mem
      ensures Chained() && blocks == old(blocks)[i := Block(old(blocks)[i].size, false)]
      ensures HEAP_START <= header && header + blocks[i].size <= HEAP_END
      ensures forall k :: 0 <= k < mem.Length && k != header + 1 ==> mem[k] == old(mem[k])
      ensures forall k: nat :: k <= i ==> Addr(blocks, HEAP_START, k) == Addr(old(blocks), HEAP_START, k)
    {
      hide Tiles, Total, Addr, Sized;
      TilesAround(mem[..], HEAP_START, blocks, i);
      AddrBound(blocks, i + 1);
      mem[header + 1] := BLOCK_FREE;
      ghost var before, free := blocks, Block(blocks[i].size, false);
      blocks := blocks[i := free];
      MarkedTiles(old(mem[..]), mem[..], before, i);
    }

    method MergeNext(header: int, ghost i: nat)
      requires Chained() && i < |blocks| && header == Addr(blocks, HEAP_START, i) && !blocks[i].used
      modifies this`blocks, mem
      ensures Chained() && blocks == JoinNext(old(blocks), i) && i < |blocks| && !blocks[i].used
      ensures HEAP_START <= header && header + HEADER_WORDS <= header + blocks[i].size <= HEAP_END
      ensures forall k :: 0 <= k < mem.Length && k != header ==> mem[k] == old(mem[k])
      ensures forall k: nat :: k <= i ==> Addr(blocks, HEAP_START, k) == Addr(old(blocks), HEAP_START, k)
    {
      hide Tiles, Total, Addr, Sized;
      TilesAround(mem[..], HEAP_START, blocks, i);
      AddrBound(blocks, i + 1);
      var next := header + mem[header];
      if i + 1 < |blocks| { TilesAround(mem[..], HEAP_START, blocks, i + 1); }
      if next < HEAP_END && mem[next + 1] == BLOCK_FREE {
        mem[header] := mem[header] + mem[next];
        JoinedBlocks(old(mem[..]), mem[..], blocks, i);
        blocks := Join(blocks, i);
        TilesAround(mem[..], HEAP_START, blocks, i);
        AddrBound(blocks, i + 1);
      }
    }

    /** The walk from the start to the block that ends where `header` begins; 0 when header is the first. */
    method FindPrevious(header: int, ghost i: nat) returns (prev: int)
      requires Chained() && i < |blocks| && header == Addr(blocks, HEAP_START, i)
      ensures prev == if i > 0 then Addr(blocks, HEAP_START, i - 1) else 0
      ensures i > 0 ==> HEAP_START <= prev && prev + 1 < header < mem.Length && mem[prev + 1] == Flag(blocks[i - 1])
      ensures i > 0 ==> mem[prev] == blocks[i - 1].size && prev + blocks[i - 1].size == header
    {
      hide Tiles, Total, Addr, Sized;
      var cur := HEAP_START;
      prev := 0;
      ghost var j := 0;
      StartOf(blocks);
      AddrBound(blocks, i);
      while cur < header
        invariant j <= i && cur == Addr(blocks, HEAP_START, j) && (j == i ==> cur == header)
        invariant prev == if j == i && i > 0 then Addr(blocks, HEAP_START, i - 1) else 0
        decreases header - cur
      {
        TilesAround(mem[..], HEAP_START, blocks, j);
        AddrBound(blocks, j + 1);
        AddrStrict(blocks, j + 1, i);
        if cur + mem[cur] == header {
          prev := cur;
        }
        if mem[cur] <= 0 {
          break;
        }
        cur := cur + mem[cur];
        j := j + 1;
      }
      AddrStrict(blocks, j, i);
      if i > 0 {
        TilesAround(mem[..], HEAP_START, blocks, i - 1);
        AddrBound(blocks, i - 1);
      }
    }

    method MergePrevious(header: int, ghost i: nat) returns (ghost f: nat)
      requires Chained() && i < |blocks| && header == Addr(blocks, HEAP_START, i) && !blocks[i].used
      requires HEAP_START <= header && header + HEADER_WORDS <= header + blocks[i].size <= HEAP_END
      modifies this`blocks, mem
      ensures Chained() && blocks == JoinPrevious(old(blocks), i)
      ensures f < |blocks| && !blocks[f].used && HEAP_START <= Addr(blocks, HEAP_START, f) <= header
      ensures header + HEADER_WORDS <= Addr(blocks, HEAP_START, f) + blocks[f].size
      ensures forall k :: 0 <= k < mem.Length && k != Addr(blocks, HEAP_START, f) ==> mem[k] == old(mem[k])
    {
      hide Tiles, Total, Addr, Sized;
      f := i;
      var prev := FindPrevious(header, i);
      if prev != 0 && mem[prev + 1] == BLOCK_FREE {
        f := i - 1;
        TilesAround(mem[..], HEAP_START, blocks, i);
        mem[prev] := mem[prev] + mem[header];
        JoinedBlocks(old(mem[..]), mem[..], blocks, i - 1);
        blocks := Join(blocks, i - 1);
        assert Addr(blocks, HEAP_START, i - 1) == prev;
      }
    }

    /** Frees a live allocation: its block is marked, joined with a free block behind it, and then with a free
        block before it, which is found by walking from the start. Freeing 0 does nothing. */
    method Kfree(ptr: int)
      requires Valid() && (ptr == 0 || IsLive(blocks, ptr))
      modifies this`blocks, mem
      ensures Valid() && blocks == Perform(old(blocks), Put(ptr))
      ensures ptr == 0 ==> mem[..] == old(mem[..])
      ensures ptr != 0 ==> exists p :: p in Live(old(blocks), HEAP_START) && p.0 == ptr - HEADER_WORDS
                                       && Live(blocks, HEAP_START) == Live(old(blocks), HEAP_START) - {p}
      ensures forall p, k :: p in Live(blocks, HEAP_START) && p.0 <= k < p.0 + p.1 && 0 <= k < mem.Length ==>
              mem[k] == old(mem[k])
      ensures forall k :: 0 <= k < HEAP_START || HEAP_END <= k < mem.Length ==> mem[k] == old(mem[k])
    {
      hide Tiles, Total, Addr, Sized, Merged, Live, JoinNext;
      if ptr == 0 {
        return;
      }
      var header := ptr - HEADER_WORDS;
      ghost var p :| p in Live(blocks, HEAP_START) && p.0 == header;
      ghost var i := IndexAt(blocks, HEAP_START, header);
      IndexOfLive(blocks, HEAP_START, p);
      ReleaseKeeps(blocks, i);
      MarkFree(header, i);
      MergeNext(header, i);
      ghost var f := MergePrevious(header, i);
      LiveKept(blocks, f);
    }

    /** heap_stats: counts of free and used blocks, found by walking the headers. */
    method HeapStats() returns (free: int, used: int)
      requires Valid()
      ensures used == |Live(blocks, HEAP_START)| && free + used == |blocks|
    {
      hide Tiles, Total, Addr, Sized, Live;
      var cur := HEAP_START;
      free, used := 0, 0;
      ghost var i := 0;
      StartOf(blocks);
      LiveCount(blocks, 0);
      while cur < HEAP_END
        invariant i <= |blocks| && cur == Addr(blocks, HEAP_START, i)
        invariant used == |Live(blocks[..i], HEAP_START)| && free + used == i
        decreases HEAP_END - cur
      {
        AddrBound(blocks, i);
        TilesAround(mem[..], HEAP_START, blocks, i);
        LiveCount(blocks, i);
        if mem[cur] <= 0 {
          break;
        }
        if mem[cur + 1] == BLOCK_FREE {
          free := free + 1;
        } else {
          used := used + 1;
        }
        cur := cur + mem[cur];
        i := i + 1;
      }
      AddrBound(blocks, i);
      assert blocks[..i] == blocks;
    }
  }

  /** kmemcpy copies as if through a buffer, also when the two ranges overlap. */
  method Kmemcpy(mem: array<int>, dst: int, src: int, n: int)
    requires dst != 0 && src != 0 && n > 0 ==> 0 <= dst && dst + n <= mem.Length && 0 <= src && src + n <= mem.Length
    modifies mem
    ensures dst == 0 || src == 0 || n <= 0 ==> mem[..] == old(mem[..])
    ensures dst != 0 && src != 0 && n > 0 ==>
              forall k :: 0 <= k < mem.Length ==>
                  mem[k] == old(if dst <= k < dst + n then mem[k - dst + src] else mem[k])
  {
    if dst == 0 || src == 0 || n <= 0 {
      return;
    }
    if dst <= src {
      var i := 0;
      while i < n
        invariant 0 <= i <= n
        invariant forall k :: 0 <= k < mem.Length ==>
                  mem[k] == old(if dst <= k < dst + i then mem[k - dst + src] else mem[k])
      {
        mem[dst + i] := mem[src + i];
        i := i + 1;
      }
    } else {
      var i := n - 1;
      while i >= 0
        invariant -1 <= i < n
        invariant forall k :: 0 <= k < mem.Length ==>
                  mem[k] == old(if dst + i < k < dst + n then mem[k - dst + src] else mem[k])
      {
        mem[dst + i] := mem[src + i];
        i := i - 1;
      }
    }
  }
}
