/** The translation cache as the simulator writes it: a search over the entries, a walk on a miss, and the
    replacement of the entry with the smallest stamp. */
module TlbModel {
  import opened Wrappers
  import opened Tlb

  class Model {
    var entries: seq<Option<Entry>>
    var lru: seq<nat>
    var clock: nat
    var misses: nat
    var hits: nat
    var flushes: nat

    ghost function Value(): Cache
      reads this
    {
      Cache(entries, lru, clock)
    }

    constructor ()
      ensures Value() == Cache(NoEntries(), NoStamps(), 0) && Sound(Value())
      ensures misses == 0 && hits == 0 && flushes == 0
    {
      entries, lru, clock := NoEntries(), NoStamps(), 0;
      misses, hits, flushes := 0, 0, 0;
    }

    method Flush()
      modifies this
      ensures Value() == Tlb.Flush(old(Value())) && Sound(Value())
      ensures flushes == old(flushes) + 1 && hits == old(hits) && misses == old(misses)
    {
      entries := NoEntries();
      lru := NoStamps();
      flushes := flushes + 1;
    }

    /** `_lru.index(min(_lru))`. */
    method FindOldest() returns (k: nat)
      requires lru != []
      ensures k == Oldest(lru)
    {
      k := 0;
      var j := 1;
      while j < |lru|
        invariant 0 <= k < j <= |lru|
        invariant forall n :: 0 <= n < j ==> lru[k] <= lru[n] && (n < k ==> lru[k] < lru[n])
      {
        if lru[j] < lru[k] {
          k := j;
        }
        j := j + 1;
      }
    }

    method TranslateAddress(a: Access) returns (pa: Option<nat>)
      requires Shaped(Value())
      modifies this
      ensures (Value(), pa) == Translate(old(Value()), a)
      ensures misses == old(misses) + if Find(old(entries), Vpn(a)) < ENTRIES then 0 else 1
      ensures hits == old(hits) + if Find(old(entries), Vpn(a)) < ENTRIES && pa.Some? then 1 else 0
    {
      var vpn, offset := a.va / PAGE_SIZE, a.va % PAGE_SIZE;
      clock := clock + 1;
      var i := 0;
      while i < |entries|
        invariant 0 <= i <= |entries| && entries == old(entries) && lru == old(lru) && clock == old(clock) + 1
        invariant hits == old(hits) && misses == old(misses)
        invariant forall j :: 0 <= j < i ==> !Matches(entries[j], vpn)
      {
        if entries[i].Some? && entries[i].value.vpn == vpn && IsValid(entries[i].value.flags) {
          var e := entries[i].value;
          if a.write && e.flags / 4 % 2 == 0 {
            return None;
          }
          if a.exec && e.flags / 8 % 2 == 0 {
            return None;
          }
          lru := lru[i := clock];
          hits := hits + 1;
          return Some(e.pfn * PAGE_SIZE + offset);
        }
        i := i + 1;
      }
      misses := misses + 1;
      var pteAddr := a.ptbr + vpn;
      if pteAddr >= |a.mem| {
        return None;
      }
      var pte := a.mem[pteAddr];
      var flags, pfn := pte % 16, pte / PAGE_SIZE;
      if !IsValid(flags) {
        return None;
      }
      var k := FindOldest();
      entries := entries[k := Some(Entry(vpn, pfn, flags))];
      lru := lru[k := clock];
      if a.write && flags / 4 % 2 == 0 {
        return None;
      }
      if a.exec && flags / 8 % 2 == 0 {
        return None;
      }
      pa := Some(pfn * PAGE_SIZE + offset);
    }
  }
}
