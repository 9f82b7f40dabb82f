/** Byte and halfword accesses, seen on the four bytes of a word. */
module MemoryBytes {
  import opened Words
  import opened Memory
  import Bits

  const MEM_WORDS := 0x400_0000

  /** 256^k for the four bytes of a word. */
  function Weight(k: nat): (w: nat)
    requires k < 4
    ensures w > 0
  {
    match k
    case 0 => 1
    case 1 => 0x100
    case 2 => 0x1_0000
    case _ => 0x100_0000
  }

  function Byte(w: Word, k: nat): (b: nat)
    requires k < 4
    ensures b < 0x100
  {
    w / Weight(k) % 0x100
  }

  lemma Halves(w: Word)
    ensures w % 0x1_0000 == Byte(w, 0) + 0x100 * Byte(w, 1) && w / 0x1_0000 == Byte(w, 2) + 0x100 * Byte(w, 3)
  {
    LowHalf(w);
    LowHalf(w / 0x1_0000);
    assert w / 0x1_0000 / 0x100 == w / 0x100_0000;
  }

  lemma LowHalf(x: nat)
    ensures x % 0x1_0000 == x % 0x100 + 0x100 * (x / 0x100 % 0x100)
  {
    var q := x / 0x100;
    Bits.DivUnique(x, 0x1_0000, q / 0x100, x % 0x100 + 0x100 * (q % 0x100));
  }

  /** A word is its four bytes. */
  lemma FourBytes(w: Word)
    ensures w == Byte(w, 0) + 0x100 * Byte(w, 1) + 0x1_0000 * Byte(w, 2) + 0x100_0000 * Byte(w, 3)
  {
    Halves(w);
    hide Byte;
  }

  lemma ByteIs(w: Word, k: nat, low: nat, b: nat, high: nat)
    requires k < 4 && low < Weight(k) && b < 0x100 && w == (b + 0x100 * high) * Weight(k) + low
    ensures Byte(w, k) == b
  {
    Bits.DivUnique(w, Weight(k), b + 0x100 * high, low);
    Bits.DivUnique(b + 0x100 * high, 0x100, high, b);
  }

  lemma BytesOf(w: Word, b0: nat, b1: nat, b2: nat, b3: nat)
    requires b0 < 0x100 && b1 < 0x100 && b2 < 0x100 && b3 < 0x100
    requires w == b0 + 0x100 * b1 + 0x1_0000 * b2 + 0x100_0000 * b3
    ensures Byte(w, 0) == b0 && Byte(w, 1) == b1 && Byte(w, 2) == b2 && Byte(w, 3) == b3
  {
    hide Byte;
    ByteIs(w, 0, 0, b0, b1 + 0x100 * b2 + 0x1_0000 * b3);
    ByteIs(w, 1, b0, b1, b2 + 0x100 * b3);
    ByteIs(w, 2, b0 + 0x100 * b1, b2, b3);
    ByteIs(w, 3, b0 + 0x100 * b1 + 0x1_0000 * b2, b3, 0);
  }

  lemma WeightedParts(w: Word)
    ensures w / 0x100 == Byte(w, 1) + 0x100 * Byte(w, 2) + 0x1_0000 * Byte(w, 3) && w % 0x100 == Byte(w, 0)
    ensures w / 0x100_0000 == Byte(w, 3) && w % 0x100_0000 == Byte(w, 0) + 0x100 * Byte(w, 1) + 0x1_0000 * Byte(w, 2)
  {
    FourBytes(w);
    var b0, b1, b2, b3 := Byte(w, 0), Byte(w, 1), Byte(w, 2), Byte(w, 3);
    hide Byte;
    Bits.DivUnique(w, 0x100, b1 + 0x100 * b2 + 0x1_0000 * b3, b0);
    Bits.DivUnique(w, 0x100_0000, b3, b0 + 0x100 * b1 + 0x1_0000 * b2);
  }

  // ---- Stores

  lemma ByteReplaced(w: Word, val: Word, lane: nat)
    requires lane < 4
    ensures var r := ReplaceLane(w, val, Weight(lane), 0x100);
            forall k: nat :: k < 4 ==> Byte(r, k) == if k == lane then val % 0x100 else Byte(w, k)
  {
    var b0, b1, b2, b3, v := Byte(w, 0), Byte(w, 1), Byte(w, 2), Byte(w, 3), val % 0x100;
    var r := ReplaceLane(w, val, Weight(lane), 0x100);
    FourBytes(w);
    WeightedParts(w);
    hide Byte;
    match lane
    case 0 => BytesOf(r, v, b1, b2, b3);
    case 1 => BytesOf(r, b0, v, b2, b3);
    case 2 => BytesOf(r, b0, b1, v, b3);
    case _ => BytesOf(r, b0, b1, b2, v);
  }

  lemma HalfReplaced(w: Word, val: Word, lane: nat)
    requires lane == 0 || lane == 2
    ensures var r := ReplaceLane(w, val, Weight(lane), 0x1_0000);
            forall k: nat :: k < 4 ==> Byte(r, k) == if lane <= k < lane + 2 then Byte(val, k - lane) else Byte(w, k)
  {
    var r := ReplaceLane(w, val, Weight(lane), 0x1_0000);
    Halves(w);
    Halves(val);
    hide Byte;
    if lane == 0 {
      BytesOf(r, Byte(val, 0), Byte(val, 1), Byte(w, 2), Byte(w, 3));
    } else {
      BytesOf(r, Byte(w, 0), Byte(w, 1), Byte(val, 0), Byte(val, 1));
    }
  }

  /** The first byte of the access within its word. */
  function Lane(a: Word, size: nat): (l: nat)
    ensures l < 4
  {
    if size == 0 then a % 4 else if size == 1 then a % 4 / 2 * 2 else 0
  }

  function Width(size: nat): nat { if size == 0 then 1 else if size == 1 then 2 else 4 }

  /** SB, SH and SW replace the one, two or four bytes that they address by the low bytes of the value, and leave all
      other bytes and words alone. */
  lemma StoredBytes(m: Mem, a: Word, size: nat, val: Word, i: nat, k: nat)
    requires i < MEM_WORDS && k < 4
    ensures var r, l := StoreValue(m, a, size, val), Lane(a, size);
            Byte(r[i], k) == if i == a % MEM_WORDS && l <= k < l + Width(size) then Byte(val, k - l) else Byte(m[i], k)
  {
    hide ReplaceLane, Byte;
    if size == 0 {
      UnitIsWeight(a, 0);
      ByteReplaced(m[Index(a)], val, a % 4);
      LowestByte(val);
    } else if size == 1 {
      UnitIsWeight(a, 1);
      HalfReplaced(m[Index(a)], val, a % 4 / 2 * 2);
    }
  }

  lemma UnitIsWeight(a: Word, size: nat)
    requires size <= 1
    ensures LaneUnit(a, size) == Weight(Lane(a, size))
  {
  }

  lemma LowestByte(val: Word)
    ensures Byte(val, 0) == val % 0x100
  {
  }

  // ---- Loads

  /** The number that the addressed bytes form. */
  function Loaded(m: Mem, a: Word, size: nat): nat {
    var w, l := m[a % MEM_WORDS], Lane(a, size);
    if size == 0 then Byte(w, l)
    else if size == 1 then Byte(w, l) + 0x100 * Byte(w, l + 1)
    else Byte(w, 0) + 0x100 * Byte(w, 1) + 0x1_0000 * Byte(w, 2) + 0x100_0000 * Byte(w, 3)
  }

  lemma LaneLoads(w: Word, lane: nat)
    requires lane < 4
    ensures w / Weight(lane) % 0x100 == Byte(w, lane)
    ensures lane == 0 || lane == 2 ==> w / Weight(lane) % 0x1_0000 == Byte(w, lane) + 0x100 * Byte(w, lane + 1)
  {
    LowHalf(w / Weight(lane));
    assert w / 0x1_0000 / 0x100 == w / 0x100_0000;
  }

  /** LBU, LHU and LW give the number that the addressed bytes form; LB and LH its two's-complement reading. */
  lemma LoadedBytes(m: Mem, a: Word, size: nat)
    ensures LoadValue(m, a, size, false) == Loaded(m, a, size)
    ensures var v, half := Loaded(m, a, size), if size == 0 then 0x80 else if size == 1 then 0x8000 else 0x8000_0000;
            ToSigned(LoadValue(m, a, size, true)) == if v < half then v else v - 2 * half
  {
    var w := m[Index(a)];
    FourBytes(w);
    if size <= 1 {
      UnitIsWeight(a, size);
      LaneLoads(w, Lane(a, size));
    }
    hide Byte, Weight;
  }

  /** A load of the size of the store before it gives back the low bits. */
  lemma LoadAfterStore(m: Mem, a: Word, size: nat, val: Word)
    ensures LoadValue(StoreValue(m, a, size, val), a, size, false)
         == if size == 0 then val % 0x100 else if size == 1 then val % 0x1_0000 else val
  {
    var r, l := StoreValue(m, a, size, val), Lane(a, size);
    LoadedBytes(r, a, size);
    StoredBytes(m, a, size, val, a % MEM_WORDS, l);
    if l < 3 { StoredBytes(m, a, size, val, a % MEM_WORDS, l + 1); }
    FourBytes(val);
    LowBytes(val);
    hide StoreValue, LoadValue, Byte;
    if size > 1 { WordStored(m, a, size, val); }
  }

  lemma WordStored(m: Mem, a: Word, size: nat, val: Word)
    requires size > 1
    ensures StoreValue(m, a, size, val)[a % MEM_WORDS] == val
  {
  }

  lemma LowBytes(val: Word)
    ensures val % 0x100 == Byte(val, 0) && val % 0x1_0000 == Byte(val, 0) + 0x100 * Byte(val, 1)
  {
  }
}
