/** Word-addressed memory with byte and halfword lanes, as the MEM stage reads and writes it. */
module Memory {
  import opened Words
  import opened Isa

  // `len(self.mem)` is a power of two, so `& (len(self.mem) - 1)` is a remainder.
  type Mem = m: seq<Word> | |m| == MEM_SIZE witness seq(MEM_SIZE, (i: int) => 0)

  function Index(a: int): (i: nat)
    ensures i < MEM_SIZE
  {
    a % MEM_SIZE
  }

  /** The weight of the lowest bit of the lane that an access of this size uses. */
  function LaneUnit(a: Word, size: nat): (unit: nat)
    ensures unit in {1, 0x100, 0x1_0000, 0x100_0000}
    ensures size != 0 ==> unit in {1, 0x1_0000}
  {
    if size == 0 then (match a % 4 case 0 => 1 case 1 => 0x100 case 2 => 0x1_0000 case _ => 0x100_0000)
    else if a % 4 >= 2 then 0x1_0000 else 1
  }

  function LoadValue(m: Mem, a: Word, size: nat, signed: bool): Word {
    var raw := m[Index(a)];
    if size == 0 then
      var data := raw / LaneUnit(a, 0) % 0x100;
      if signed && data >= 0x80 then data + 0xFFFF_FF00 else data
    else if size == 1 then
      var data := raw / LaneUnit(a, 1) % 0x1_0000;
      if signed && data >= 0x8000 then data + 0xFFFF_0000 else data
    else raw
  }

  /** The word with the `width`-valued digit of weight `unit` replaced by the low bits of val. */
  function ReplaceLane(word: Word, val: Word, unit: nat, width: nat): Word
    requires (width == 0x100 && unit in {1, 0x100, 0x1_0000, 0x100_0000})
             || (width == 0x1_0000 && unit in {1, 0x1_0000})
  {
    if width == 0x100 then
      if unit == 1 then word / 0x100 * 0x100 + val % 0x100
      else if unit == 0x100 then word / 0x1_0000 * 0x1_0000 + val % 0x100 * 0x100 + word % 0x100
      else if unit == 0x1_0000 then word / 0x100_0000 * 0x100_0000 + val % 0x100 * 0x1_0000 + word % 0x1_0000
      else val % 0x100 * 0x100_0000 + word % 0x100_0000
    else if unit == 1 then word / 0x1_0000 * 0x1_0000 + val % 0x1_0000
    else val % 0x1_0000 * 0x1_0000 + word % 0x1_0000
  }

  function StoreValue(m: Mem, a: Word, size: nat, val: Word): Mem {
    var i := Index(a);
    if size == 0 then m[i := ReplaceLane(m[i], val, LaneUnit(a, 0), 0x100)]
    else if size == 1 then m[i := ReplaceLane(m[i], val, LaneUnit(a, 1), 0x1_0000)]
    else m[i := val]
  }
}
