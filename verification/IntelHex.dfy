/** Intel HEX text: the records that the linker and the toolchain assembler write, and the loader that reads them. */
module IntelHex {
  import opened Words
  import opened Wrappers

  type Byte = b: int | 0 <= b < 256

  // ---- Bytes in hexadecimal

  function Digit(n: nat): char
    requires n < 16
  {
    if n < 10 then ('0' as int + n) as char else ('A' as int + n - 10) as char
  }

  function DigitValue(c: char): (r: Option<nat>)
    ensures r.Some? ==> r.value < 16
    ensures forall n: nat :: n < 16 && Digit(n) == c ==> r == Some(n)
  {
    if '0' <= c <= '9' then Some(c as int - '0' as int)
    else if 'A' <= c <= 'F' then Some(c as int - 'A' as int + 10)
    else if 'a' <= c <= 'f' then Some(c as int - 'a' as int + 10)
    else None
  }

  function HexOf(bs: seq<Byte>): string {
    if bs == [] then "" else [Digit(bs[0] / 16), Digit(bs[0] % 16)] + HexOf(bs[1..])
  }

  /** The ASCII white space that `strip` and `bytes.fromhex` skip. */
  predicate IsBlank(c: char) { c == ' ' || 9 <= c as int <= 13 }

  /** `bytes.fromhex`: blanks may stand between bytes; None for half a byte or any other character. */
  function FromHex(s: string): Option<seq<Byte>> {
    if s == "" then Some([])
    else if IsBlank(s[0]) then FromHex(s[1..])
    else if |s| == 1 then None
    else
      var hi :- DigitValue(s[0]);
      var lo :- DigitValue(s[1]);
      var rest :- FromHex(s[2..]);
      Some([16 * hi + lo] + rest)
  }

  lemma FromHexByte(b: Byte, rest: string)
    ensures FromHex([Digit(b / 16), Digit(b % 16)] + rest)
         == if FromHex(rest).None? then None else Some([b] + FromHex(rest).value)
  {
    var s := [Digit(b / 16), Digit(b % 16)] + rest;
    assert s[2..] == rest && DigitValue(s[0]) == Some(b / 16) && DigitValue(s[1]) == Some(b % 16);
    DigitSolid(b / 16);
    hide DigitValue, IsBlank;
  }

  lemma DigitSolid(n: nat)
    requires n < 16
    ensures !IsBlank(Digit(n))
  {
  }

  predicate Solid(s: string) { forall i :: 0 <= i < |s| ==> !IsBlank(s[i]) }

  lemma {:induction false} HexSolid(bs: seq<Byte>)
    ensures Solid(HexOf(bs))
  {
    hide IsBlank, Digit;
    if bs != [] {
      DigitSolid(bs[0] / 16);
      DigitSolid(bs[0] % 16);
      HexSolid(bs[1..]);
    }
  }

  lemma {:induction false} FromHexOf(bs: seq<Byte>)
    ensures FromHex(HexOf(bs)) == Some(bs)
  {
    hide FromHex, Digit;
    if bs == [] {
      NoDigits();
    } else {
      FromHexByte(bs[0], HexOf(bs[1..]));
      FromHexOf(bs[1..]);
      assert bs == [bs[0]] + bs[1..];
    }
  }

  lemma NoDigits()
    ensures FromHex("") == Some([])
  {
  }

  lemma {:induction false} FromHexEven(s: string)
    requires FromHex(s).Some? && Solid(s)
    ensures |s| % 2 == 0
  {
    hide IsBlank;
    if |s| >= 2 {
      assert !IsBlank(s[0]);
      FromHexEven(s[2..]);
    }
  }

  lemma {:induction false} HexConcat(x: seq<Byte>, y: seq<Byte>)
    ensures HexOf(x + y) == HexOf(x) + HexOf(y)
  {
    if x == [] {
      assert x + y == y;
    } else {
      assert (x + y)[1..] == x[1..] + y;
      HexConcat(x[1..], y);
    }
  }

  lemma {:induction false} HexLength(bs: seq<Byte>)
    ensures |HexOf(bs)| == 2 * |bs|
  {
    if bs != [] { HexLength(bs[1..]); }
  }

  function Sum(bs: seq<Byte>): nat { if bs == [] then 0 else bs[0] + Sum(bs[1..]) }

  lemma {:induction false} SumConcat(x: seq<Byte>, y: seq<Byte>)
    ensures Sum(x + y) == Sum(x) + Sum(y)
  {
    if x == [] {
      assert x + y == y;
    } else {
      assert (x + y)[1..] == x[1..] + y;
      SumConcat(x[1..], y);
    }
  }

  /** `struct.pack(">I", word)`. */
  function BigEndian(w: Word): (b: seq<Byte>)
    ensures |b| == 4
  {
    [w / 0x100_0000, w / 0x1_0000 % 256, w / 0x100 % 256, w % 256]
  }

  function WordOf(b: seq<Byte>): Word
    requires |b| == 4
  {
    b[0] as int * 0x100_0000 + b[1] as int * 0x1_0000 + b[2] as int * 0x100 + b[3] as int
  }

  lemma WordOfBigEndian(w: Word)
    ensures WordOf(BigEndian(w)) == w
  {
    var a, b, c := w / 0x100_0000, w / 0x1_0000, w / 0x100;
    assert a == b / 256 && b == c / 256;
  }

  // ---- Records

  /** The byte that brings a sum to 0 modulo 256. */
  function Negative(sum: nat): Byte { -(sum as int) % 256 }

  function Checksum(body: seq<Byte>): Byte { Negative(Sum(body)) }

  /** Length, address (its low 16 bits), type, data and checksum: sections 2 and 5 of the format. */
  function RecordBytes(byteAddr: nat, data: seq<Byte>): seq<Byte>
    requires |data| < 256
  {
    var body: seq<Byte> := [|data|, byteAddr / 256 % 256, byteAddr % 256, 0] + data;
    body + [Checksum(body)]
  }

  /** The bytes of every record sum to 0 modulo 256. */
  lemma RecordSumsToZero(byteAddr: nat, data: seq<Byte>)
    requires |data| < 256
    ensures Sum(RecordBytes(byteAddr, data)) % 256 == 0
  {
    var body: seq<Byte> := [|data|, byteAddr / 256 % 256, byteAddr % 256, 0] + data;
    SumConcat(body, [Checksum(body)]);
    assert Sum([Checksum(body)]) == Checksum(body);
  }

  /** `_ihex_record`. */
  function Record(byteAddr: nat, data: seq<Byte>): string
    requires |data| < 256
  {
    ":" + HexOf(RecordBytes(byteAddr, data))
  }

  const EOF := ":00000001FF"

  // ---- The loader

  type Image = map<int, Word>

  /** The memory read so far, the extended address, and whether the end record was seen. */
  datatype State = State(mem: Image, ext: nat, done: bool)

  const START := State(map[], 0, false)

  function PutWords(mem: Image, byteAddr: nat, data: seq<Byte>): Image
    requires |data| % 4 == 0
    decreases |data|
  {
    if data == [] then mem
    else PutWords(mem[byteAddr / 4 := WordOf(data[..4])], byteAddr + 4, data[4..])
  }

  /** One record, from its bytes; None is a load error. */
  function LoadRecord(st: State, raw: seq<Byte>): Option<State> {
    if raw == [] || |raw| <= 4 + raw[0] as int then None
    else
      var count: int := raw[0];
      var addr, data := raw[1] as int * 256 + raw[2] as int + st.ext, raw[4..4 + count];
      if Checksum(raw[..4 + count]) != raw[4 + count] then None
      else if raw[3] == 0 then
        (if |data| % 4 != 0 then None else Some(st.(mem := PutWords(st.mem, addr, data))))
      else if raw[3] == 4 then
        (if |data| != 2 then None else Some(st.(ext := (data[0] as int * 256 + data[1] as int) * 0x1_0000)))
      else if raw[3] == 1 then Some(st.(done := true))
      else Some(st)
  }

  /** Without the blanks in front. */
  function Trimmed(line: string): string { if line != "" && IsBlank(line[0]) then Trimmed(line[1..]) else line }

  /** One line; empty lines are skipped. Blanks behind the record are among those that FromHex skips. */
  function LoadLine(st: State, text: string): Option<State> {
    var line := Trimmed(text);
    if line == "" then Some(st)
    else if line[0] != ':' then None
    else
      var raw :- FromHex(line[1..]);
      LoadRecord(st, raw)
  }

  function LoadLines(st: State, lines: seq<string>): Option<State>
    decreases lines
  {
    if lines == [] || st.done then Some(st)
    else
      var next :- LoadLine(st, lines[0]);
      LoadLines(next, lines[1..])
  }

  /** `load_hex`: the map of word addresses to words. */
  function Load(lines: seq<string>): Option<Image> {
    var st :- LoadLines(START, lines);
    Some(st.mem)
  }

  // ---- What the loader rejects, and extended addresses

  /** A record is accepted only with all its bytes there and a sum of 0 modulo 256 over them; a data record then holds
      whole words and an address record two bytes. */
  lemma RecordAcceptedIff(st: State, raw: seq<Byte>)
    ensures LoadRecord(st, raw).Some? <==>
              && raw != [] && |raw| >= raw[0] as int + 5 && Sum(raw[..raw[0] as int + 5]) % 256 == 0
              && (raw[3] == 0 ==> raw[0] as int % 4 == 0) && (raw[3] == 4 ==> raw[0] == 2)
  {
    if raw != [] && |raw| >= raw[0] as int + 5 {
      var n := raw[0] as int;
      assert raw[..n + 5] == raw[..n + 4] + [raw[n + 4]];
      SumConcat(raw[..n + 4], [raw[n + 4]]);
      assert Sum([raw[n + 4]]) == raw[n + 4];
      SumsToZero(Sum(raw[..n + 4]), raw[n + 4]);
    }
  }

  lemma SumsToZero(sum: nat, b: Byte)
    ensures Negative(sum) == b <==> (sum + b) % 256 == 0
  {
  }

  /** The bytes of a data record become words, the highest byte first, one after the other from the word of the
      record's address on; all other words stay as they were. */
  lemma {:induction false} DataBytes(mem: Image, byteAddr: nat, data: seq<Byte>, a: nat)
    requires |data| % 4 == 0
    ensures var i, r := a - byteAddr / 4, PutWords(mem, byteAddr, data);
            if 0 <= i < |data| / 4 then
              a in r && r[a] == data[4 * i] as int * 0x100_0000 + data[4 * i + 1] as int * 0x1_0000
                                + data[4 * i + 2] as int * 0x100 + data[4 * i + 3] as int
            else (a in r <==> a in mem) && (a in mem ==> r[a] == mem[a])
    decreases |data|
  {
    if data != [] {
      var first := mem[byteAddr / 4 := WordOf(data[..4])];
      DataBytes(first, byteAddr + 4, data[4..], a);
      var i := a - byteAddr / 4;
      if 0 < i < |data| / 4 { NextBytes(data, i); }
    }
  }

  lemma NextBytes(data: seq<Byte>, i: nat)
    requires 0 < i && 4 * i + 4 <= |data|
    ensures var d := data[4..];
            && d[4 * i - 4] == data[4 * i] && d[4 * i - 3] == data[4 * i + 1]
            && d[4 * i - 2] == data[4 * i + 2] && d[4 * i - 1] == data[4 * i + 3]
  {
  }

  /** An accepted data record changes memory only, an address record the extended address only (65536 bytes for each
      unit), and the end record stops the loading; all others change nothing. */
  lemma RecordEffects(st: State, raw: seq<Byte>)
    requires LoadRecord(st, raw).Some?
    ensures var r := LoadRecord(st, raw).value;
            && (raw[3] == 0 ==> r == st.(mem :=
                PutWords(st.mem, raw[1] as int * 256 + raw[2] as int + st.ext, raw[4..4 + raw[0]])))
            && (raw[3] == 4 ==> r == st.(ext := 0x100_0000 * raw[4] as int + 0x1_0000 * raw[5] as int))
            && (raw[3] == 1 ==> r == st.(done := true))
            && (raw[3] != 0 && raw[3] != 1 && raw[3] != 4 ==> r == st)
  {
    hide Checksum, PutWords;
  }

  /** Behind an address record of value v, the word written for address a is loaded 2^14 * v words further on. */
  lemma ExtendedAddress(st: State, v: nat, a: nat, w: Word)
    requires v < 0x1_0000 && a < 0x4000
    ensures var raw: seq<Byte> := [2, 0, 0, 4, v / 256, v % 256];
            var ext := LoadRecord(st, raw + [Checksum(raw)]);
            && ext == Some(st.(ext := v * 0x1_0000))
            && LoadRecord(ext.value, RecordBytes(4 * a,
                BigEndian(w))) == Some(ext.value.(mem := st.mem[0x4000 * v + a := w]))
  {
    var raw: seq<Byte> := [2, 0, 0, 4, v / 256, v % 256];
    var all := raw + [Checksum(raw)];
    assert all[..6] == raw && all[4..6] == [v / 256, v % 256];
    hide Checksum, PutWords, RecordBytes;
    assert LoadRecord(st, all) == Some(st.(ext := v * 0x1_0000));
    ShiftedWord(st.(ext := v * 0x1_0000), v, a, w);
  }

  lemma ShiftedWord(st: State, v: nat, a: nat, w: Word)
    requires st.ext == v * 0x1_0000 && a < 0x4000
    ensures LoadRecord(st, RecordBytes(4 * a, BigEndian(w))) == Some(st.(mem := st.mem[0x4000 * v + a := w]))
  {
    var data, bytes := BigEndian(w), RecordBytes(4 * a, BigEndian(w));
    RecordParts(4 * a, data);
    WordPut(st.mem, 4 * (0x4000 * v + a), w);
    hide Checksum, PutWords, RecordBytes, BigEndian;
    assert bytes[1] as int * 256 + bytes[2] as int == 4 * a;
  }

  lemma WordPut(mem: Image, byteAddr: nat, w: Word)
    ensures PutWords(mem, byteAddr, BigEndian(w)) == mem[byteAddr / 4 := w]
  {
    var data := BigEndian(w);
    WordOfBigEndian(w);
    assert data[..4] == data && data[4..] == [];
    assert PutWords(mem[byteAddr / 4 := w], byteAddr + 4, []) == mem[byteAddr / 4 := w];
  }

  // ---- One record read back

  /** The parts of a record's bytes. */
  lemma RecordParts(byteAddr: nat, data: seq<Byte>)
    requires |data| < 256
    ensures var raw, n := RecordBytes(byteAddr, data), |data|;
            && |raw| == n + 5 && raw[0] == n && raw[1] == byteAddr / 256 % 256 && raw[2] == byteAddr % 256
                && raw[3] == 0
            && raw[4..4 + n] == data && raw[4 + n] == Checksum(raw[..4 + n])
  {
    hide Checksum;
    var body: seq<Byte> := [|data|, byteAddr / 256 % 256, byteAddr % 256, 0] + data;
    var raw := RecordBytes(byteAddr, data);
    assert raw == body + [Checksum(body)];
    assert raw[..4 + |data|] == body;
  }

  lemma BytesLoad(st: State, byteAddr: nat, data: seq<Byte>)
    requires |data| < 256 && |data| % 4 == 0 && st.ext == 0
    ensures LoadRecord(st, RecordBytes(byteAddr, data)) == Some(st.(mem := PutWords(st.mem, byteAddr % 0x1_0000, data)))
  {
    hide Checksum, PutWords, RecordBytes;
    var raw := RecordBytes(byteAddr, data);
    RecordParts(byteAddr, data);
    assert raw[1] as int * 256 + raw[2] as int + st.ext == byteAddr % 0x1_0000;
  }

  lemma RecordLoads(st: State, byteAddr: nat, data: seq<Byte>)
    requires |data| < 256 && |data| % 4 == 0 && st.ext == 0
    ensures LoadLine(st, Record(byteAddr, data)) == Some(st.(mem := PutWords(st.mem, byteAddr % 0x1_0000, data)))
  {
    hide FromHex, HexOf, PutWords, RecordBytes, LoadRecord;
    var raw := RecordBytes(byteAddr, data);
    FromHexOf(raw);
    assert Record(byteAddr, data)[1..] == HexOf(raw);
    BytesLoad(st, byteAddr, data);
  }

  lemma HexPair(b: Byte)
    ensures HexOf([b]) == [Digit(b / 16), Digit(b % 16)]
  {
    assert [b][1..] == [];
  }

  lemma EofBytes()
    ensures HexOf([0, 0, 0, 1, 255]) == "00000001FF" && Sum([0, 0, 0, 1]) == 1
  {
    hide Digit, DigitValue, HexOf;
    HexConcat([0, 0], [0, 1, 255]);
    HexConcat([0], [0]);
    HexConcat([0], [1, 255]);
    HexConcat([1], [255]);
    assert [0, 0] + [0, 1, 255] == [0, 0, 0, 1, 255] && [0] + [1, 255] == [0, 1, 255];
    assert [0] + [0] == [0, 0] && [1] + [255] == [1, 255];
    EofDigits();
    SumConcat([0, 0], [0, 1]);
    assert [0, 0] + [0, 1] == [0, 0, 0, 1];
  }

  lemma EofDigits()
    ensures HexOf([0]) == "00" && HexOf([1]) == "01" && HexOf([255]) == "FF"
  {
    HexPair(0);
    HexPair(1);
    HexPair(255);
    hide HexOf;
  }

  lemma EofLoads(st: State)
    ensures LoadLine(st, EOF) == Some(st.(done := true))
  {
    hide FromHex, HexOf, Sum, PutWords;
    var raw: seq<Byte> := [0, 0, 0, 1, 255];
    EofBytes();
    FromHexOf(raw);
    assert EOF[1..] == HexOf(raw);
    assert raw[..4] == [0, 0, 0, 1];
  }

  // ---- The linker's output: one record a word, in address order

  predicate KeysOf(mem: Image, keys: seq<int>) { forall i :: 0 <= i < |keys| ==> keys[i] in mem && keys[i] >= 0 }

  /** The records of the addresses in `keys`, in the order given. */
  function LinkLines(mem: Image, keys: seq<int>): seq<string>
    requires KeysOf(mem, keys)
    decreases keys
  {
    if keys == [] then [EOF] else [Record(keys[0] * 4, BigEndian(mem[keys[0]]))] + LinkLines(mem, keys[1..])
  }

  predicate Ascending(keys: seq<int>) { forall i, j :: 0 <= i < j < |keys| ==> keys[i] < keys[j] }

  /** What the loader makes of the records: address modulo 0x4000 to the word last written there. */
  function Folded(acc: Image, mem: Image, keys: seq<int>): Image
    requires KeysOf(mem, keys)
    decreases keys
  {
    if keys == [] then acc else Folded(acc[keys[0] % 0x4000 := mem[keys[0]]], mem, keys[1..])
  }

  lemma {:induction false} LinkLinesLoad(st: State, mem: Image, keys: seq<int>)
    requires !st.done && st.ext == 0 && KeysOf(mem, keys)
    ensures LoadLines(st, LinkLines(mem, keys)) == Some(State(Folded(st.mem, mem, keys), 0, true))
    decreases keys
  {
    hide LoadLine, Record, BigEndian;
    if keys == [] {
      EofLoads(st);
      assert [EOF][1..] == [];
      assert LoadLines(st.(done := true), []) == Some(st.(done := true));
    } else {
      var k, data := keys[0], BigEndian(mem[keys[0]]);
      RecordLoads(st, k * 4, data);
      OneWord(st.mem, k, mem[k]);
      LinkLinesLoad(st.(mem := st.mem[k % 0x4000 := mem[k]]), mem, keys[1..]);
    }
  }

  lemma OneWord(acc: Image, k: nat, w: Word)
    ensures PutWords(acc, k * 4 % 0x1_0000, BigEndian(w)) == acc[k % 0x4000 := w]
  {
    assert k * 4 % 0x1_0000 == k % 0x4000 * 4;
    WordPut(acc, k % 0x4000 * 4, w);
  }

  lemma {:induction false} FoldedSmall(acc: Image, mem: Image, keys: seq<int>)
    requires KeysOf(mem, keys) && forall i :: 0 <= i < |keys| ==> keys[i] < 0x4000
    ensures var r := Folded(acc, mem, keys);
            && (forall k :: k in r <==> k in acc || k in keys)
            && forall k :: k in r ==> r[k] == if k in keys then mem[k] else acc[k]
    decreases keys
  {
    if keys != [] {
      FoldedSmall(acc[keys[0] := mem[keys[0]]], mem, keys[1..]);
    }
  }

  lemma {:induction false} FoldedBelow(acc: Image, mem: Image, keys: seq<int>)
    requires KeysOf(mem, keys)
    requires forall k :: k in acc ==> 0 <= k < 0x4000
    ensures forall k :: k in Folded(acc, mem, keys) ==> 0 <= k < 0x4000
    decreases keys
  {
    if keys != [] { FoldedBelow(acc[keys[0] % 0x4000 := mem[keys[0]]], mem, keys[1..]); }
  }

  /** Loading what the linker wrote gives the linked image back exactly when every word address is below
      0x4000: a record holds 16 address bits, and no extended address record is written. */
  lemma LinkedImageLoadsIff(mem: Image, keys: seq<int>)
    requires KeysOf(mem, keys) && forall k :: k in mem ==> k in keys
    ensures Load(LinkLines(mem, keys)) == Some(mem) <==> forall k :: k in mem ==> k < 0x4000
  {
    LinkLinesLoad(START, mem, keys);
    if forall k :: k in mem ==> k < 0x4000 {
      assert forall i :: 0 <= i < |keys| ==> keys[i] in mem;
      assert forall k :: k in keys ==> k in mem;
      FoldedSmall(map[], mem, keys);
      var r := Folded(map[], mem, keys);
      assert forall k :: k in r <==> k in mem;
      assert r == mem;
    } else {
      FoldedBelow(map[], mem, keys);
    }
  }

  // ---- The toolchain assembler's output: four words a record

  /** `f"{n:04X}"`: at least four digits. */
  function Hex4(n: nat): string {
    if n < 0x1_0000 then HexOf([n / 256, n % 256]) else Hex4Long(n)
  }

  /** More digits when four are not enough. */
  function Hex4Long(n: nat): string {
    if n < 16 then [Digit(n)] else Hex4Long(n / 16) + [Digit(n % 16)]
  }

  function WordBytes(words: seq<Word>): seq<Byte> {
    if words == [] then [] else BigEndian(words[0]) + WordBytes(words[1..])
  }

  lemma {:induction false} WordBytesLength(words: seq<Word>)
    ensures |WordBytes(words)| == 4 * |words|
  {
    if words != [] { WordBytesLength(words[1..]); }
  }

  function ChunkLine(byteAddr: nat, words: seq<Word>): string
    requires |words| <= 4
  {
    WordBytesLength(words);
    var data := WordBytes(words);
    var sum := (|data| + byteAddr / 256 % 256 + byteAddr % 256 + Sum(data)) % 256;
    ":" + HexOf([|data|]) + Hex4(byteAddr) + HexOf([0]) + HexOf(data) + HexOf([(256 - sum) % 256])
  }

  /** `_write_intel_hex` from word i on. */
  function AssemblerLines(words: seq<Word>, i: nat): seq<string>
    requires i <= |words|
    decreases |words| - i
  {
    if i == |words| then [EOF]
    else
      var n := if i + 4 <= |words| then 4 else |words| - i;
      [ChunkLine(i * 4, words[i..i + n])] + AssemblerLines(words, i + n)
  }

  lemma ChunkChecksum(n: Byte, hi: Byte, lo: Byte, data: seq<Byte>)
    ensures Checksum([n, hi, lo, 0] + data) == (256 - (n as int + hi as int + lo as int + Sum(data)) % 256) % 256
  {
    hide Negative, Sum;
    var head: seq<Byte> := [n, hi, lo, 0];
    HeadSum(n, hi, lo);
    SumConcat(head, data);
    var total: nat := n as int + hi as int + lo as int + Sum(data);
    assert Sum(head + data) == total;
    NegativeIs(total);
  }

  lemma NegativeIs(x: nat)
    ensures Negative(x) == (256 - x % 256) % 256
  {
  }

  lemma ChunkDigits(n: Byte, hi: Byte, lo: Byte, data: seq<Byte>, c: Byte)
    ensures HexOf([n]) + HexOf([hi, lo]) + HexOf([0]) + HexOf(data) + HexOf([c]) == HexOf([n, hi, lo, 0] + data + [c])
  {
    hide HexOf;
    HexConcat([n], [hi, lo]);
    HexConcat([n] + [hi, lo], [0]);
    HexConcat([n] + [hi, lo] + [0], data);
    HexConcat([n] + [hi, lo] + [0] + data, [c]);
    assert [n] + [hi, lo] + [0] == [n, hi, lo, 0];
  }

  lemma ChunkIsRecord(byteAddr: nat, words: seq<Word>)
    requires |words| <= 4 && byteAddr < 0x1_0000
    ensures |WordBytes(words)| == 4 * |words| && ChunkLine(byteAddr, words) == Record(byteAddr, WordBytes(words))
  {
    WordBytesLength(words);
    hide HexOf, Sum, Checksum, WordBytes;
    var data: seq<Byte> := WordBytes(words);
    var n: Byte, hi: Byte, lo: Byte := |data|, byteAddr / 256, byteAddr % 256;
    assert byteAddr / 256 % 256 == hi;
    ChunkChecksum(n, hi, lo, data);
    var body := [n, hi, lo, 0] + data;
    assert RecordBytes(byteAddr, data) == body + [Checksum(body)];
    ChunkDigits(n, hi, lo, data, Checksum(body));
    assert Hex4(byteAddr) == HexOf([hi, lo]);
    assert ":" + HexOf([n]) + Hex4(byteAddr) + HexOf([0]) + HexOf(data) + HexOf([Checksum(body)])
        == ":" + (HexOf([n]) + HexOf([hi, lo]) + HexOf([0]) + HexOf(data) + HexOf([Checksum(body)]));
  }

  lemma HeadSum(n: Byte, hi: Byte, lo: Byte)
    ensures Sum([n, hi, lo, 0]) == n as int + hi as int + lo as int
  {
    assert [n, hi, lo, 0][1..] == [hi, lo, 0] && [hi, lo, 0][1..] == [lo, 0] && [lo, 0][1..] == [0];
    assert Sum([0]) == 0 && Sum([lo, 0]) == lo as int;
  }

  /** An address of 17 bits takes five digits, and the record an odd number of them. */
  lemma ChunkTooFar(st: State, words: seq<Word>)
    requires |words| <= 4
    ensures LoadLine(st, ChunkLine(0x1_0000, words)).None?
  {
    WordBytesLength(words);
    hide HexOf, Hex4, Sum, WordBytes, FromHex, LoadRecord;
    var data: seq<Byte> := WordBytes(words);
    var c: Byte := (256 - (|data| + Sum(data)) % 256) % 256;
    var line := ChunkLine(0x1_0000, words);
    assert line == ":" + HexOf([|data|]) + Hex4(0x1_0000) + HexOf([0]) + HexOf(data) + HexOf([c]);
    FiveDigits();
    HexLength([|data|]);
    HexLength([0]);
    HexLength(data);
    HexLength([c]);
    assert |line[1..]| == 2 + 5 + 2 + 2 * |data| + 2;
    HexSolid([|data|]);
    HexSolid([0]);
    HexSolid(data);
    HexSolid([c]);
    hide IsBlank;
    assert Solid(line[1..]);
    OddDigits(line[1..]);
  }

  lemma OddDigits(s: string)
    requires |s| % 2 == 1 && Solid(s)
    ensures FromHex(s).None?
  {
    if FromHex(s).Some? { FromHexEven(s); }
  }

  lemma FiveDigits()
    ensures Hex4(0x1_0000) == "10000" && Solid(Hex4(0x1_0000))
  {
    assert Hex4Long(1) == "1" && Hex4Long(0x10) == "10" && Hex4Long(0x100) == "100" && Hex4Long(0x1000) == "1000";
  }

  /** The words of a list by address, from address `at`. */
  function Placed(acc: Image, at: int, words: seq<Word>): Image
    decreases words
  {
    if words == [] then acc else Placed(acc[at := words[0]], at + 1, words[1..])
  }

  lemma {:induction false} PutIsPlaced(acc: Image, at: nat, words: seq<Word>)
    ensures |WordBytes(words)| == 4 * |words| && PutWords(acc, at * 4, WordBytes(words)) == Placed(acc, at, words)
    decreases words
  {
    WordBytesLength(words);
    if words != [] {
      var b := BigEndian(words[0]);
      WordBytesLength(words[1..]);
      assert WordBytes(words)[..4] == b && WordBytes(words)[4..] == WordBytes(words[1..]);
      WordOfBigEndian(words[0]);
      hide BigEndian, WordOf;
      PutIsPlaced(acc[at := words[0]], at + 1, words[1..]);
    }
  }

  lemma {:induction false} PlacedConcat(acc: Image, at: int, x: seq<Word>, y: seq<Word>)
    ensures Placed(acc, at, x + y) == Placed(Placed(acc, at, x), at + |x|, y)
    decreases x
  {
    if x == [] {
      assert x + y == y;
    } else {
      assert (x + y)[1..] == x[1..] + y;
      PlacedConcat(acc[at := x[0]], at + 1, x[1..], y);
    }
  }

  lemma {:induction false} PlacedAt(acc: Image, at: int, words: seq<Word>, k: int)
    ensures var r := Placed(acc, at, words);
            (k in r <==> k in acc || at <= k < at + |words|)
            && (k in r ==> r[k] == if at <= k < at + |words| then words[k - at] else acc[k])
    decreases words
  {
    if words != [] { PlacedAt(acc[at := words[0]], at + 1, words[1..], k); }
  }

  lemma PlacedNothing(acc: Image, at: int)
    ensures Placed(acc, at, []) == acc
  {
  }

  /** The word list as a map from addresses. */
  function ImageOf(words: seq<Word>): Image { map k | 0 <= k < |words| :: words[k] }

  lemma {:induction false} AssemblerLinesLoad(st: State, words: seq<Word>, i: nat)
    requires i <= |words| && (i % 4 == 0 || i == |words|) && i <= 0x4000 && !st.done && st.ext == 0
    ensures LoadLines(st, AssemblerLines(words, i))
         == if |words| <= 0x4000 then Some(State(Placed(st.mem, i, words[i..]), 0, true)) else None
    decreases |words| - i
  {
    hide LoadLine, ChunkLine, Record, WordBytes, PutWords, Placed;
    if i == |words| {
      EofLoads(st);
      assert [EOF][1..] == [];
      assert LoadLines(st.(done := true), []) == Some(st.(done := true));
      assert words[i..] == [];
      PlacedNothing(st.mem, i);
    } else {
      var n := if i + 4 <= |words| then 4 else |words| - i;
      var chunk := words[i..i + n];
      if i == 0x4000 {
        ChunkTooFar(st, chunk);
      } else {
        ChunkIsRecord(i * 4, chunk);
        RecordLoads(st, i * 4, WordBytes(chunk));
        PutIsPlaced(st.mem, i, chunk);
        PlacedConcat(st.mem, i, chunk, words[i + n..]);
        assert words[i..] == chunk + words[i + n..];
        AssemblerLinesLoad(st.(mem := Placed(st.mem, i, chunk)), words, i + n);
      }
    }
  }

  /** Loading what the toolchain assembler wrote gives the same words back exactly when there are at most 0x4000
      of them: the next record's address no longer fits four digits. */
  lemma AssembledWordsLoadIff(words: seq<Word>)
    ensures Load(AssemblerLines(words, 0)) == Some(ImageOf(words)) <==> |words| <= 0x4000
    ensures |words| > 0x4000 ==> Load(AssemblerLines(words, 0)) == None
  {
    AssemblerLinesLoad(START, words, 0);
    assert words[0..] == words;
    PlacedWords(words);
    hide AssemblerLines, LoadLines, Placed, ImageOf;
  }

  lemma PlacedWords(words: seq<Word>)
    ensures Placed(map[], 0, words) == ImageOf(words)
  {
    var r, image := Placed(map[], 0, words), ImageOf(words);
    forall k: int
      ensures (k in r <==> k in image) && (k in r ==> r[k] == image[k])
    {
      PlacedAt(map[], 0, words, k);
    }
  }
}
