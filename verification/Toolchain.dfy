/** The linker, the loader and the assembler's HEX writer as the source writes them. */
module Toolchain {
  import opened Words
  import opened Wrappers
  import L = Linking
  import H = IntelHex

  class Linker {
    const bases: L.Bases
    var text: seq<(nat, Word)>
    var data: seq<(nat, Word)>
    var symbols: map<string, nat>
    var relocs: seq<L.Reloc>

    constructor (textBase: nat, dataBase: nat)
      ensures bases == L.Bases(textBase, dataBase) && Value() == L.EMPTY
    {
      bases := L.Bases(textBase, dataBase);
      text, data, symbols, relocs := [], [], map[], [];
    }

    ghost function Value(): L.Linked
      reads this
    {
      L.Linked(text, data, symbols, relocs)
    }

    /** add_object; false stands for a duplicate symbol. */
    method AddObject(m: L.Module) returns (ok: bool)
      modifies this
      ensures ok == L.AddObject(bases, old(Value()), m).Some?
      ensures ok ==> Value() == L.AddObject(bases, old(Value()), m).value
    {
      var textOffset, dataOffset := |text|, |data|;
      ghost var st := Value();
      var i := 0;
      while i < |m.text|
        invariant 0 <= i <= |m.text| && text == st.text + L.Shift(m.text[..i], textOffset)
        invariant data == st.data && symbols == st.symbols && relocs == st.relocs
      {
        assert L.Shift(m.text[..i + 1], textOffset) == L.Shift(m.text[..i],
            textOffset) + [(m.text[i].0 + textOffset, m.text[i].1)];
        text := text + [(m.text[i].0 + textOffset, m.text[i].1)];
        i := i + 1;
      }
      assert m.text[..i] == m.text;
      i := 0;
      while i < |m.data|
        invariant 0 <= i <= |m.data| && data == st.data + L.Shift(m.data[..i], dataOffset)
        invariant text == st.text + L.Shift(m.text, textOffset) && symbols == st.symbols && relocs == st.relocs
      {
        assert L.Shift(m.data[..i + 1], dataOffset) == L.Shift(m.data[..i],
            dataOffset) + [(m.data[i].0 + dataOffset, m.data[i].1)];
        data := data + [(m.data[i].0 + dataOffset, m.data[i].1)];
        i := i + 1;
      }
      assert m.data[..i] == m.data;
      ok := AddSymbols(m, textOffset, dataOffset, st);
      if !ok {
        return;
      }
      i := 0;
      while i < |m.relocs|
        invariant 0 <= i <= |m.relocs| && relocs == st.relocs + L.ShiftRelocs(m.relocs[..i], textOffset)
        invariant text == st.text + L.Shift(m.text, textOffset) && data == st.data + L.Shift(m.data, dataOffset)
        invariant Some(symbols) == L.AddSymbols(bases, st, m, 0, st.symbols)
      {
        var r := m.relocs[i];
        assert L.ShiftRelocs(m.relocs[..i + 1], textOffset)
            == L.ShiftRelocs(m.relocs[..i], textOffset) + [r.(addr := r.addr + textOffset)];
        relocs := relocs + [r.(addr := r.addr + textOffset)];
        i := i + 1;
      }
      assert m.relocs[..i] == m.relocs;
    }

    method AddSymbols(m: L.Module, textOffset: nat, dataOffset: nat, ghost st: L.Linked) returns (ok: bool)
      requires textOffset == |st.text| && dataOffset == |st.data| && symbols == st.symbols
      modifies this`symbols
      ensures ok == L.AddSymbols(bases, st, m, 0, st.symbols).Some?
      ensures ok ==> symbols == L.AddSymbols(bases, st, m, 0, st.symbols).value
    {
      var i := 0;
      while i < |m.symbols|
        invariant 0 <= i <= |m.symbols|
        invariant L.AddSymbols(bases, st, m, i, symbols) == L.AddSymbols(bases, st, m, 0, st.symbols)
      {
        var (sym, addr) := m.symbols[i];
        if sym in symbols {
          return false;
        }
        if addr < |m.text| {
          symbols := symbols[sym := bases.text + textOffset + addr];
        } else {
          symbols := symbols[sym := bases.data + dataOffset + (addr - |m.text|)];
        }
        i := i + 1;
      }
      ok := true;
    }

    /** _resolve; None stands for an undefined symbol or a value out of range. */
    method Resolve() returns (mem: Option<L.Image>)
      ensures mem == L.Resolve(bases, Value())
    {
      var image: L.Image := map[];
      image := Put(image, bases.text, text);
      image := Put(image, bases.data, data);
      var i := 0;
      ghost var all := L.RelocateAll(bases, symbols, relocs, image);
      while i < |relocs|
        invariant 0 <= i <= |relocs|
        invariant L.RelocateAll(bases, symbols, relocs[i..], image) == all
      {
        var r := relocs[i];
        assert relocs[i..][0] == r && relocs[i..][1..] == relocs[i + 1..];
        if r.sym !in symbols {
          return None;
        }
        var at := bases.text + r.addr;
        var word := if at in image then image[at] else 0;
        var patched := L.Patch(r.kind, word, symbols[r.sym], at);
        if patched.None? {
          return None;
        }
        image := image[at := patched.value];
        i := i + 1;
      }
      assert relocs[i..] == [];
      mem := Some(image);
    }

    method Put(mem: L.Image, base: nat, ws: seq<(nat, Word)>) returns (r: L.Image)
      ensures r == L.PutAll(mem, base, ws)
    {
      r := mem;
      var i := 0;
      while i < |ws|
        invariant 0 <= i <= |ws| && L.PutAll(r, base, ws[i..]) == L.PutAll(mem, base, ws)
      {
        assert ws[i..][0] == ws[i] && ws[i..][1..] == ws[i + 1..];
        r := r[base + ws[i].0 := ws[i].1];
        i := i + 1;
      }
      assert ws[i..] == [];
    }

    /** link: one record for each address, in ascending order, and the end record. Loading the lines gives the
        linked image back exactly when it lies below word address 0x4000. */
    method Link() returns (lines: Option<seq<string>>, ghost keys: seq<int>)
      ensures lines.Some? == L.Resolve(bases, Value()).Some?
      ensures lines.Some? ==>
                var mem := L.Resolve(bases, Value()).value;
                && H.KeysOf(mem, keys) && H.Ascending(keys) && (forall k :: k in mem ==> k in keys)
                    && lines.value == H.LinkLines(mem, keys)
                && (H.Load(lines.value) == Some(mem) <==> forall k :: k in mem ==> k < 0x4000)
    {
      hide L.Resolve;
      keys := [];
      var mem := Resolve();
      if mem.None? {
        return None, keys;
      }
      L.ResolveNonNegative(bases, Value());
      var sorted := SortedKeys(mem.value);
      keys := sorted;
      var out := Records(mem.value, sorted);
      lines := Some(out);
      H.LinkedImageLoadsIff(mem.value, keys);
    }

    method Records(mem: L.Image, keys: seq<int>) returns (out: seq<string>)
      requires H.KeysOf(mem, keys)
      ensures out == H.LinkLines(mem, keys)
    {
      hide H.Record;
      out := [];
      var i := 0;
      while i < |keys|
        invariant 0 <= i <= |keys| && H.KeysOf(mem, keys[i..])
        invariant out + H.LinkLines(mem, keys[i..]) == H.LinkLines(mem, keys)
      {
        assert keys[i..][0] == keys[i] && keys[i..][1..] == keys[i + 1..];
        var record := H.Record(keys[i] * 4, H.BigEndian(mem[keys[i]]));
        out := out + [record];
        i := i + 1;
      }
      assert keys[i..] == [];
      out := out + [H.EOF];
    }

    /** `sorted(mem)`, by selecting the smallest key that is left. */
    method SortedKeys(mem: L.Image) returns (keys: seq<int>)
      ensures H.Ascending(keys) && forall k :: k in mem ==> k in keys
      ensures forall i :: 0 <= i < |keys| ==> keys[i] in mem
    {
      keys := [];
      var left: set<int> := mem.Keys;
      while left != {}
        invariant H.Ascending(keys) && left <= mem.Keys
        invariant forall k :: k in mem ==> k in keys || k in left
        invariant forall i :: 0 <= i < |keys| ==> keys[i] in mem
        invariant forall i, k :: 0 <= i < |keys| && k in left ==> keys[i] < k
        decreases |left|
      {
        var least := Least(left);
        keys := keys + [least];
        left := left - {least};
      }
    }

    method Least(s: set<int>) returns (least: int)
      requires s != {}
      ensures least in s && forall k :: k in s ==> least <= k
    {
      ghost var some := Element(s);
      least :| least in s;
      var left := s - {least};
      while left != {}
        invariant left <= s && least in s && forall k :: k in s ==> k in left || least <= k
        decreases |left|
      {
        ghost var another := Element(left);
        var k :| k in left;
        if k < least {
          least := k;
        }
        left := left - {k};
      }
    }
  }

  class Loader {
    var mem: H.Image

    constructor ()
      ensures mem == map[]
    {
      mem := map[];
    }

    /** load_hex; false stands for a malformed file. */
    method LoadHex(lines: seq<string>) returns (ok: bool)
      modifies this
      ensures ok == H.Load(lines).Some?
      ensures ok ==> mem == H.Load(lines).value
    {
      hide H.LoadRecord, H.FromHex;
      mem := map[];
      var extAddr: nat := 0;
      var i := 0;
      var done := false;
      while i < |lines| && !done
        invariant 0 <= i <= |lines|
        invariant H.LoadLines(H.State(mem, extAddr, done), lines[i..]) == H.LoadLines(H.START, lines)
        decreases |lines| - i
      {
        var line := H.Trimmed(lines[i]);
        assert lines[i..][0] == lines[i] && lines[i..][1..] == lines[i + 1..];
        i := i + 1;
        if line != "" {
          if line[0] != ':' {
            return false;
          }
          var raw := H.FromHex(line[1..]);
          if raw.None? {
            return false;
          }
          var good, ext, last := LoadRecord(raw.value, extAddr);
          if !good {
            return false;
          }
          extAddr, done := ext, last;
        }
      }
      ok := true;
    }

    /** One record: its words are stored, or it sets the extended address, or it is the last. */
    method LoadRecord(raw: seq<H.Byte>, extAddr: nat) returns (ok: bool, ext: nat, done: bool)
      modifies this
      ensures ok == H.LoadRecord(H.State(old(mem), extAddr, false), raw).Some?
      ensures ok ==> H.State(mem, ext, done) == H.LoadRecord(H.State(old(mem), extAddr, false), raw).value
    {
      hide H.Checksum, H.PutWords;
      ok, ext, done := false, extAddr, false;
      if |raw| == 0 || |raw| <= 4 + raw[0] as int {
        return;
      }
      var count: int := raw[0];
      var addr := raw[1] as int * 256 + raw[2] as int + extAddr;
      var rtype, data := raw[3], raw[4..4 + count];
      if H.Checksum(raw[..4 + count]) != raw[4 + count] {
        return;
      }
      if rtype == 0 {
        if |data| % 4 != 0 {
          return;
        }
        StoreWords(addr, data);
      } else if rtype == 4 {
        if |data| != 2 {
          return;
        }
        ext := (data[0] as int * 256 + data[1] as int) * 0x1_0000;
      } else if rtype == 1 {
        done := true;
      }
      ok := true;
    }

    method StoreWords(addr: nat, data: seq<H.Byte>)
      requires |data| % 4 == 0
      modifies this
      ensures mem == H.PutWords(old(mem), addr, data)
    {
      var i := 0;
      while i < |data|
        invariant 0 <= i <= |data| && i % 4 == 0
        invariant H.PutWords(mem, addr + i, data[i..]) == H.PutWords(old(mem), addr, data)
      {
        assert data[i..][..4] == data[i..i + 4] && data[i..][4..] == data[i + 4..];
        mem := mem[(addr + i) / 4 := H.WordOf(data[i..i + 4])];
        i := i + 4;
      }
      assert data[i..] == [];
    }
  }

  /** `_write_intel_hex`: four words to a record. */
  method WriteIntelHex(words: seq<Word>) returns (lines: seq<string>)
    ensures lines == H.AssemblerLines(words, 0)
    ensures H.Load(lines) == Some(H.ImageOf(words)) <==> |words| <= 0x4000
  {
    hide H.ChunkLine, H.Load, H.ImageOf;
    lines := [];
    var addr, i := 0, 0;
    while i < |words|
      invariant 0 <= i <= |words| && (i == addr || i == |words|)
      invariant lines + H.AssemblerLines(words, i) == H.AssemblerLines(words, 0)
      decreases |words| - i
    {
      var n := if i + 4 <= |words| then 4 else |words| - i;
      var record := H.ChunkLine(addr * 4, words[i..i + n]);
      assert H.AssemblerLines(words, i) == [record] + H.AssemblerLines(words, i + n);
      lines := lines + [record];
      addr := addr + 4;
      i := i + n;
    }
    lines := lines + [H.EOF];
    H.AssembledWordsLoadIff(words);
  }
}
