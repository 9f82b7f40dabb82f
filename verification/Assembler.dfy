/** The two-pass assembler as the source writes it: loops with a running location counter. */
module Assembler {
  import opened Words
  import opened Wrappers
  import opened Assembly
  import Spec = AssemblerSpec

  class TwoPass {
    var symbols: Symbols

    constructor ()
      ensures symbols == map[]
    {
      symbols := map[];
    }

    /** Labels and .equ; false stands for a duplicate label. */
    method Pass1(lines: seq<Line>) returns (ok: bool)
      requires symbols == map[]
      modifies this
      ensures ok == Spec.Pass1(lines, 0, map[]).Some?
      ensures ok ==> symbols == Spec.Pass1(lines, 0, map[]).value
    {
      var lc, i := 0, 0;
      while i < |lines|
        invariant 0 <= i <= |lines|
        invariant Spec.Pass1(lines, 0, map[]) == Spec.Pass1(lines[i..], lc, symbols)
      {
        var line := lines[i];
        assert lines[i..][0] == line && lines[i..][1..] == lines[i + 1..];
        if line.mark.Some? {
          if line.mark.value in symbols {
            return false;
          }
          symbols := symbols[line.mark.value := lc];
        }
        match line.body {
          case Org(a) => lc := a;
          case Equ(n, v) => symbols := symbols[n := v];
          case Data(vs) => lc := lc + |vs|;
          case Empty =>
          case _ => lc := lc + 1;
        }
        i := i + 1;
      }
      ok := true;
    }

    /** Machine words by address; None stands for an undefined symbol. */
    method Pass2(lines: seq<Line>) returns (r: Option<Spec.Output>)
      ensures r == Spec.Pass2(lines, symbols, 0, map[])
    {
      var lc, i := 0, 0;
      var out: Spec.Output := map[];
      while i < |lines|
        invariant 0 <= i <= |lines|
        invariant Spec.Pass2(lines, symbols, 0, map[]) == Spec.Pass2(lines[i..], symbols, lc, out)
      {
        var b := lines[i].body;
        assert lines[i..][0] == lines[i] && lines[i..][1..] == lines[i + 1..];
        match b {
          case Org(a) => lc := a;
          case Equ(_, _) =>
          case Empty =>
          case Data(vs) =>
            var k, before, from := 0, out, lc;
            while k < |vs|
              invariant 0 <= k <= |vs| && lc == from + k
              invariant Spec.PutData(symbols, vs, from, before) == Spec.PutData(symbols, vs[k..], lc, out)
            {
              assert vs[k..][0] == vs[k] && vs[k..][1..] == vs[k + 1..];
              var v := Spec.Value(symbols, vs[k]);
              if v.None? {
                return None;
              }
              out := out[lc := Wrap(v.value)];
              lc := lc + 1;
              k := k + 1;
            }
          case _ =>
            var w := Spec.EncodeBody(symbols, b, lc);
            if w.None? {
              return None;
            }
            out := out[lc := w.value];
            lc := lc + 1;
        }
        i := i + 1;
      }
      r := Some(out);
    }

    /** The word list from address 0 on. */
    method Words(out: Spec.Output) returns (words: seq<Word>)
      ensures Spec.IsImage(words, out)
    {
      var top := -1;
      var keys: set<int> := out.Keys;
      while keys != {}
        invariant keys <= out.Keys && top >= -1 && (top >= 0 ==> top in out)
        invariant forall a :: a in out ==> a in keys || a <= top
        decreases |keys|
      {
        ghost var some := Element(keys);
        var a :| a in keys;
        if a > top {
          top := a;
        }
        keys := keys - {a};
      }
      words := [];
      while |words| <= top
        invariant |words| <= top + 1
        invariant forall i :: 0 <= i < |words| ==> words[i] == if i in out then out[i] else 0
        decreases top + 1 - |words|
      {
        words := words + [if |words| in out then out[|words|] else 0];
      }
    }

    method Assemble(lines: seq<Line>) returns (words: Option<seq<Word>>)
      modifies this
      ensures words.Some? <==>
                Spec.Pass1(lines, 0, map[]).Some?
                && Spec.Pass2(lines, Spec.Pass1(lines, 0, map[]).value, 0, map[]).Some?
      ensures words.Some? ==>
                symbols == Spec.Pass1(lines, 0, map[]).value
                    && Spec.IsImage(words.value, Spec.Pass2(lines, symbols, 0, map[]).value)
    {
      symbols := map[];
      var ok := Pass1(lines);
      if !ok {
        return None;
      }
      var out := Pass2(lines);
      if out.None? {
        return None;
      }
      var image := Words(out.value);
      words := Some(image);
    }
  }
}
