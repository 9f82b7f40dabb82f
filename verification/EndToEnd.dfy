/** From source program to pipeline: compiled, assembled, loaded and run on the pipelined simulator. */
module EndToEnd {
  import opened Words
  import opened Isa
  import opened Memory
  import opened Wrappers
  import opened Ast
  import opened Assembly
  import opened Encoding
  import opened Sequential
  import opened CodeGen
  import opened Semantics
  import opened CompilerStatic
  import opened Programs
  import opened Pipeline
  import opened Progress
  import Alu

  // ---- A check on neighbouring words

  /** Word w may stand before `next` in a program for the pipeline: no system or stack instruction, a clean
      shift amount, nothing that acts behind HLT, and no loaded value that the hazard unit overlooks. */
  predicate PairSafe(w: Word, next: Word) {
    var op, after := OpField(w), OpField(next);
    && !ActsEarly(op) && !ActsEarly(after)
    && (IsShiftImmediate(op) ==> Field15(w) == 0)
    && (op == HLT ==> !IsStore(after))
    && MayFollow(w, next)
  }

  /** Every pair of neighbours below CODE_TOP passes the check. */
  ghost predicate Sheltered(m: Mem) { forall a: nat :: a + 1 < CODE_TOP ==> PairSafe(m[a], m[a + 1]) }

  // ---- Steady runs of sheltered programs are safe

  lemma StepKeepsCode(s: Arch, a: nat)
    requires Steady(s) && a < CODE_TOP
    ensures IsaStep(s).mem[a] == s.mem[a]
  {
    hide Pipeline.EvalBranch, LoadValue, ReplaceLane, Alu.Execute;
  }

  lemma {:induction false} RunKeepsCode(s: Arch, k: nat, a: nat)
    requires SteadyRun(s, k) && a < CODE_TOP
    ensures IsaRun(s, k).mem[a] == s.mem[a]
  {
    hide IsaStep, Steady;
    if k > 0 {
      assert SteadyRun(s, k - 1);
      RunKeepsCode(s, k - 1, a);
      StepKeepsCode(IsaRun(s, k - 1), a);
    }
  }

  lemma SteadyIsSafe(s: Arch, m: Mem)
    requires s.pc + 2 < CODE_TOP && (StoreIndex(s) < 0 || StoreIndex(s) >= CODE_TOP)
    requires Sheltered(m) && s.mem[s.pc] == m[s.pc] && s.mem[s.pc + 1] == m[s.pc + 1]
    ensures SafeAt(s)
  {
    hide MayFollow, StoreIndex;
    assert PairSafe(m[s.pc], m[s.pc + 1]);
  }

  lemma HaltStoresNothing(s: Arch)
    requires AtHalt(s)
    ensures StoreIndex(s) < 0
  {
  }

  lemma SteadyRunIsSafe(s: Arch, k: nat)
    requires SteadyRun(s, k) && Sheltered(s.mem) && AtHalt(IsaRun(s, k)) && IsaRun(s, k).pc + 2 < CODE_TOP
    ensures SafeRun(s)
  {
    hide IsaStep, SafeAt, AtHalt, Sheltered;
    forall i: nat
      ensures SafeAt(IsaRun(s, i))
    {
      var j := if i <= k then i else k;
      if i > k {
        IsaRunAdd(s, k, i - k);
        HaltIsFinal(IsaRun(s, k), i - k);
      }
      var x := IsaRun(s, j);
      if j == k { HaltStoresNothing(x); } else { assert Steady(x); }
      RunKeepsCode(s, j, x.pc);
      RunKeepsCode(s, j, x.pc + 1);
      SteadyIsSafe(x, s.mem);
    }
  }

  // ---- The whole way

  /** A program that is compiled, assembled and loaded halts on the pipelined machine, with the memory and the
      result that the meaning of main prescribes, provided that neighbouring words pass the hazard check. */
  lemma CompiledOnPipeline(p: Program, words: seq<Word>, m: Mem, fuel: nat) returns (n: nat)
    requires AssemblesTo(p, words) && Holds(m, words) && Size(MainCode(p).value) + 2 <= CODE_TOP
    requires Defines(Meaning(p, m, fuel)) && Sheltered(m)
    ensures var o, c := Meaning(p, m, fuel), Cycles(Reset(m, 0), n);
            && (o.Normal? || o.Returned?) && c.halted && c.mem == o.st.mem
            && (o.Returned? && o.result.Some? ==> c.rf[1] == o.result.value)
  {
    hide IsaStep, SafeAt, AtHalt, Sheltered, Meaning, AssemblesTo, Holds, Pipeline.Step, Pipeline.Clock, MainCode,
      SafeRun, SteadyRun;
    var s := Initial(m, 0);
    var k := CompiledProgramRuns(p, words, m, fuel, s.regs);
    SteadyRunIsSafe(s, k);
    n := PipelineComplete(m, 0, k);
  }

  // ---- Code that fails the check

  /** A condition on a global variable is compiled to a load and, at once, a branch on the loaded register. */
  lemma GlobalConditionCode(cx: Cx, name: string, le: Symbol)
    requires name in cx.layout.globals && GenTest(cx, Some(VarRef(name)), le).Some?
    ensures var r := AllocTemp(cx).value.0;
            GenTest(cx, Some(VarRef(name)), le).value.code
            == LoadImm(FLAGS_TMP, cx.layout.globals[name]) + [LoadWord(r, FLAGS_TMP)] + [BranchTo(BEQ, r, le)]
  {
  }

  /** The hazard unit overlooks such a pair, for every register the compiler uses and every nearby target. */
  lemma LoadThenBranchFails(r: Reg, base: Reg, off: int)
    requires Allocatable(r) && -0x800 <= off < 0x800
    ensures !PairSafe(EncodeI(LW, r, base, 0), EncodeB(BEQ, r, 0, off))
  {
    DecodeI(LW, r, base, 0);
    DecodeB(BEQ, r, 0, off);
    var w, next := EncodeI(LW, r, base, 0), EncodeB(BEQ, r, 0, off);
    FieldsOf5(LW, r, base, 0);
    FieldsOf5(BEQ, r, 0, off % 0x1_0000);
    NearOffset(next, off);
    hide EncodeI, EncodeB, OpField, Field25, Field20, Field15, Word5;
    assert Writes(w) == r && !Stalls(w, next) && ReadsFirst(next, r);
  }

  lemma NearOffset(w: Word, off: int)
    requires w % 0x1_0000 == off % 0x1_0000 && -0x800 <= off < 0x800
    ensures Field15(w) == if off >= 0 then 0 else 31
  {
    var q := w / 0x1_0000;
    assert w == q * 0x1_0000 + off % 0x1_0000;
    assert w / 0x800 == q * 32 + off % 0x1_0000 / 0x800;
  }

  /** Storing a value right after loading it (`*p = *q`, `a[i] = g`) fails in the same way. */
  lemma LoadThenStoreFails(r: Reg, base: Reg, to: Reg)
    requires Allocatable(r) && to != r
    ensures !PairSafe(EncodeI(LW, r, base, 0), EncodeS(SW, r, to, 0))
  {
    DecodeI(LW, r, base, 0);
    DecodeS(SW, r, to, 0);
    var w, next := EncodeI(LW, r, base, 0), EncodeS(SW, r, to, 0);
    FieldsOf5(LW, r, base, 0);
    FieldsOf5(SW, r, to, 0);
    NearOffset(next, 0);
    hide EncodeI, EncodeS, OpField, Field25, Field20, Field15, Word5;
    assert Writes(w) == r && !Stalls(w, next) && ReadsSecond(next, r);
  }
}
