/** Compiled methods from call to return. */
module Correctness {
  import opened Wrappers
  import opened Words
  import opened X86
  import opened Encoding
  import opened CodeStream
  import opened Bytecode
  import opened Frame
  import opened Templates
  import opened FrameProofs
  import opened TemplateProofs
  import opened Placement
  import opened Reachability
  import opened Room
  import opened Patching
  import opened Simulation

  // ----- entry -----

  /** A call has just pushed the arguments and the return address, and the stack has room for the frame. */
  ghost predicate Called(m: Method, c: Cpu) {
    var low := c.esp - 4 + FrameSize(m) - 4 * m.maxStack;
    && OffsetsFit(m) && m.argWords <= m.maxLocals
    && c.esp % 4 == 0 && 0 <= low && c.esp + 4 * m.argWords + 4 <= TWO_32
    && forall a {:trigger a in c.mem} :: low <= a <= c.esp + 4 * m.argWords && a % 4 == 0 ==> a in c.mem
  }

  /** Every method whose offsets fit can be called: some machine state satisfies `Called`. */
  lemma CallerExists(m: Method) returns (c: Cpu)
    requires OffsetsFit(m) && m.argWords <= m.maxLocals && m.argWords < 0x100
    ensures Called(m, c)
  {
    var sp := 4 - FrameSize(m) + 4 * m.maxStack;
    var top := sp + 4 * m.argWords;
    var mem: map<int, Word> := map a | 0 <= a <= top && a % 4 == 0 :: 0;
    c := Cpu(0, 0, 0, 0, sp, 0, 0, 0, false, false, false, false, mem);
  }

  /** The memory behind the prolog: the caller's ebp and the method are saved below the return address. */
  function EntryMemory(m: Method, c: Cpu): map<int, Word> {
    c.mem[c.esp - 4 := c.ebp][c.esp - 8 := m.address]
  }

  function EntryEnv(m: Method, c: Cpu): Env
    requires c.esp >= 4
  {
    Env(m, c.esp - 4, EntryMemory(m, c), KeptOf(c))
  }

  /** Argument `i` is the `i`-th word the caller pushed; the other locals hold whatever their slots hold. */
  ghost function EntryVars(m: Method, c: Cpu): Vars
    requires Called(m, c)
  {
    Vars(seq(m.maxLocals, i requires 0 <= i < m.maxLocals => EntryLocal(m, c, i)), [])
  }

  ghost function EntryLocal(m: Method, c: Cpu, i: int): Word
    requires Called(m, c) && 0 <= i < m.maxLocals
  {
    var a := if i < m.argWords then c.esp + 4 * (m.argWords - i) else c.esp - 4 + LocalOffset(m, i);
    assert c.esp - 4 + FrameSize(m) - 4 * m.maxStack <= a <= c.esp + 4 * m.argWords && a % 4 == 0;
    assert a in c.mem;
    c.mem[a]
  }

  lemma EntryEnvValid(m: Method, c: Cpu)
    requires Called(m, c)
    ensures c.esp >= 8 && EntryEnv(m, c).Valid()
    ensures c.esp in c.mem && c.esp - 4 in c.mem && c.esp - 8 in c.mem
    ensures EntryMemory(m, c).Keys == c.mem.Keys
  {
    var e := EntryEnv(m, c);
    assert c.esp in c.mem && c.esp - 4 in c.mem && c.esp - 8 in c.mem;
    forall a {:trigger a in e.mem0} | e.Low() <= a <= e.High() && a % 4 == 0 ensures a in e.mem0 {
      assert a in c.mem;
    }
  }

  lemma EntryRepr(m: Method, c: Cpu, d: Cpu)
    requires Called(m, c) && c.esp >= 8
    requires d.ebp == c.esp - 4 && d.esp == c.esp - 4 + FrameSize(m) && d.mem == EntryMemory(m, c)
    requires KeptOf(d) == KeptOf(c)
    ensures Repr(EntryEnv(m, c), EntryVars(m, c), d)
  {
    var e := EntryEnv(m, c);
    EntryEnvValid(m, c);
    var v := EntryVars(m, c);
    forall i | 0 <= i < |v.locals| ensures e.LocalAddr(i) in d.mem && d.mem[e.LocalAddr(i)] == v.locals[i] {
      SlotsDisjoint(m, LocalSlot(i), SavedMethod);
      SlotsDisjoint(m, LocalSlot(i), SavedEbp);
      assert v.locals[i] == EntryLocal(m, c, i);
      assert e.LocalAddr(i) in c.mem;
    }
  }

  /** The machine behind the prolog. */
  function AfterProlog(m: Method, c: Cpu): Cpu
    requires c.esp >= 8
  {
    var f := Alu(Add, c.esp - 8, Wrap(StoredFrameSize(m) + 4), c.cf);
    WithFlags(c.(ebp := c.esp - 4, mem := EntryMemory(m, c)), f).(esp := f.value)
  }

  lemma PrologPushes(m: Method, c: Cpu)
    requires Called(m, c) && c.esp >= 8
    ensures var p := Prolog(m);
            var c1 := c.(esp := c.esp - 4, mem := c.mem[c.esp - 4 := c.ebp]);
            var c2 := c1.(ebp := c.esp - 4);
            var c3 := c2.(esp := c.esp - 8, mem := EntryMemory(m, c));
            Exec(p[0], c) == Some(c1) && Exec(p[1], c1) == Some(c2) && Exec(p[2], c2) == Some(c3)
  {
    hide StoredFrameSize;
    EntryEnvValid(m, c);
  }

  lemma PrologAdds(m: Method, c: Cpu)
    requires c.esp >= 8
    ensures var c3 := c.(ebp := c.esp - 4, esp := c.esp - 8, mem := EntryMemory(m, c));
            Exec(Prolog(m)[3], c3) == Some(AfterProlog(m, c))
  {
    hide StoredFrameSize, Alu, EntryMemory;
  }

  lemma AfterPrologEsp(m: Method, c: Cpu)
    requires Called(m, c) && c.esp >= 8
    ensures AfterProlog(m, c).esp == c.esp - 4 + FrameSize(m)
  {
    StoredExact(m);
  }

  lemma PrologRuns(m: Method, c: Cpu) returns (d: Cpu)
    requires Called(m, c)
    ensures c.esp >= 8 && EntryEnv(m, c).Valid()
    ensures RunBlock(Prolog(m), c) == Some(d) && Repr(EntryEnv(m, c), EntryVars(m, c), d)
  {
    hide Exec, Repr, EntryMemory, Prolog, AfterProlog;
    EntryEnvValid(m, c);
    PrologPushes(m, c);
    PrologAdds(m, c);
    d := AfterProlog(m, c);
    var p := Prolog(m);
    assert |p| == 4 by { PrologLength(m); }
    var p1, p2, p3 := p[1..], p[2..], p[3..];
    assert p1[1..] == p2 && p2[1..] == p3 && p3[1..] == [];
    var c1 := c.(esp := c.esp - 4, mem := c.mem[c.esp - 4 := c.ebp]);
    var c2 := c1.(ebp := c.esp - 4);
    var c3 := c2.(esp := c.esp - 8, mem := EntryMemory(m, c));
    assert RunBlock([], d) == Some(d);
    assert RunBlock(p3, c3) == Some(d);
    assert RunBlock(p2, c2) == Some(d);
    assert RunBlock(p1, c1) == Some(d);
    AfterPrologEsp(m, c);
    AfterPrologRepr(m, c);
  }

  lemma PrologLength(m: Method)
    ensures |Prolog(m)| == 4
  {
  }

  lemma AfterPrologRepr(m: Method, c: Cpu)
    requires Called(m, c) && c.esp >= 8
    ensures Repr(EntryEnv(m, c), EntryVars(m, c), AfterProlog(m, c))
  {
    hide EntryMemory, StoredFrameSize, Repr, EntryVars;
    AfterPrologEsp(m, c);
    EntryRepr(m, c, AfterProlog(m, c));
  }

  lemma PrologPlaced(m: Method, depths: map<nat, nat>)
    requires Verified(m, depths) && BodyPlan(m, depths).fault == NoFault
    ensures |FinalCode(m, depths)| >= |Prolog(m)| && FinalCode(m, depths)[..|Prolog(m)|] == Prolog(m)
    ensures 0 in BodyPlan(m, depths).idx && BodyPlan(m, depths).idx[0] == |Prolog(m)|
  {
    hide BodyPlan, Parse, PatchUpTo, Placed, Flows, InsnAt, BodyAt, Prolog, Displacement, TargetOf;
    var w := BodyPlan(m, depths);
    var full := FullCode(m, w);
    BodyPlanPlaced(m, depths);
    PatchUpToAt(m, depths, w, full, |m.code|);
    FinalLength(m, depths);
    var c := FinalCode(m, depths);
    forall k | 0 <= k < |Prolog(m)| ensures c[k] == Prolog(m)[k] {
      assert w.code[k] == Prolog(m)[k];
      assert full[k] == w.code[k];
      forall q: nat | IsPatched(m, w, q) ensures Site(m, depths, w, q) != k {
        BranchBodyAt(m, depths, q);
      }
    }
  }

  lemma PatchKeepsTail(m: Method, depths: map<nat, nat>, w: Plan, base: Code, k: int)
    requires Placed(m, depths, w) && w.code <= base && |w.code| <= k < |base|
    ensures PatchUpTo(m, depths, w, base, |m.code|)[k] == base[k]
  {
    hide Placed, PatchUpTo, InsnAt, BodyAt, Displacement, TargetOf, Site, WithRel;
    PatchUpToAt(m, depths, w, base, |m.code|);
    forall q: nat | IsPatched(m, w, q) ensures Site(m, depths, w, q) != k {
      SiteInside(m, depths, w, q);
    }
  }

  lemma EpilogPlaced(m: Method, depths: map<nat, nat>)
    requires Verified(m, depths)
    ensures var n := |BodyPlan(m, depths).code|;
            n + 3 == |FinalCode(m, depths)| && FinalCode(m, depths)[n..n + 3] == Epilog(m)
  {
    hide BodyPlan, Parse, PatchUpTo, PlacedAt, Apart, Flows, InsnAt, BodyAt, Prolog, Epilog;
    var w := BodyPlan(m, depths);
    BodyPlanPlaced(m, depths);
    FinalLength(m, depths);
    EpilogLength(m);
    var c := FinalCode(m, depths);
    forall k | 0 <= k < 3 ensures c[|w.code| + k] == Epilog(m)[k] {
      PatchKeepsTail(m, depths, w, FullCode(m, w), |w.code| + k);
    }
  }

  // ----- return -----

  /** What the caller sees: the returned words in edx:eax, its other registers, the arguments dropped,
      and its memory. */
  ghost predicate ReturnsTo(m: Method, c: Cpu, words: seq<Word>, d: Cpu) {
    && (|words| >= 1 ==> d.eax == words[|words| - 1])
    && (|words| >= 2 ==> d.edx == words[|words| - 2])
    && d.ebp == c.ebp && d.esp == Wrap(c.esp + 4 + 4 * m.argWords) && KeptOf(d) == KeptOf(c)
    && d.mem.Keys == c.mem.Keys
    && forall a :: a in c.mem
                   && (a == c.esp || a > c.esp + 4 * m.argWords
                       || a < c.esp - 4 + FrameSize(m) - 4 * m.maxStack)
         ==> d.mem[a] == c.mem[a]
  }

  /** The machine behind the epilog. */
  function AfterEpilog(m: Method, c: Cpu, b: Cpu): Cpu {
    b.(ebp := c.ebp, esp := Wrap(c.esp + 4 + 4 * m.argWords))
  }

  /** The words below and above a frame are as its method found them. */
  lemma FrameKeeps(m: Method, c: Cpu, v: Vars, b: Cpu)
    requires Called(m, c) && c.esp >= 8 && Repr(EntryEnv(m, c), v, b)
    ensures c.esp in c.mem && b.mem.Keys == c.mem.Keys && c.esp - 4 in b.mem
    ensures b.ebp == c.esp - 4 && b.mem[c.esp - 4] == c.ebp && b.mem[c.esp] == c.mem[c.esp]
    ensures ReturnsTo(m, c, [], AfterEpilog(m, c, b))
  {
    EntryEnvValid(m, c);
    var e := EntryEnv(m, c);
    assert !e.Owned(c.esp - 4) && !e.Owned(c.esp);
    forall a | a in c.mem && (a == c.esp || a > c.esp + 4 * m.argWords || a < c.esp - 4 + FrameSize(m) - 4 * m.maxStack)
      ensures b.mem[a] == c.mem[a]
    {
      assert !e.Owned(a);
    }
  }

  lemma EpilogSteps(m: Method, c: Cpu, b: Cpu)
    requires m.argWords < 0x100 && c.esp >= 8 && c.esp % 4 == 0
    requires c.esp in b.mem && c.esp - 4 in b.mem && b.ebp == c.esp - 4 && b.mem[c.esp - 4] == c.ebp
    ensures var p := Epilog(m);
            var b1 := b.(esp := c.esp - 4);
            var b2 := b1.(esp := c.esp, ebp := c.ebp);
            Exec(p[0], b) == Some(b1) && Exec(p[1], b1) == Some(b2)
            && Exec(p[2], b2) == None
            && forall n :: Transfer(p[2], n, b2) == Some((Returned(b.mem[c.esp]), AfterEpilog(m, c, b)))
  {
  }

  /** The epilog, run on any frame of the method, returns to the caller. */
  lemma EpilogRuns(m: Method, depths: map<nat, nat>, tail: seq<Byte>, c: Cpu, v: Vars, b: Cpu) returns (d: Cpu)
    requires Verified(m, depths) && Called(m, c) && c.esp >= 8 && EntryEnv(m, c).Valid()
    requires Repr(EntryEnv(m, c), v, b)
    ensures |BodyPlan(m, depths).code| <= |FinalCode(m, depths)|
    ensures c.esp in c.mem
    ensures Run(Bytes(m, depths, tail), At(Offset(FinalCode(m, depths), |BodyPlan(m, depths).code|)), b, 3) ==
            Some((Returned(c.mem[c.esp]), d))
    ensures d.eax == b.eax && d.edx == b.edx && ReturnsTo(m, c, [], d)
  {
    hide BodyPlan, Parse, InsnAt, EncodeAll, Step, FinalCode, Offset, Repr, Run, Exec, Transfer, Epilog, ReturnsTo;
    FrameKeeps(m, c, v, b);
    EpilogSteps(m, c, b);
    var l := FinalCode(m, depths);
    var n := |BodyPlan(m, depths).code|;
    EpilogPlaced(m, depths);
    EpilogLength(m);
    assert l[n] == l[n..n + 3][0] && l[n + 1] == l[n..n + 3][1] && l[n + 2] == l[n..n + 3][2];
    var b1 := b.(esp := c.esp - 4);
    var b2 := b1.(esp := c.esp, ebp := c.ebp);
    d := AfterEpilog(m, c, b);
    var code := Bytes(m, depths, tail);
    StepAt(l, tail, n, b);
    StepAt(l, tail, n + 1, b1);
    StepAt(l, tail, n + 2, b2);
    RunOne(code, Offset(l, n), b);
    RunOne(code, Offset(l, n + 1), b1);
    RunOne(code, Offset(l, n + 2), b2);
    RunTwo(code, At(Offset(l, n)), b, 1, At(Offset(l, n + 1)), b1, 1, At(Offset(l, n + 2)), b2);
    RunTwo(code, At(Offset(l, n)), b, 2, At(Offset(l, n + 2)), b2, 1, Returned(c.mem[c.esp]), d);
  }

  /** A return bytecode: its template and the jump to the epilog. */
  lemma ReturnJump(e: Env, depths: map<nat, nat>, tail: seq<Byte>, p: nat, v: Vars, t: Target, b: Cpu)
    returns (n: nat, d: Cpu)
    requires e.Valid() && Verified(e.m, depths) && Compiled(e.m, depths) && AtPc(e, depths, p, v, t, b)
    requires InsnAt(e.m, p).insn.ReturnWords? && Fits(e.m, InsnAt(e.m, p).insn, v)
    ensures |BodyPlan(e.m, depths).code| <= |FinalCode(e.m, depths)|
    ensures Run(Bytes(e.m, depths, tail), t, b, n) ==
            Some((At(Offset(FinalCode(e.m, depths), |BodyPlan(e.m, depths).code|)), d))
    ensures var k := InsnAt(e.m, p).insn.count;
            && 0 <= k <= 2 && k <= |v.stack|
            && Repr(e, v.(stack := v.stack[..|v.stack| - k]), d)
            && (k >= 1 ==> d.eax == v.stack[|v.stack| - 1])
            && (k == 2 ==> d.edx == v.stack[|v.stack| - 2])
  {
    hide BodyPlan, Parse, InsnAt, EncodeAll, FinalCode, Offset, Repr, RunBlock, Bytes, Run, Verified, Site, BranchBody,
         Start, Typed, Compiled;
    var m := e.m;
    var k := InsnAt(m, p).insn.count;
    var body := BranchBody(InsnAt(m, p).insn);
    StartOf(e, depths, p, v, t, b);
    BranchBodyCond(InsnAt(m, p).insn);
    ReturnRuns(e, k, v, b);
    d := RunBlock(body[..|body| - 1], b).value;
    BranchPrefix(e, depths, tail, p, v, t, b);
    var l := FinalCode(m, depths);
    var site := Site(m, depths, BodyPlan(m, depths), p);
    ReturnLands(m, depths, p);
    JumpAt(l, tail, site, d);
    JumpInBytes(m, depths, tail);
    RunTwo(Bytes(m, depths, tail), t, b, |body| - 1, At(Offset(l, site)), d, 1,
           At(Offset(l, |BodyPlan(m, depths).code|)), d);
    n := |body|;
  }

  /** A return bytecode and the epilog. */
  lemma ReturnStep(m: Method, depths: map<nat, nat>, tail: seq<Byte>, c: Cpu, p: nat, v: Vars, t: Target, b: Cpu,
                   k: nat)
    returns (n: nat, d: Cpu)
    requires k <= 2 && k <= |v.stack|
    requires Verified(m, depths) && Compiled(m, depths) && Called(m, c) && c.esp >= 8 && EntryEnv(m, c).Valid()
    requires AtPc(EntryEnv(m, c), depths, p, v, t, b) && InsnAt(m, p).insn == ReturnWords(k)
    requires Fits(m, InsnAt(m, p).insn, v)
    ensures c.esp in c.mem
    ensures Run(Bytes(m, depths, tail), t, b, n) == Some((Returned(c.mem[c.esp]), d))
    ensures ReturnsTo(m, c, v.stack[|v.stack| - k..], d)
  {
    hide BodyPlan, Parse, InsnAt, FinalCode, Offset, Repr, Bytes, Run, Verified, Called, Compiled, AtPc, Fits,
         ReturnsTo, EntryMemory, Pops;
    var n1, b1 := ReturnJump(EntryEnv(m, c), depths, tail, p, v, t, b);
    d := EpilogRuns(m, depths, tail, c, v.(stack := v.stack[..|v.stack| - k]), b1);
    RunTwo(Bytes(m, depths, tail), t, b, n1, At(Offset(FinalCode(m, depths), |BodyPlan(m, depths).code|)), b1,
           3, Returned(c.mem[c.esp]), d);
    n := n1 + 3;
    ReturnsWords(m, c, v.stack, k, d);
  }

  lemma ReturnsWords(m: Method, c: Cpu, s: seq<Word>, k: int, d: Cpu)
    requires ReturnsTo(m, c, [], d) && 0 <= k <= 2 && k <= |s|
    requires k >= 1 ==> d.eax == s[|s| - 1]
    requires k == 2 ==> d.edx == s[|s| - 2]
    ensures ReturnsTo(m, c, s[|s| - k..], d)
  {
  }

  lemma JumpInBytes(m: Method, depths: map<nat, nat>, tail: seq<Byte>)
    requires Verified(m, depths)
    ensures Bytes(m, depths, tail) == EncodeAll(FinalCode(m, depths)) + tail
  {
    hide EncodeAll, FinalCode, Verified;
  }

  /** The jump of a return goes to the epilog. */
  lemma ReturnLands(m: Method, depths: map<nat, nat>, p: nat)
    requires Verified(m, depths) && Compiled(m, depths)
    requires p in BodyPlan(m, depths).idx && InsnAt(m, p).insn.ReturnWords?
    ensures var w := BodyPlan(m, depths);
            var l := FinalCode(m, depths);
            var k := Site(m, depths, w, p);
            && 0 <= k < |l| && |w.code| <= |l| && l[k].JmpRel?
            && Offset(l, k + 1) + l[k].rel == Offset(l, |w.code|)
  {
    hide BodyPlan, Parse, FinalCode, Offset, Site, BodyAt;
    CompiledFault(m, depths);
    FinalSite(m, depths, p);
    VerifiedNonempty(m, depths);
    BranchLandsIff(m, depths, p);
  }

  lemma CompiledFault(m: Method, depths: map<nat, nat>)
    requires Verified(m, depths) && Compiled(m, depths)
    ensures BodyPlan(m, depths).fault == NoFault
  {
    hide BodyPlan, Parse;
  }

  // ----- the theorem -----

  lemma {:induction false} RunReturns(m: Method, depths: map<nat, nat>, tail: seq<Byte>, c: Cpu, p: nat, v: Vars,
                                      t: Target, b: Cpu, steps: nat)
    returns (n: nat, d: Cpu)
    requires Verified(m, depths) && Compiled(m, depths) && Called(m, c) && c.esp >= 8 && EntryEnv(m, c).Valid()
    requires AtPc(EntryEnv(m, c), depths, p, v, t, b)
    requires ExactRun(m, depths, p, v, steps) && JavaRun(m, depths, p, v, steps).Finished?
    ensures c.esp in c.mem
    ensures Run(Bytes(m, depths, tail), t, b, n) == Some((Returned(c.mem[c.esp]), d))
    ensures ReturnsTo(m, c, JavaRun(m, depths, p, v, steps).words, d)
    decreases steps
  {
    hide Parse, BodyPlan, FinalCode, Offset, Repr, EncodeAll, Verified, InsnAt, StepExact, Compiled, Bytes, Step,
         Called, ReturnsTo, Run, Taken, Effect;
    var e := EntryEnv(m, c);
    TypedFits(m, depths, p, v);
    StepTyped(m, depths, p, v);
    var o := JavaStep(m, p, v);
    if o.Finished? {
      n, d := ReturnStep(m, depths, tail, c, p, v, t, b, InsnAt(m, p).insn.count);
    } else {
      var n1, u, b1 := StepSimulated(e, depths, tail, p, v, t, b);
      var n2, d2 := RunReturns(m, depths, tail, c, o.pc, o.vars, u, b1, steps - 1);
      RunTwo(Bytes(m, depths, tail), t, b, n1, u, b1, n2, Returned(c.mem[c.esp]), d2);
      n, d := n1 + n2, d2;
    }
  }

  /** The machine enters the method: after the prolog it is at the code of pc 0 with the caller's
      arguments as locals. */
  lemma MethodEntered(m: Method, depths: map<nat, nat>, tail: seq<Byte>, c: Cpu) returns (n: nat, t: Target, d: Cpu)
    requires Verified(m, depths) && Compiled(m, depths) && Called(m, c)
    ensures c.esp >= 8 && EntryEnv(m, c).Valid()
    ensures Run(Bytes(m, depths, tail), At(0), c, n) == Some((t, d))
    ensures Typed(m, depths, 0, EntryVars(m, c)) && AtPc(EntryEnv(m, c), depths, 0, EntryVars(m, c), t, d)
  {
    hide BodyPlan, Parse, EncodeAll, FinalCode, Prolog, Repr, RunBlock, Run, EntryMemory;
    d := PrologRuns(m, c);
    CompiledFault(m, depths);
    PrologPlaced(m, depths);
    var l := FinalCode(m, depths);
    var p := Prolog(m);
    assert l[0..0 + |p|] == p;
    RunBlockAt(l, tail, 0, p, c);
    assert Offset(l, 0) == 0;
    n, t := |p|, At(Offset(l, |p|));
    AtPcOf(EntryEnv(m, c), depths, 0, EntryVars(m, c), d);
  }

  lemma MethodReturns(m: Method, depths: map<nat, nat>, tail: seq<Byte>, c: Cpu, steps: nat)
    returns (n: nat, d: Cpu)
    requires Verified(m, depths) && Compiled(m, depths) && Called(m, c)
    requires Typed(m, depths, 0, EntryVars(m, c))
    requires ExactRun(m, depths, 0, EntryVars(m, c), steps)
    requires JavaRun(m, depths, 0, EntryVars(m, c), steps).Finished?
    ensures c.esp in c.mem
    ensures Run(Bytes(m, depths, tail), At(0), c, n) == Some((Returned(c.mem[c.esp]), d))
    ensures ReturnsTo(m, c, JavaRun(m, depths, 0, EntryVars(m, c), steps).words, d)
  {
    hide BodyPlan, Parse, EncodeAll, FinalCode, Repr, Run, Offset, Verified, Compiled, Bytes, Called, ReturnsTo,
         JavaRun, ExactRun, EntryVars;
    var n1, t, b := MethodEntered(m, depths, tail, c);
    var n2, d2 := RunReturns(m, depths, tail, c, 0, EntryVars(m, c), t, b, steps);
    RunTwo(Bytes(m, depths, tail), At(0), c, n1, t, b, n2, Returned(c.mem[c.esp]), d2);
    n, d := n1 + n2, d2;
  }

  /** Compiler correctness: called like any method, the emitted bytes return to the caller exactly
      what the bytecode returns, and drop the arguments, on every run whose steps are exact. */
  lemma MethodCorrect(m: Method, depths: map<nat, nat>, code: seq<Byte>, c: Cpu, steps: nat)
    returns (n: nat, d: Cpu)
    requires Verified(m, depths) && Compiled(m, depths) && Called(m, c)
    requires EncodeAll(FinalCode(m, depths)) <= code
    requires Typed(m, depths, 0, EntryVars(m, c))
    requires ExactRun(m, depths, 0, EntryVars(m, c), steps)
    requires JavaRun(m, depths, 0, EntryVars(m, c), steps).Finished?
    ensures c.esp in c.mem
    ensures Run(code, At(0), c, n) == Some((Returned(c.mem[c.esp]), d))
    ensures ReturnsTo(m, c, JavaRun(m, depths, 0, EntryVars(m, c), steps).words, d)
  {
    hide BodyPlan, Parse, EncodeAll, FinalCode, Repr, Run, Offset, Verified, Compiled, Called, ReturnsTo,
         JavaRun, ExactRun, EntryVars;
    var tail := code[|EncodeAll(FinalCode(m, depths))|..];
    assert code == Bytes(m, depths, tail);
    n, d := MethodReturns(m, depths, tail, c, steps);
  }
}
