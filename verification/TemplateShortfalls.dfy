/** Methods whose templates do not do what their bytecodes mean: an operand read unsigned, a value cut to
    one byte, a division that traps. */
module TemplateShortfalls {
  import opened Wrappers
  import opened Words
  import opened X86
  import opened Encoding
  import opened CodeStream
  import opened Bytecode
  import opened Frame
  import opened Templates
  import opened FrameProofs
  import opened TemplateProofs
  import opened Placement
  import opened Reachability
  import opened Room
  import opened Budget
  import opened Patching
  import opened Simulation
  import opened Correctness
  import opened Counterexamples

  // ----- short methods compile -----

  function CostIn(m: Method, depths: map<nat, nat>, p: nat): nat {
    if p in depths then Cost(m, depths, p) else 0
  }

  lemma RestOfFive(m: Method, depths: map<nat, nat>, n: nat)
    requires n <= 5
    ensures Rest(m, depths, {}, n) <= CostIn(m, depths, 0) + CostIn(m, depths, 1) + CostIn(m, depths, 2)
                                      + CostIn(m, depths, 3) + CostIn(m, depths, 4)
  {
    hide Cost;
    assert Rest(m, depths, {}, 0) == 0;
    assert n >= 1 ==> Rest(m, depths, {}, 1) == CostIn(m, depths, 0);
    assert n >= 2 ==> Rest(m, depths, {}, 2) == Rest(m, depths, {}, 1) + CostIn(m, depths, 1);
    assert n >= 3 ==> Rest(m, depths, {}, 3) == Rest(m, depths, {}, 2) + CostIn(m, depths, 2);
    assert n >= 4 ==> Rest(m, depths, {}, 4) == Rest(m, depths, {}, 3) + CostIn(m, depths, 3);
    assert n >= 5 ==> Rest(m, depths, {}, 5) == Rest(m, depths, {}, 4) + CostIn(m, depths, 4);
  }

  /** A method of at most five bytes and 86 bytes of templates compiles. */
  lemma ShortCompiles(m: Method, depths: map<nat, nat>)
    requires Verified(m, depths) && OffsetsFit(m) && |m.code| <= 5
    requires CostIn(m, depths, 0) + CostIn(m, depths, 1) + CostIn(m, depths, 2) + CostIn(m, depths, 3)
             + CostIn(m, depths, 4) <= 86
    ensures Compiled(m, depths)
  {
    hide BodyPlan, Parse, PcOk, Rest, Cost, Prolog, Offset;
    RestOfFive(m, depths, |m.code|);
    PrologBytes(m);
    BudgetSuffices(m, depths);
  }

  /** The templates used take few bytes. */
  lemma SmallCost(m: Method, depths: map<nat, nat>, p: nat)
    requires var i := InsnAt(m, p).insn;
             i.Bipush? || i.Sipush? || i.Load? || i.I2c? || i.IntDiv? || i == ReturnWords(1)
    ensures CostIn(m, depths, p) <= 20
  {
    hide InsnAt, Offset, Encode, Encodable, StoredStack, StoredLocal, Joined;
    var b := BodyAt(m, depths, p);
    var i := InsnAt(m, p).insn;
    if i.IntDiv? {
      DivideBytes();
    } else {
      forall k | 0 <= k < |b| ensures |Encode(b[k])| <= 7 {
        SmallInstr(b[k]);
      }
      BytesBound(b, 7);
    }
  }

  lemma SmallInstr(i: EncInstr)
    requires i.PushI? || i.PushR? || i.PopR? || i.JmpRel?
             || (i.MovRM? && i.src.BaseDisp? && i.src.base == Ebp) || (i.MovMR? && i.mem.BaseDisp? && i.mem.base == Ebp)
             || (i.Widen? && i.src.BaseDisp? && i.src.base == Ebp)
    ensures |Encode(i)| <= 7
  {
  }

  lemma DivideBytes()
    ensures var b: Code := [PopR(Ecx), PopR(Eax), Cdq, MulDivR(Idiv, Ecx), PushR(Eax)]; Offset(b, |b|) <= 10
  {
    hide Encode, Offset;
    var b: Code := [PopR(Ecx), PopR(Eax), Cdq, MulDivR(Idiv, Ecx), PushR(Eax)];
    forall k | 0 <= k < |b| ensures |Encode(b[k])| <= 2 {
      TwoBytes(b[k]);
    }
    BytesBound(b, 2);
  }

  lemma TwoBytes(i: EncInstr)
    requires i.PushR? || i.PopR? || i.Cdq? || i.MulDivR?
    ensures |Encode(i)| <= 2
  {
  }

  predicate Small(i: Insn) {
    i.Bipush? || i.Sipush? || i.Load? || i.I2c? || i.IntDiv? || i == ReturnWords(1)
  }

  /** A method of at most five bytes and at most four of these instructions compiles. */
  lemma SmallCompiles(m: Method, depths: map<nat, nat>, hole: nat)
    requires Verified(m, depths) && OffsetsFit(m) && |m.code| <= 5 && hole <= 4 && hole !in depths
    requires forall p :: p in depths ==> Small(InsnAt(m, p).insn)
    ensures Compiled(m, depths)
  {
    hide BodyPlan, Parse, PcOk, Compiled, CostIn, InsnAt, OffsetsFit;
    forall p: nat | p <= 4 ensures CostIn(m, depths, p) <= 20 && (p !in depths ==> CostIn(m, depths, p) == 0) {
      if p in depths {
        SmallCost(m, depths, p);
      } else {
        NoCost(m, depths, p);
      }
    }
    ShortCompiles(m, depths);
  }

  lemma NoCost(m: Method, depths: map<nat, nat>, p: nat)
    requires p !in depths
    ensures CostIn(m, depths, p) == 0
  {
  }

  /** An instruction that runs straight on, in the bytecode to `v` and in the compiled code to `w`. */
  lemma StepBoth(m: Method, depths: map<nat, nat>, tail: seq<Byte>, c: Cpu, p: nat, v: Vars, t: Target, b: Cpu,
                 w: Vars)
    returns (n: nat, u: Target, d: Cpu)
    requires Verified(m, depths) && Compiled(m, depths) && Called(m, c) && c.esp >= 8 && EntryEnv(m, c).Valid()
    requires AtPc(EntryEnv(m, c), depths, p, v, t, b) && !IsBranch(InsnAt(m, p).insn)
    requires Fits(m, InsnAt(m, p).insn, v) && CompiledEffect(m, InsnAt(m, p).insn, v) == Some(w)
    requires Typed(m, depths, InsnAt(m, p).next, w)
    ensures Run(Bytes(m, depths, tail), t, b, n) == Some((u, d))
    ensures AtPc(EntryEnv(m, c), depths, InsnAt(m, p).next, w, u, d)
  {
    hide BodyPlan, Parse, Run, Bytes, Verified, Compiled, Called, AtPc, InsnAt, EntryMemory;
    n, u, d := StraightRuns(EntryEnv(m, c), depths, tail, p, v, t, b, w);
  }

  /** A return of one word, all there is on the operand stack. */
  lemma ReturnOne(m: Method, depths: map<nat, nat>, tail: seq<Byte>, c: Cpu, p: nat, y: Word, t: Target, b: Cpu)
    returns (n: nat, d: Cpu)
    requires Verified(m, depths) && Compiled(m, depths) && Called(m, c) && c.esp >= 8 && EntryEnv(m, c).Valid()
    requires m.maxLocals == 0 && AtPc(EntryEnv(m, c), depths, p, Vars([], [y]), t, b)
    requires InsnAt(m, p).insn == ReturnWords(1)
    ensures c.esp in c.mem
    ensures Run(Bytes(m, depths, tail), t, b, n) == Some((Returned(c.mem[c.esp]), d))
    ensures ReturnsTo(m, c, [y], d)
  {
    hide BodyPlan, Parse, Run, Bytes, Verified, Compiled, Called, AtPc, InsnAt, EntryMemory, ReturnsTo, Env.Valid,
         EntryEnv;
    n, d := ReturnStep(m, depths, tail, c, p, Vars([], [y]), t, b, 1);
    assert [y][0..] == [y];
  }

  // ----- constants -----

  /** A method that pushes the constant of `i`, one instruction of `q` bytes, and returns it. */
  ghost predicate PushesAndReturns(m: Method, i: Insn, q: nat) {
    && (i.Bipush? || i.Sipush?) && 2 <= q <= 3
    && m == Method(m.code, 0, 1, 0, [], 0) && |m.code| == q + 1
    && Parse(m.code, 0) == Some(Parsed(i, q)) && Parse(m.code, q) == Some(Parsed(ReturnWords(1), q + 1))
    && LocalOk(m, i)
  }

  function ConstantDepths(q: nat): map<nat, nat> {
    map[0 := 0, q := 1]
  }

  lemma ConstantCompiles(m: Method, i: Insn, q: nat)
    requires PushesAndReturns(m, i, q)
    ensures Verified(m, ConstantDepths(q)) && Compiled(m, ConstantDepths(q))
    ensures InsnAt(m, 0) == Parsed(i, q) && InsnAt(m, q).insn == ReturnWords(1)
  {
    hide Parse, Compiled;
    var depths := ConstantDepths(q);
    assert PcOk(m, depths, 0) && PcOk(m, depths, q);
    SmallCompiles(m, depths, 1);
  }

  /** What the bytecode pushes and what its template pushes are what the two return. */
  lemma ConstantReturns(m: Method, i: Insn, q: nat, x: Word, y: Word, tail: seq<Byte>, c: Cpu)
    returns (n: nat, d: Cpu)
    requires PushesAndReturns(m, i, q) && Called(m, c)
    requires Effect(m, i, V0) == Some(Vars([], [x])) && CompiledEffect(m, i, V0) == Some(Vars([], [y]))
    ensures Verified(m, ConstantDepths(q)) && Typed(m, ConstantDepths(q), 0, EntryVars(m, c))
    ensures JavaRun(m, ConstantDepths(q), 0, EntryVars(m, c), 2) == Finished([x])
    ensures c.esp in c.mem
    ensures Run(Bytes(m, ConstantDepths(q), tail), At(0), c, n) == Some((Returned(c.mem[c.esp]), d))
    ensures ReturnsTo(m, c, [y], d)
  {
    hide BodyPlan, Parse, Run, Bytes, Verified, Compiled, Called, AtPc, InsnAt, EntryVars, JavaRun, EntryMemory,
         CompiledEffect, Effect, ReturnsTo, EntryEnv, FinalCode, OffsetsFit, Offset, Repr, Env.Valid, Fits, Typed;
    var depths := ConstantDepths(q);
    ConstantCompiles(m, i, q);
    ConstantFits(m, i, q, y);
    EntryEmpty(m, c);
    ConstantRuns(m, i, q, x);
    var n1, t1, d1 := MethodEntered(m, depths, tail, c);
    var n2, t2, d2 := StepBoth(m, depths, tail, c, 0, V0, t1, d1, Vars([], [y]));
    var n3, d3 := ReturnOne(m, depths, tail, c, q, y, t2, d2);
    var code := Bytes(m, depths, tail);
    RunTwo(code, At(0), c, n1, t1, d1, n2, t2, d2);
    RunTwo(code, At(0), c, n1 + n2, t2, d2, n3, Returned(c.mem[c.esp]), d3);
    n, d := n1 + n2 + n3, d3;
  }

  lemma ConstantFits(m: Method, i: Insn, q: nat, y: Word)
    requires PushesAndReturns(m, i, q)
    ensures Fits(m, i, V0) && Typed(m, ConstantDepths(q), q, Vars([], [y]))
  {
    hide Parse;
  }

  lemma ConstantRuns(m: Method, i: Insn, q: nat, x: Word)
    requires PushesAndReturns(m, i, q) && Effect(m, i, V0) == Some(Vars([], [x]))
    ensures Verified(m, ConstantDepths(q)) && Typed(m, ConstantDepths(q), 0, V0)
    ensures JavaRun(m, ConstantDepths(q), 0, V0, 2) == Finished([x])
  {
    hide Parse, Verified, JavaRun, InsnAt, Compiled;
    var depths, w := ConstantDepths(q), Vars([], [x]);
    ConstantCompiles(m, i, q);
    JavaOn(m, depths, 0, V0, 1, q, w);
    ReturnOneStep(m, q, w, x);
    JavaEnds(m, depths, q, w, [x]);
  }

  lemma JavaEnds(m: Method, depths: map<nat, nat>, p: nat, v: Vars, words: seq<Word>)
    requires Verified(m, depths) && Typed(m, depths, p, v)
    requires Parse(m.code, p).Some? && Fits(m, Parse(m.code, p).value.insn, v)
    requires JavaStep(m, p, v) == Finished(words)
    ensures JavaRun(m, depths, p, v, 1) == Finished(words)
  {
    hide Parse, Verified, JavaStep;
  }

  function BipushMethod(b: Byte): Method {
    Method([0x10, b, 0xac], 0, 1, 0, [], 0)
  }

  /** BIPUSH of any negative operand: the bytecode returns it, the compiled code returns 256 more. */
  lemma BipushReturnsUnsigned(b: Byte, tail: seq<Byte>, c: Cpu) returns (n: nat, d: Cpu)
    requires b >= 128 && Called(BipushMethod(b), c)
    ensures var m, depths := BipushMethod(b), ConstantDepths(2);
            && Verified(m, depths) && Typed(m, depths, 0, EntryVars(m, c))
            && JavaRun(m, depths, 0, EntryVars(m, c), 2) == Finished([Wrap(b - 256)])
            && c.esp in c.mem
            && Run(Bytes(m, depths, tail), At(0), c, n) == Some((Returned(c.mem[c.esp]), d))
            && ReturnsTo(m, c, [b], d)
  {
    hide BodyPlan, Run, Bytes, Verified, Called, EntryVars, JavaRun, ReturnsTo;
    var x: Word := Wrap(b - 256);
    assert V0.stack + [x] == [x] && V0.stack + [b] == [b];
    n, d := ConstantReturns(BipushMethod(b), Bipush(b), 2, Wrap(b - 256), b, tail, c);
  }

  function SipushMethod(u: nat): Method
    requires u < TWO_16
  {
    Method([0x11, u / 0x100, u % 0x100, 0xac], 0, 1, 0, [], 0)
  }

  /** SIPUSH of any negative operand. */
  lemma SipushReturnsUnsigned(u: nat, tail: seq<Byte>, c: Cpu) returns (n: nat, d: Cpu)
    requires TWO_15 <= u < TWO_16 && Called(SipushMethod(u), c)
    ensures var m, depths := SipushMethod(u), ConstantDepths(3);
            && Verified(m, depths) && Typed(m, depths, 0, EntryVars(m, c))
            && JavaRun(m, depths, 0, EntryVars(m, c), 2) == Finished([Wrap(u - TWO_16)])
            && c.esp in c.mem
            && Run(Bytes(m, depths, tail), At(0), c, n) == Some((Returned(c.mem[c.esp]), d))
            && ReturnsTo(m, c, [u], d)
  {
    hide BodyPlan, Run, Bytes, Verified, Called, EntryVars, JavaRun, ReturnsTo;
    var x: Word := Wrap(u - TWO_16);
    assert V0.stack + [x] == [x] && V0.stack + [u] == [u];
    n, d := ConstantReturns(SipushMethod(u), Sipush(u), 3, Wrap(u - TWO_16), u, tail, c);
  }

  // ----- a value cut to one byte -----

  /** sipush u; i2c; ireturn. */
  function CharMethod(u: nat): Method
    requires u < TWO_16
  {
    Method([0x11, u / 0x100, u % 0x100, 0x92, 0xac], 0, 1, 0, [], 0)
  }

  const CHAR_DEPTHS: map<nat, nat> := map[0 := 0, 3 := 1, 4 := 1]

  lemma CharCompiles(u: nat)
    requires u < TWO_15
    ensures var m := CharMethod(u);
            && Parse(m.code, 0) == Some(Parsed(Sipush(u), 3)) && Parse(m.code, 3) == Some(Parsed(I2c, 4))
            && Parse(m.code, 4) == Some(Parsed(ReturnWords(1), 5))
            && Verified(m, CHAR_DEPTHS) && Compiled(m, CHAR_DEPTHS)
            && InsnAt(m, 0) == Parsed(Sipush(u), 3) && InsnAt(m, 3) == Parsed(I2c, 4)
            && InsnAt(m, 4).insn == ReturnWords(1)
  {
    hide Compiled, Parse, Verified;
    var m := CharMethod(u);
    CharParses(u);
    CharVerified(m, u);
    SmallCompiles(m, CHAR_DEPTHS, 1);
  }

  lemma CharParses(u: nat)
    requires u < TWO_15
    ensures var m := CharMethod(u);
            && Parse(m.code, 0) == Some(Parsed(Sipush(u), 3)) && Parse(m.code, 3) == Some(Parsed(I2c, 4))
            && Parse(m.code, 4) == Some(Parsed(ReturnWords(1), 5))
  {
  }

  lemma CharVerified(m: Method, u: nat)
    requires u < TWO_15 && m == Method(m.code, 0, 1, 0, [], 0) && |m.code| == 5
    requires Parse(m.code, 0) == Some(Parsed(Sipush(u), 3)) && Parse(m.code, 3) == Some(Parsed(I2c, 4))
    requires Parse(m.code, 4) == Some(Parsed(ReturnWords(1), 5))
    ensures Verified(m, CHAR_DEPTHS)
  {
    hide Parse;
    assert PcOk(m, CHAR_DEPTHS, 0) && PcOk(m, CHAR_DEPTHS, 3) && PcOk(m, CHAR_DEPTHS, 4);
  }

  /** I2C of any value from 256 up: the bytecode returns the value, the compiled code its low byte. */
  lemma CharReturnsByte(u: nat, tail: seq<Byte>, c: Cpu) returns (n: nat, d: Cpu)
    requires TWO_8 <= u < TWO_15 && Called(CharMethod(u), c)
    ensures var m := CharMethod(u);
            && Verified(m, CHAR_DEPTHS) && Typed(m, CHAR_DEPTHS, 0, EntryVars(m, c))
            && JavaRun(m, CHAR_DEPTHS, 0, EntryVars(m, c), 3) == Finished([u])
            && c.esp in c.mem
            && Run(Bytes(m, CHAR_DEPTHS, tail), At(0), c, n) == Some((Returned(c.mem[c.esp]), d))
            && ReturnsTo(m, c, [u % TWO_8], d)
  {
    hide BodyPlan, Parse, Run, Bytes, Verified, Compiled, Called, AtPc, InsnAt, EntryVars, JavaRun, EntryMemory,
         ReturnsTo, CharMethod;
    CharFrame(u);
    EntryEmpty(CharMethod(u), c);
    CharRuns(u);
    n, d := CharCodeReturns(CharMethod(u), u, tail, c);
  }

  /** The compiled code of the three instructions. */
  lemma CharCodeReturns(m: Method, u: Word, tail: seq<Byte>, c: Cpu) returns (n: nat, d: Cpu)
    requires u < TWO_15 && m == CharMethod(u) && Called(m, c) && EntryVars(m, c) == V0
    ensures Verified(m, CHAR_DEPTHS) && c.esp in c.mem
    ensures Run(Bytes(m, CHAR_DEPTHS, tail), At(0), c, n) == Some((Returned(c.mem[c.esp]), d))
    ensures ReturnsTo(m, c, [u % TWO_8], d)
  {
    hide BodyPlan, Parse, Run, Bytes, Verified, Compiled, Called, AtPc, InsnAt, EntryVars, EntryMemory, ReturnsTo,
         CharMethod, Typed, Fits, CompiledEffect, Effect, OffsetsFit, Env.Valid;
    var low: Word := u % TWO_8;
    CharCompiles(u);
    CharFrame(u);
    CharEffects(m, u);
    CharTyped(m, u, low);
    n, d := TwoStepsReturn(m, CHAR_DEPTHS, tail, c, 3, 4, u, low);
  }

  /** Two straight-line instructions and a return, from an empty frame. */
  lemma TwoStepsReturn(m: Method, depths: map<nat, nat>, tail: seq<Byte>, c: Cpu, p: nat, q: nat, x: Word, y: Word)
    returns (n: nat, d: Cpu)
    requires Verified(m, depths) && Compiled(m, depths) && Called(m, c) && EntryVars(m, c) == V0
    requires !IsBranch(InsnAt(m, 0).insn) && InsnAt(m, 0).next == p && Fits(m, InsnAt(m, 0).insn, V0)
    requires CompiledEffect(m, InsnAt(m, 0).insn, V0) == Some(Vars([], [x])) && Typed(m, depths, p, Vars([], [x]))
    requires !IsBranch(InsnAt(m, p).insn) && InsnAt(m, p).next == q && Fits(m, InsnAt(m, p).insn, Vars([], [x]))
    requires CompiledEffect(m, InsnAt(m, p).insn, Vars([], [x])) == Some(Vars([], [y]))
    requires Typed(m, depths, q, Vars([], [y]))
    requires InsnAt(m, q).insn == ReturnWords(1) && m.maxLocals == 0
    ensures c.esp in c.mem
    ensures Run(Bytes(m, depths, tail), At(0), c, n) == Some((Returned(c.mem[c.esp]), d))
    ensures ReturnsTo(m, c, [y], d)
  {
    hide BodyPlan, Parse, Run, Bytes, Verified, Compiled, Called, AtPc, InsnAt, EntryVars, EntryMemory, ReturnsTo,
         Typed, Fits, CompiledEffect, Env.Valid, EntryEnv, FinalCode, OffsetsFit, Offset, Repr;
    var n1, t1, d1 := MethodEntered(m, depths, tail, c);
    var n2, t2, d2 := StepBoth(m, depths, tail, c, 0, V0, t1, d1, Vars([], [x]));
    var n3, t3, d3 := StepBoth(m, depths, tail, c, p, Vars([], [x]), t2, d2, Vars([], [y]));
    var n4, d4 := ReturnOne(m, depths, tail, c, q, y, t3, d3);
    var code := Bytes(m, depths, tail);
    RunTwo(code, At(0), c, n1, t1, d1, n2, t2, d2);
    RunTwo(code, At(0), c, n1 + n2, t2, d2, n3, t3, d3);
    RunTwo(code, At(0), c, n1 + n2 + n3, t3, d3, n4, Returned(c.mem[c.esp]), d4);
    n, d := n1 + n2 + n3 + n4, d4;
  }

  lemma CharTyped(m: Method, u: Word, low: Word)
    requires m.maxLocals == 0
    ensures Typed(m, CHAR_DEPTHS, 0, V0)
    ensures Typed(m, CHAR_DEPTHS, 3, Vars([], [u])) && Typed(m, CHAR_DEPTHS, 4, Vars([], [low]))
    ensures Fits(m, ReturnWords(1), Vars([], [low]))
  {
  }

  lemma CharFrame(u: nat)
    requires u < TWO_16
    ensures CharMethod(u).maxLocals == 0
  {
  }

  lemma CharEffects(m: Method, u: Word)
    requires u < TWO_15 && m.maxLocals == 0
    ensures Fits(m, Sipush(u), V0) && Fits(m, I2c, Vars([], [u]))
    ensures Effect(m, Sipush(u), V0) == CompiledEffect(m, Sipush(u), V0) == Some(Vars([], [u]))
    ensures Effect(m, I2c, Vars([], [u])) == Some(Vars([], [u]))
    ensures CompiledEffect(m, I2c, Vars([], [u])) == Some(Vars([], [u % TWO_8]))
  {
    hide Effect, CompiledEffect;
    PushEffect(m, u);
    CutEffect(m, u);
  }

  lemma PushEffect(m: Method, u: Word)
    requires u < TWO_15 && m.maxLocals == 0
    ensures Fits(m, Sipush(u), V0)
    ensures Effect(m, Sipush(u), V0) == CompiledEffect(m, Sipush(u), V0) == Some(Vars([], [u]))
  {
    assert Wrap(SignExtend16(u)) == u;
    assert V0.stack + [u] == [u];
  }

  lemma CutEffect(m: Method, u: Word)
    requires u < TWO_15 && m.maxLocals == 0
    ensures Fits(m, I2c, Vars([], [u]))
    ensures Effect(m, I2c, Vars([], [u])) == Some(Vars([], [u]))
    ensures CompiledEffect(m, I2c, Vars([], [u])) == Some(Vars([], [u % TWO_8]))
  {
    hide Effect, CompiledEffect;
    CutAny(m, Vars([], [u]));
    assert u % TWO_16 == u;
    assert [u][..0] + [u] == [u];
    assert [u][..0] + [u % TWO_8] == [u % TWO_8];
  }

  lemma CutAny(m: Method, v: Vars)
    requires Fits(m, I2c, v)
    ensures var s, n := v.stack, |v.stack|;
            && Effect(m, I2c, v) == Some(v.(stack := s[..n - 1] + [s[n - 1] % TWO_16]))
            && CompiledEffect(m, I2c, v) == Some(v.(stack := s[..n - 1] + [s[n - 1] % TWO_8]))
  {
  }

  lemma CharRuns(u: Word)
    requires u < TWO_15
    ensures var m := CharMethod(u);
            && Verified(m, CHAR_DEPTHS) && Typed(m, CHAR_DEPTHS, 0, V0)
            && JavaRun(m, CHAR_DEPTHS, 0, V0, 3) == Finished([u])
  {
    hide Parse, Verified, JavaRun, JavaStep, InsnAt, Compiled, CharMethod, Fits, Typed;
    var m, w := CharMethod(u), Vars([], [u]);
    CharCompiles(u);
    CharFrame(u);
    CharTyped(m, u, u);
    CharSteps(m, u);
    JavaOn(m, CHAR_DEPTHS, 0, V0, 2, 3, w);
    JavaOn(m, CHAR_DEPTHS, 3, w, 1, 4, w);
    JavaEnds(m, CHAR_DEPTHS, 4, w, [u]);
  }

  lemma CharSteps(m: Method, u: Word)
    requires u < TWO_15 && m.maxLocals == 0
    requires Parse(m.code, 0) == Some(Parsed(Sipush(u), 3)) && Parse(m.code, 3) == Some(Parsed(I2c, 4))
    requires Parse(m.code, 4) == Some(Parsed(ReturnWords(1), 5))
    ensures Fits(m, Sipush(u), V0) && JavaStep(m, 0, V0) == Running(3, Vars([], [u]))
    ensures Fits(m, I2c, Vars([], [u])) && JavaStep(m, 3, Vars([], [u])) == Running(4, Vars([], [u]))
    ensures Fits(m, ReturnWords(1), Vars([], [u])) && JavaStep(m, 4, Vars([], [u])) == Finished([u])
  {
    hide Parse, Effect, CompiledEffect;
    CharEffects(m, u);
    ReturnOneStep(m, 4, Vars([], [u]), u);
  }

  // ----- the division that overflows -----

  /** iload_0; iload_1; idiv; ireturn, called with two ints. */
  const DIVIDE: Method := Method([0x1a, 0x1b, 0x6c, 0xac], 2, 2, 2, [], 0)
  const DIVIDE_DEPTHS: map<nat, nat> := map[0 := 0, 1 := 1, 2 := 2, 3 := 1]

  lemma DivideCompiles()
    ensures Parse(DIVIDE.code, 0) == Some(Parsed(Load(0), 1)) && Parse(DIVIDE.code, 1) == Some(Parsed(Load(1), 2))
    ensures Parse(DIVIDE.code, 2) == Some(Parsed(IntDiv, 3))
    ensures Parse(DIVIDE.code, 3) == Some(Parsed(ReturnWords(1), 4))
    ensures Verified(DIVIDE, DIVIDE_DEPTHS) && Compiled(DIVIDE, DIVIDE_DEPTHS)
    ensures InsnAt(DIVIDE, 0) == Parsed(Load(0), 1) && InsnAt(DIVIDE, 1) == Parsed(Load(1), 2)
    ensures InsnAt(DIVIDE, 2) == Parsed(IntDiv, 3) && InsnAt(DIVIDE, 3).insn == ReturnWords(1)
  {
    hide Compiled, Parse, Verified;
    DivideParses();
    DivideVerified();
    SmallCompiles(DIVIDE, DIVIDE_DEPTHS, 4);
  }

  lemma DivideParses()
    ensures Parse(DIVIDE.code, 0) == Some(Parsed(Load(0), 1)) && Parse(DIVIDE.code, 1) == Some(Parsed(Load(1), 2))
    ensures Parse(DIVIDE.code, 2) == Some(Parsed(IntDiv, 3))
    ensures Parse(DIVIDE.code, 3) == Some(Parsed(ReturnWords(1), 4))
  {
  }

  lemma DivideVerified()
    ensures Verified(DIVIDE, DIVIDE_DEPTHS)
  {
    hide Parse, PcOk;
    DivideParses();
    forall p | p in DIVIDE_DEPTHS ensures PcOk(DIVIDE, DIVIDE_DEPTHS, p) {
      if p < 2 {
        DivideLoads(p);
      } else {
        DivideEnds(p);
      }
    }
  }

  lemma DivideLoads(p: nat)
    requires p < 2 && Parse(DIVIDE.code, p) == Some(Parsed(Load(p), p + 1))
    ensures p in DIVIDE_DEPTHS && PcOk(DIVIDE, DIVIDE_DEPTHS, p)
  {
    hide Parse;
  }

  lemma DivideEnds(p: nat)
    requires 2 <= p < 4 && Parse(DIVIDE.code, p) == Some(Parsed(if p == 2 then IntDiv else ReturnWords(1), p + 1))
    ensures p in DIVIDE_DEPTHS && PcOk(DIVIDE, DIVIDE_DEPTHS, p)
  {
    hide Parse;
  }

  const MIN_INT: Word := 0x8000_0000

  /** The smallest int divided by -1: the bytecode returns it, the compiled code traps. */
  lemma DivideTraps(tail: seq<Byte>, c: Cpu) returns (n: nat)
    requires Called(DIVIDE, c)
    requires EntryVars(DIVIDE, c).locals == [MIN_INT, Wrap(-1)]
    ensures Verified(DIVIDE, DIVIDE_DEPTHS) && Typed(DIVIDE, DIVIDE_DEPTHS, 0, EntryVars(DIVIDE, c))
    ensures JavaRun(DIVIDE, DIVIDE_DEPTHS, 0, EntryVars(DIVIDE, c), 4) == Finished([MIN_INT])
    ensures Run(Bytes(DIVIDE, DIVIDE_DEPTHS, tail), At(0), c, n) == None
  {
    hide BodyPlan, Parse, Run, Bytes, Verified, Compiled, Called, AtPc, InsnAt, EntryVars, JavaRun, EntryMemory,
         Effect, CompiledEffect;
    var m, ls := DIVIDE, [MIN_INT, Wrap(-1)];
    DivideCompiles();
    EntryStack(m, c);
    DivideEffects(ls);
    DivideRuns(ls);
    var n1, t1, d1 := MethodEntered(m, DIVIDE_DEPTHS, tail, c);
    var n2, t2, d2 := StepBoth(m, DIVIDE_DEPTHS, tail, c, 0, Vars(ls, []), t1, d1, Vars(ls, ls[..1]));
    var n3, t3, d3 := StepBoth(m, DIVIDE_DEPTHS, tail, c, 1, Vars(ls, ls[..1]), t2, d2, Vars(ls, ls));
    var n4 := StraightTraps(EntryEnv(m, c), DIVIDE_DEPTHS, tail, 2, Vars(ls, ls), t3, d3);
    var code := Bytes(m, DIVIDE_DEPTHS, tail);
    RunTwo(code, At(0), c, n1, t1, d1, n2, t2, d2);
    RunTwo(code, At(0), c, n1 + n2, t2, d2, n3, t3, d3);
    RunCompose(code, At(0), c, n1 + n2 + n3, n4);
    n := n1 + n2 + n3 + n4;
  }

  lemma EntryStack(m: Method, c: Cpu)
    requires Called(m, c)
    ensures EntryVars(m, c).stack == []
  {
  }

  lemma DivideEffects(ls: seq<Word>)
    requires ls == [MIN_INT, Wrap(-1)]
    ensures Fits(DIVIDE, Load(0), Vars(ls, [])) && Fits(DIVIDE, Load(1), Vars(ls, ls[..1]))
    ensures Fits(DIVIDE, IntDiv, Vars(ls, ls))
    ensures Effect(DIVIDE, Load(0), Vars(ls, [])) == CompiledEffect(DIVIDE, Load(0), Vars(ls, []))
            == Some(Vars(ls, ls[..1]))
    ensures Effect(DIVIDE, Load(1), Vars(ls, ls[..1])) == CompiledEffect(DIVIDE, Load(1), Vars(ls, ls[..1]))
            == Some(Vars(ls, ls))
    ensures Effect(DIVIDE, IntDiv, Vars(ls, ls)) == Some(Vars(ls, [MIN_INT]))
    ensures CompiledEffect(DIVIDE, IntDiv, Vars(ls, ls)) == None
  {
    assert [] + [ls[0]] == ls[..1] && ls[..1] + [ls[1]] == ls && ls[..0] == [];
    assert ls[..0] + [MIN_INT] == [MIN_INT];
    assert Signed(MIN_INT) == -TWO_31 && Signed(Wrap(-1)) == -1;
    assert TruncDiv(-TWO_31, -1) == TWO_31 && Wrap(TWO_31) == MIN_INT;
  }

  lemma DivideRuns(ls: seq<Word>)
    requires ls == [MIN_INT, Wrap(-1)]
    ensures Verified(DIVIDE, DIVIDE_DEPTHS) && Typed(DIVIDE, DIVIDE_DEPTHS, 0, Vars(ls, []))
    ensures JavaRun(DIVIDE, DIVIDE_DEPTHS, 0, Vars(ls, []), 4) == Finished([MIN_INT])
  {
    hide Parse, Verified, JavaRun, JavaStep, InsnAt, Compiled, Fits, Typed;
    var m, w := DIVIDE, Vars(ls, [MIN_INT]);
    DivideCompiles();
    DivideTyped(ls);
    DivideSteps(ls);
    JavaOn(m, DIVIDE_DEPTHS, 0, Vars(ls, []), 3, 1, Vars(ls, ls[..1]));
    JavaOn(m, DIVIDE_DEPTHS, 1, Vars(ls, ls[..1]), 2, 2, Vars(ls, ls));
    JavaOn(m, DIVIDE_DEPTHS, 2, Vars(ls, ls), 1, 3, w);
    JavaEnds(m, DIVIDE_DEPTHS, 3, w, [MIN_INT]);
  }

  lemma DivideTyped(ls: seq<Word>)
    requires |ls| == 2
    ensures Typed(DIVIDE, DIVIDE_DEPTHS, 0, Vars(ls, [])) && Typed(DIVIDE, DIVIDE_DEPTHS, 1, Vars(ls, ls[..1]))
    ensures Typed(DIVIDE, DIVIDE_DEPTHS, 2, Vars(ls, ls)) && Typed(DIVIDE, DIVIDE_DEPTHS, 3, Vars(ls, [MIN_INT]))
  {
  }

  lemma DivideSteps(ls: seq<Word>)
    requires ls == [MIN_INT, Wrap(-1)]
    requires Parse(DIVIDE.code, 0) == Some(Parsed(Load(0), 1)) && Parse(DIVIDE.code, 1) == Some(Parsed(Load(1), 2))
    requires Parse(DIVIDE.code, 2) == Some(Parsed(IntDiv, 3))
    requires Parse(DIVIDE.code, 3) == Some(Parsed(ReturnWords(1), 4))
    ensures Fits(DIVIDE, Load(0), Vars(ls, [])) && JavaStep(DIVIDE, 0, Vars(ls, [])) == Running(1, Vars(ls, ls[..1]))
    ensures Fits(DIVIDE, Load(1), Vars(ls, ls[..1]))
    ensures JavaStep(DIVIDE, 1, Vars(ls, ls[..1])) == Running(2, Vars(ls, ls))
    ensures Fits(DIVIDE, IntDiv, Vars(ls, ls)) && JavaStep(DIVIDE, 2, Vars(ls, ls)) == Running(3, Vars(ls, [MIN_INT]))
    ensures Fits(DIVIDE, ReturnWords(1), Vars(ls, [MIN_INT]))
    ensures JavaStep(DIVIDE, 3, Vars(ls, [MIN_INT])) == Finished([MIN_INT])
  {
    hide Parse, Effect, CompiledEffect;
    DivideEffects(ls);
    ReturnOneStep(DIVIDE, 3, Vars(ls, [MIN_INT]), MIN_INT);
  }
}
