/** Inputs on which the compiled code does not do what the bytecode means, or is not produced. */
module Counterexamples {
  import opened Wrappers
  import opened Words
  import opened X86
  import opened Encoding
  import opened CodeStream
  import opened Bytecode
  import opened Frame
  import opened Templates
  import opened FrameProofs
  import opened TemplateProofs
  import opened Placement
  import opened Reachability
  import opened Room
  import opened Patching
  import opened Simulation
  import opened Correctness

  // ----- following the walk on one method -----

  /** The parts of a plan that decide how the walk goes on. */
  predicate Has(w: Plan, idx: map<nat, nat>, missed: set<nat>, len: nat, pos: nat, cap: nat) {
    w.idx == idx && w.missed == missed && |w.code| == len && w.Pos() == pos && w.cap == cap && w.fault == NoFault
  }

  lemma EmitHas(m: Method, depths: map<nat, nat>, p: nat, w: Plan,
                idx: map<nat, nat>, missed: set<nat>, len: nat, pos: nat, cap: nat)
    requires Has(w, idx, missed, len, pos, cap)
    ensures var b := BodyAt(m, depths, p);
            Has(Emit(m, depths, p, w), idx[p := len], missed, len + |b|, pos + Offset(b, |b|), cap)
  {
    hide BodyAt, Offset;
    OffsetConcat(w.code, BodyAt(m, depths, p), |BodyAt(m, depths, p)|);
  }

  lemma SetBufHas(w: Plan, idx: map<nat, nat>, missed: set<nat>, len: nat, pos: nat, cap: nat)
    requires Has(w, idx, missed, len, pos, cap) && 2 * cap < TWO_15
    ensures Has(SetBuf(w), idx, missed, len, pos, if cap - pos >= 100 then cap else 2 * cap)
  {
    hide Offset;
  }

  /** A straight-line instruction or a return. */
  lemma SelectOn(m: Method, depths: map<nat, nat>, p: nat, w: Plan)
    requires Verified(m, depths) && p in depths && w.idx.Keys <= depths.Keys && w.fault == NoFault && p !in w.idx
    requires !IsBranch(InsnAt(m, p).insn) || InsnAt(m, p).insn.ReturnWords?
    requires !IsBranch(InsnAt(m, p).insn) ==> InsnAt(m, p).next != p && InsnAt(m, p).next !in w.idx
    ensures var w2 := SetBuf(Emit(m, depths, p, w));
            && (IsBranch(InsnAt(m, p).insn) ==> Select(m, depths, p, w) == w2)
            && (!IsBranch(InsnAt(m, p).insn) ==>
                  InsnAt(m, p).next in depths && Select(m, depths, p, w) == Select(m, depths, InsnAt(m, p).next, w2))
  {
    hide Verified, InsnAt, BodyAt, SetBuf;
    SuccsIn(m, depths, p);
  }

  // ----- a missed fall-through -----

  /** iconst_0; ifeq 7; goto 11; iconst_0; ifne 13; iconst_1; ireturn; iconst_2; ireturn: the branch
      at 8 is not taken and 11 returns 1, but 11 was placed before, behind the goto. */
  const MISSED: Method := Method([0x03, 0x99, 0x00, 0x06, 0xa7, 0x00, 0x07,
                                  0x03, 0x9a, 0x00, 0x05, 0x04, 0xac, 0x05, 0xac],
                                 0, 1, 0, [], 0)

  const MISSED_DEPTHS: map<nat, nat> := map[0 := 0, 1 := 1, 4 := 0, 7 := 0, 8 := 1, 11 := 0, 12 := 1, 13 := 0, 14 := 1]

  lemma MissedParses()
    ensures Parse(MISSED.code, 0) == Some(Parsed(Iconst(0), 1))
    ensures Parse(MISSED.code, 1) == Some(Parsed(IfZero(CcEq, 7), 4))
    ensures Parse(MISSED.code, 4) == Some(Parsed(Goto(11), 7))
    ensures Parse(MISSED.code, 7) == Some(Parsed(Iconst(0), 8))
    ensures Parse(MISSED.code, 8) == Some(Parsed(IfZero(CcNe, 13), 11))
    ensures Parse(MISSED.code, 11) == Some(Parsed(Iconst(1), 12))
    ensures Parse(MISSED.code, 12) == Some(Parsed(ReturnWords(1), 13))
    ensures Parse(MISSED.code, 13) == Some(Parsed(Iconst(2), 14))
    ensures Parse(MISSED.code, 14) == Some(Parsed(ReturnWords(1), 15))
  {
    hide Parse;
    MissedStarts();
    MissedEnds();
  }

  lemma MissedStarts()
    ensures Parse(MISSED.code, 0) == Some(Parsed(Iconst(0), 1))
    ensures Parse(MISSED.code, 1) == Some(Parsed(IfZero(CcEq, 7), 4))
    ensures Parse(MISSED.code, 4) == Some(Parsed(Goto(11), 7))
    ensures Parse(MISSED.code, 7) == Some(Parsed(Iconst(0), 8))
  {
  }

  lemma MissedEnds()
    ensures Parse(MISSED.code, 8) == Some(Parsed(IfZero(CcNe, 13), 11))
    ensures Parse(MISSED.code, 11) == Some(Parsed(Iconst(1), 12))
    ensures Parse(MISSED.code, 12) == Some(Parsed(ReturnWords(1), 13))
    ensures Parse(MISSED.code, 13) == Some(Parsed(Iconst(2), 14))
    ensures Parse(MISSED.code, 14) == Some(Parsed(ReturnWords(1), 15))
  {
  }

  lemma MissedVerified()
    ensures Verified(MISSED, MISSED_DEPTHS)
  {
    hide Parse, PcOk;
    forall p | p in MISSED_DEPTHS ensures PcOk(MISSED, MISSED_DEPTHS, p) {
      if p <= 1 {
        MissedFirst(p);
      } else if p == 4 {
        MissedGoto();
      } else if p <= 11 {
        MissedSecond(p);
      } else {
        MissedThird(p);
      }
    }
  }

  lemma MissedGoto()
    ensures 4 in MISSED_DEPTHS && PcOk(MISSED, MISSED_DEPTHS, 4)
  {
    hide Parse;
    MissedParses();
  }

  lemma MissedFirst(p: nat)
    requires p == 0 || p == 1
    ensures p in MISSED_DEPTHS && PcOk(MISSED, MISSED_DEPTHS, p)
  {
    hide Parse;
    MissedParses();
  }

  lemma MissedSecond(p: nat)
    requires p == 7 || p == 8 || p == 11
    ensures p in MISSED_DEPTHS && PcOk(MISSED, MISSED_DEPTHS, p)
  {
    hide Parse;
    MissedParses();
  }

  lemma MissedThird(p: nat)
    requires p == 12 || p == 13 || p == 14
    ensures p in MISSED_DEPTHS && PcOk(MISSED, MISSED_DEPTHS, p)
  {
    hide Parse;
    MissedParses();
  }

  /** The bytes of the templates used. */
  lemma PushSize(w: Word)
    ensures var b: Code := [PushI(w)]; Offset(b, |b|) == 5
  {
    var b: Code := [PushI(w)];
    assert |Encode(b[0])| == 5;
    assert Offset(b, 0) == 0;
  }

  lemma ReturnSize()
    ensures var b: Code := [PopR(Eax), JmpRel(0)]; Offset(b, |b|) == 6
  {
    var b: Code := [PopR(Eax), JmpRel(0)];
    assert |Encode(b[0])| == 1 && |Encode(b[1])| == 5;
    assert Offset(b, 1) == 1;
  }

  lemma GotoSize()
    ensures var b: Code := [JmpRel(0)]; Offset(b, |b|) == 5
  {
    var b: Code := [JmpRel(0)];
    JumpSize(b[0]);
    assert Offset(b, 0) == 0;
  }

  lemma IfSize(c: Cond)
    ensures var b: Code := [PopR(Eax), AluRR(OrOp, Eax, Eax), JccRel(c, 0)]; Offset(b, |b|) == 9
  {
    var b: Code := [PopR(Eax), AluRR(OrOp, Eax, Eax), JccRel(c, 0)];
    assert |Encode(b[0])| == 1 && |Encode(b[1])| == 2;
    JumpSize(b[2]);
    assert Offset(b, 1) == |Encode(b[0])|;
    assert Offset(b, 2) == Offset(b, 1) + |Encode(b[1])|;
    assert Offset(b, 3) == Offset(b, 2) + |Encode(b[2])|;
  }

  function MissedInsn(p: nat): Parsed {
    match p
    case 0 => Parsed(Iconst(0), 1)
    case 1 => Parsed(IfZero(CcEq, 7), 4)
    case 4 => Parsed(Goto(11), 7)
    case 7 => Parsed(Iconst(0), 8)
    case 8 => Parsed(IfZero(CcNe, 13), 11)
    case 11 => Parsed(Iconst(1), 12)
    case 12 => Parsed(ReturnWords(1), 13)
    case 13 => Parsed(Iconst(2), 14)
    case _ => Parsed(ReturnWords(1), 15)
  }

  lemma MissedAt(p: nat)
    requires p in MISSED_DEPTHS
    ensures InsnAt(MISSED, p) == MissedInsn(p)
    ensures BodyAt(MISSED, MISSED_DEPTHS, p) == Body(MISSED, MissedInsn(p).insn, MISSED_DEPTHS[p])
  {
    hide Parse, Body;
    MissedParses();
  }

  /** The template of each instruction: how many instructions and bytes. */
  lemma MissedSizes(p: nat)
    requires p in MISSED_DEPTHS
    ensures var b := BodyAt(MISSED, MISSED_DEPTHS, p);
            && (MissedInsn(p).insn.Iconst? ==> |b| == 1 && Offset(b, |b|) == 5)
            && (MissedInsn(p).insn.IfZero? ==> |b| == 3 && Offset(b, |b|) == 9)
            && (MissedInsn(p).insn.Goto? ==> |b| == 1 && Offset(b, |b|) == 5)
            && (MissedInsn(p).insn.ReturnWords? ==> |b| == 2 && Offset(b, |b|) == 6)
  {
    hide InsnAt, BodyAt, Offset, Encode, MissedInsn;
    MissedAt(p);
    var i := MissedInsn(p).insn;
    MissedKinds(p);
    match i {
      case Iconst(k) => PushSize(Wrap(k));
      case IfZero(c, _) => IfSize(c);
      case Goto(_) => GotoSize();
      case ReturnWords(_) =>
        assert BodyAt(MISSED, MISSED_DEPTHS, p) == [PopR(Eax), JmpRel(0)];
        ReturnSize();
    }
  }

  lemma MissedKinds(p: nat)
    ensures var i := MissedInsn(p).insn; i.Iconst? || i.IfZero? || i.Goto? || i == ReturnWords(1)
  {
  }

  /** iconst and ireturn at `p`. */
  lemma WalkReturn(p: nat, w: Plan, idx: map<nat, nat>, missed: set<nat>, len: nat, pos: nat, cap: nat)
    requires (p == 11 || p == 13) && Has(w, idx, missed, len, pos, cap) && cap < TWO_15 / 2 && pos + 111 <= cap
    requires idx.Keys <= MISSED_DEPTHS.Keys && p !in idx && p + 1 !in idx
    ensures Verified(MISSED, MISSED_DEPTHS)
    ensures Has(Select(MISSED, MISSED_DEPTHS, p, w), idx[p := len][p + 1 := len + 1], missed, len + 3, pos + 11, cap)
  {
    hide InsnAt, BodyAt, Offset, Verified, Emit, Select, SetBuf, Has, Parse;
    MissedVerified();
    HasParts(w, idx, missed, len, pos, cap);
    MissedAt(p);
    MissedSizes(p);
    SelectOn(MISSED, MISSED_DEPTHS, p, w);
    EmitHas(MISSED, MISSED_DEPTHS, p, w, idx, missed, len, pos, cap);
    SetBufHas(Emit(MISSED, MISSED_DEPTHS, p, w), idx[p := len], missed, len + 1, pos + 5, cap);
    var w2 := SetBuf(Emit(MISSED, MISSED_DEPTHS, p, w));
    HasParts(w2, idx[p := len], missed, len + 1, pos + 5, cap);
    MissedAt(p + 1);
    MissedSizes(p + 1);
    SelectOn(MISSED, MISSED_DEPTHS, p + 1, w2);
    EmitHas(MISSED, MISSED_DEPTHS, p + 1, w2, idx[p := len], missed, len + 1, pos + 5, cap);
    SetBufHas(Emit(MISSED, MISSED_DEPTHS, p + 1, w2), idx[p := len][p + 1 := len + 1], missed, len + 3, pos + 11, cap);
  }

  lemma HasParts(w: Plan, idx: map<nat, nat>, missed: set<nat>, len: nat, pos: nat, cap: nat)
    requires Has(w, idx, missed, len, pos, cap)
    ensures w.idx == idx && w.missed == missed && w.cap == cap && w.fault == NoFault
  {
    hide Offset;
  }

  /** A conditional branch: the fall-through first, then the target if it is not placed by then. */
  lemma SelectIf(m: Method, depths: map<nat, nat>, p: nat, w: Plan)
    requires Verified(m, depths) && p in depths && w.idx.Keys <= depths.Keys && w.fault == NoFault && p !in w.idx
    requires IsConditional(InsnAt(m, p).insn)
    ensures var r := InsnAt(m, p);
            r.next in depths && r.insn.target in depths
            && var start := SetBuf(Miss(Emit(m, depths, p, w), p, r.next));
               start.idx.Keys <= depths.Keys
               && var w3 := Select(m, depths, r.next, start);
                  r.insn.target !in w3.idx ==> Select(m, depths, p, w) == Select(m, depths, r.insn.target, SetBuf(w3))
  {
    hide Verified, InsnAt, BodyAt, SetBuf, Miss;
    SuccsIn(m, depths, p);
  }

  lemma SelectPlacedAlready(m: Method, depths: map<nat, nat>, p: nat, w: Plan)
    requires Verified(m, depths) && p in depths && w.idx.Keys <= depths.Keys && p in w.idx
    ensures Select(m, depths, p, w) == w
  {
    hide Verified;
  }

  lemma SelectGoto(m: Method, depths: map<nat, nat>, p: nat, w: Plan)
    requires Verified(m, depths) && p in depths && w.idx.Keys <= depths.Keys && w.fault == NoFault && p !in w.idx
    requires InsnAt(m, p).insn.Goto?
    ensures var w2 := SetBuf(Emit(m, depths, p, w));
            var t := InsnAt(m, p).insn.target;
            && t in depths
            && (t in w2.idx ==> Select(m, depths, p, w) == w2)
            && (t !in w2.idx && w2.cap != w.cap ==> Select(m, depths, p, w) == Stale(w2))
            && (t !in w2.idx && w2.cap == w.cap ==> Select(m, depths, p, w) == Select(m, depths, t, SetBuf(w2)))
  {
    hide Verified, InsnAt, BodyAt, SetBuf;
    SuccsIn(m, depths, p);
  }

  lemma MissHas(w: Plan, p: nat, next: nat, idx: map<nat, nat>, missed: set<nat>, len: nat, pos: nat, cap: nat)
    requires Has(w, idx, missed, len, pos, cap)
    ensures Has(Miss(w, p, next), idx, if next in idx then missed + {p} else missed, len, pos, cap)
  {
    hide Offset;
  }

  lemma StartHas()
    ensures Has(StartPlan(MISSED), map[], {}, 4, 14, 120)
  {
    hide Offset, Prolog;
    PrologBytes(MISSED);
    assert |Prolog(MISSED)| == 4 by { PrologLength(MISSED); }
  }

  const IDX_A: map<nat, nat> := map[0 := 4, 1 := 5]
  const IDX_B: map<nat, nat> := map[0 := 4, 1 := 5, 4 := 8, 11 := 9, 12 := 10]
  const IDX_C: map<nat, nat> := map[0 := 4, 1 := 5, 4 := 8, 11 := 9, 12 := 10, 7 := 12, 8 := 13, 13 := 16, 14 := 17]

  /** The goto at 4 and the return it leads to. */
  lemma WalkGoto(w: Plan)
    requires Has(w, IDX_A, {}, 8, 28, 240)
    ensures Verified(MISSED, MISSED_DEPTHS)
    ensures Has(Select(MISSED, MISSED_DEPTHS, 4, w), IDX_B, {}, 12, 44, 240)
  {
    hide InsnAt, BodyAt, Offset, Verified, Emit, Select, SetBuf, Has, Parse;
    MissedVerified();
    HasParts(w, IDX_A, {}, 8, 28, 240);
    MissedAt(4);
    MissedSizes(4);
    SelectGoto(MISSED, MISSED_DEPTHS, 4, w);
    EmitHas(MISSED, MISSED_DEPTHS, 4, w, IDX_A, {}, 8, 28, 240);
    var idx := IDX_A[4 := 8];
    var w2 := SetBuf(Emit(MISSED, MISSED_DEPTHS, 4, w));
    SetBufHas(Emit(MISSED, MISSED_DEPTHS, 4, w), idx, {}, 9, 33, 240);
    HasParts(w2, idx, {}, 9, 33, 240);
    SetBufHas(w2, idx, {}, 9, 33, 240);
    WalkReturn(11, SetBuf(w2), idx, {}, 9, 33, 240);
  }

  /** The branch at 8 comes after its fall-through. */
  lemma WalkMissed(w: Plan)
    requires Has(w, IDX_B, {}, 12, 44, 240)
    ensures Verified(MISSED, MISSED_DEPTHS)
    ensures Has(Select(MISSED, MISSED_DEPTHS, 7, w), IDX_C, {8}, 19, 69, 240)
  {
    hide InsnAt, BodyAt, Offset, Verified, Emit, Select, SetBuf, Has, Parse, Miss, Encode;
    MissedVerified();
    HasParts(w, IDX_B, {}, 12, 44, 240);
    MissedAt(7);
    MissedSizes(7);
    SelectOn(MISSED, MISSED_DEPTHS, 7, w);
    EmitHas(MISSED, MISSED_DEPTHS, 7, w, IDX_B, {}, 12, 44, 240);
    var idx := IDX_B[7 := 12];
    SetBufHas(Emit(MISSED, MISSED_DEPTHS, 7, w), idx, {}, 13, 49, 240);
    var w2 := SetBuf(Emit(MISSED, MISSED_DEPTHS, 7, w));
    HasParts(w2, idx, {}, 13, 49, 240);
    MissedAt(8);
    MissedSizes(8);
    SelectIf(MISSED, MISSED_DEPTHS, 8, w2);
    EmitHas(MISSED, MISSED_DEPTHS, 8, w2, idx, {}, 13, 49, 240);
    var idx8 := idx[8 := 13];
    MissHas(Emit(MISSED, MISSED_DEPTHS, 8, w2), 8, 11, idx8, {}, 16, 58, 240);
    var w3 := Miss(Emit(MISSED, MISSED_DEPTHS, 8, w2), 8, 11);
    assert {} + {8} == {8};
    SetBufHas(w3, idx8, {8}, 16, 58, 240);
    HasParts(SetBuf(w3), idx8, {8}, 16, 58, 240);
    SelectPlacedAlready(MISSED, MISSED_DEPTHS, 11, SetBuf(w3));
    SetBufHas(SetBuf(w3), idx8, {8}, 16, 58, 240);
    WalkReturn(13, SetBuf(SetBuf(w3)), idx8, {8}, 16, 58, 240);
  }

  lemma MissedWalk()
    ensures Verified(MISSED, MISSED_DEPTHS)
    ensures Has(BodyPlan(MISSED, MISSED_DEPTHS), IDX_C, {8}, 19, 69, 240)
  {
    hide InsnAt, BodyAt, Offset, Verified, Emit, Select, SetBuf, Has, Parse, Miss, StartPlan;
    MissedVerified();
    StartHas();
    var w := StartPlan(MISSED);
    HasParts(w, map[], {}, 4, 14, 120);
    MissedAt(0);
    MissedSizes(0);
    SelectOn(MISSED, MISSED_DEPTHS, 0, w);
    EmitHas(MISSED, MISSED_DEPTHS, 0, w, map[], {}, 4, 14, 120);
    SetBufHas(Emit(MISSED, MISSED_DEPTHS, 0, w), map[0 := 4], {}, 5, 19, 120);
    var w1 := SetBuf(Emit(MISSED, MISSED_DEPTHS, 0, w));
    HasParts(w1, map[0 := 4], {}, 5, 19, 120);
    MissedAt(1);
    MissedSizes(1);
    SelectIf(MISSED, MISSED_DEPTHS, 1, w1);
    EmitHas(MISSED, MISSED_DEPTHS, 1, w1, map[0 := 4], {}, 5, 19, 120);
    MissHas(Emit(MISSED, MISSED_DEPTHS, 1, w1), 1, 4, IDX_A, {}, 8, 28, 120);
    var w2 := Miss(Emit(MISSED, MISSED_DEPTHS, 1, w1), 1, 4);
    SetBufHas(w2, IDX_A, {}, 8, 28, 120);
    WalkGoto(SetBuf(w2));
    var w3 := Select(MISSED, MISSED_DEPTHS, 4, SetBuf(w2));
    HasParts(w3, IDX_B, {}, 12, 44, 240);
    SetBufHas(w3, IDX_B, {}, 12, 44, 240);
    WalkMissed(SetBuf(w3));
    assert Roots(MISSED) == [0] && Roots(MISSED)[1..] == [];
  }

  // ----- running it -----

  lemma JavaOn(m: Method, depths: map<nat, nat>, p: nat, v: Vars, n: nat, q: nat, w: Vars)
    requires Verified(m, depths) && Typed(m, depths, p, v) && Typed(m, depths, q, w)
    requires Parse(m.code, p).Some? && Fits(m, Parse(m.code, p).value.insn, v) && JavaStep(m, p, v) == Running(q, w)
    ensures JavaRun(m, depths, p, v, n + 1) == JavaRun(m, depths, q, w, n)
    ensures InsnAt(m, p) == Parse(m.code, p).value
    ensures ExactRun(m, depths, p, v, n + 1) <==> StepExact(m, depths, p, v.stack) && ExactRun(m, depths, q, w, n)
  {
    hide Parse, Verified, JavaStep, StepExact;
  }

  const V0 := Vars([], [])
  const V1 := Vars([], [0])

  lemma MissedTyped()
    ensures Typed(MISSED, MISSED_DEPTHS, 0, V0) && Typed(MISSED, MISSED_DEPTHS, 1, V1)
    ensures Typed(MISSED, MISSED_DEPTHS, 7, V0) && Typed(MISSED, MISSED_DEPTHS, 8, V1)
    ensures Typed(MISSED, MISSED_DEPTHS, 11, V0) && Typed(MISSED, MISSED_DEPTHS, 13, V0)
    ensures Typed(MISSED, MISSED_DEPTHS, 12, Vars([], [1])) && Typed(MISSED, MISSED_DEPTHS, 14, Vars([], [2]))
  {
  }

  lemma IconstStep(m: Method, p: nat, k: int, v: Vars)
    requires Parse(m.code, p) == Some(Parsed(Iconst(k), p + 1)) && Fits(m, Iconst(k), v)
    ensures JavaStep(m, p, v) == Running(p + 1, v.(stack := v.stack + [Wrap(k)]))
  {
    hide Parse;
  }

  lemma IfZeroStep(m: Method, p: nat, cond: Cond, target: int, v: Vars, w: Word)
    requires Parse(m.code, p) == Some(Parsed(IfZero(cond, target), p + 3))
    requires |v.locals| == m.maxLocals && v.stack == [w]
    ensures Fits(m, IfZero(cond, target), v)
    ensures JavaStep(m, p, v) == Running(if Compare(cond, Signed(w), 0) then target else p + 3, v.(stack := []))
  {
    hide Parse;
    assert v.stack[..0] == [];
  }

  lemma ReturnOneStep(m: Method, p: nat, v: Vars, w: Word)
    requires Parse(m.code, p) == Some(Parsed(ReturnWords(1), p + 1)) && |v.locals| == m.maxLocals && v.stack == [w]
    ensures Fits(m, ReturnWords(1), v) && JavaStep(m, p, v) == Finished([w])
  {
    hide Parse;
    assert [w][0..] == [w];
  }

  /** The bytecode steps up to the branch at 8, and the two ways on from it. */
  lemma MissedSteps()
    ensures Parse(MISSED.code, 0).Some? && Fits(MISSED, Iconst(0), V0)
    ensures Parse(MISSED.code, 0).value == Parsed(Iconst(0), 1) && JavaStep(MISSED, 0, V0) == Running(1, V1)
    ensures Parse(MISSED.code, 1).Some? && Fits(MISSED, IfZero(CcEq, 7), V1)
    ensures Parse(MISSED.code, 1).value == Parsed(IfZero(CcEq, 7), 4) && JavaStep(MISSED, 1, V1) == Running(7, V0)
    ensures Parse(MISSED.code, 7).Some?
    ensures Parse(MISSED.code, 7).value == Parsed(Iconst(0), 8) && JavaStep(MISSED, 7, V0) == Running(8, V1)
    ensures Parse(MISSED.code, 8).Some? && Fits(MISSED, IfZero(CcNe, 13), V1)
    ensures Parse(MISSED.code, 8).value == Parsed(IfZero(CcNe, 13), 11) && JavaStep(MISSED, 8, V1) == Running(11, V0)
  {
    hide Parse, JavaStep;
    MissedParses();
    assert V0.stack + [Wrap(0)] == V1.stack;
    IconstStep(MISSED, 0, 0, V0);
    IfZeroStep(MISSED, 1, CcEq, 7, V1, 0);
    IconstStep(MISSED, 7, 0, V0);
    IfZeroStep(MISSED, 8, CcNe, 13, V1, 0);
  }

  lemma ReturnSteps(p: nat, k: int)
    requires (p == 11 && k == 1) || (p == 13 && k == 2)
    ensures Parse(MISSED.code, p) == Some(Parsed(Iconst(k), p + 1)) && Fits(MISSED, Iconst(k), V0)
    ensures JavaStep(MISSED, p, V0) == Running(p + 1, Vars([], [k]))
    ensures Parse(MISSED.code, p + 1) == Some(Parsed(ReturnWords(1), p + 2))
    ensures Fits(MISSED, ReturnWords(1), Vars([], [k]))
    ensures JavaStep(MISSED, p + 1, Vars([], [k])) == Finished([k])
  {
    hide Parse, JavaStep;
    MissedParses();
    assert V0.stack + [Wrap(k)] == [k];
    IconstStep(MISSED, p, k, V0);
    ReturnOneStep(MISSED, p + 1, Vars([], [k]), k);
  }

  /** From 11 the bytecode returns 1 and from 13 it returns 2, every step exact. */
  lemma ReturnRun(p: nat, k: int)
    requires (p == 11 && k == 1) || (p == 13 && k == 2)
    ensures Verified(MISSED, MISSED_DEPTHS) && Typed(MISSED, MISSED_DEPTHS, p, V0)
    ensures JavaRun(MISSED, MISSED_DEPTHS, p, V0, 2) == Finished([k])
    ensures ExactRun(MISSED, MISSED_DEPTHS, p, V0, 2)
  {
    hide Parse, Verified, JavaStep, Typed, InsnAt, StepExact;
    MissedVerified();
    MissedTyped();
    ReturnSteps(p, k);
    ReturnExact(p, k);
    var w := Vars([], [k]);
    TypedFits(MISSED, MISSED_DEPTHS, p, V0);
    TypedFits(MISSED, MISSED_DEPTHS, p + 1, w);
    StepTyped(MISSED, MISSED_DEPTHS, p + 1, w);
    assert JavaRun(MISSED, MISSED_DEPTHS, p + 1, w, 1) == Finished([k]);
    assert ExactRun(MISSED, MISSED_DEPTHS, p + 1, w, 1);
    JavaOn(MISSED, MISSED_DEPTHS, p, V0, 1, p + 1, w);
  }

  lemma ReturnExact(p: nat, k: int)
    requires (p == 11 && k == 1) || (p == 13 && k == 2)
    ensures Verified(MISSED, MISSED_DEPTHS)
    ensures InsnAt(MISSED, p).insn == Iconst(k) && StepExact(MISSED, MISSED_DEPTHS, p, V0.stack)
    ensures InsnAt(MISSED, p + 1).insn == ReturnWords(1) && StepExact(MISSED, MISSED_DEPTHS, p + 1, [k])
  {
    hide Parse, Verified, BodyPlan;
    MissedVerified();
    MissedParses();
  }

  lemma MissedPrefix()
    ensures Verified(MISSED, MISSED_DEPTHS) && Typed(MISSED, MISSED_DEPTHS, 0, V0)
    ensures JavaRun(MISSED, MISSED_DEPTHS, 0, V0, 3) == Running(8, V1) && ExactRun(MISSED, MISSED_DEPTHS, 0, V0, 3)
    ensures JavaRun(MISSED, MISSED_DEPTHS, 0, V0, 6) == Finished([1])
  {
    hide Parse, Verified, JavaStep, Typed, InsnAt, BodyPlan, Fits;
    MissedVerified();
    MissedTyped();
    MissedSteps();
    MissedAt(0);
    MissedAt(1);
    MissedAt(7);
    var m, d := MISSED, MISSED_DEPTHS;
    TypedFits(m, d, 0, V0);
    TypedFits(m, d, 1, V1);
    TypedFits(m, d, 7, V0);
    TypedFits(m, d, 8, V1);
    JavaOn(m, d, 0, V0, 2, 1, V1);
    JavaOn(m, d, 1, V1, 1, 7, V0);
    JavaOn(m, d, 7, V0, 0, 8, V1);
    JavaOn(m, d, 0, V0, 5, 1, V1);
    JavaOn(m, d, 1, V1, 4, 7, V0);
    JavaOn(m, d, 7, V0, 3, 8, V1);
    JavaOn(m, d, 8, V1, 2, 11, V0);
    ReturnRun(11, 1);
    MissedExact();
  }

  lemma MissedExact()
    ensures Verified(MISSED, MISSED_DEPTHS)
    ensures InsnAt(MISSED, 0).insn == Iconst(0) && StepExact(MISSED, MISSED_DEPTHS, 0, V0.stack)
    ensures InsnAt(MISSED, 1).insn == IfZero(CcEq, 7) && StepExact(MISSED, MISSED_DEPTHS, 1, V1.stack)
    ensures InsnAt(MISSED, 7).insn == Iconst(0) && StepExact(MISSED, MISSED_DEPTHS, 7, V0.stack)
  {
    hide InsnAt, BodyPlan, Verified;
    MissedVerified();
    MissedAt(0);
    MissedAt(1);
    MissedAt(7);
  }

  lemma MissedCompiled()
    ensures Verified(MISSED, MISSED_DEPTHS) && Compiled(MISSED, MISSED_DEPTHS)
    ensures var w := BodyPlan(MISSED, MISSED_DEPTHS); 8 in w.missed && 8 in w.idx && 13 in w.idx && w.idx[8] < w.idx[13]
  {
    hide BodyPlan, Verified;
    MissedWalk();
    HasParts(BodyPlan(MISSED, MISSED_DEPTHS), IDX_C, {8}, 19, 69, 240);
  }

  lemma EntryEmpty(m: Method, c: Cpu)
    requires Called(m, c) && m.maxLocals == 0
    ensures EntryVars(m, c) == V0
  {
  }

  /** The bytecode returns 1. Its compiled code, called like any method, returns 2. */
  lemma MissedFallThroughReturnsWrong(tail: seq<Byte>, c: Cpu) returns (n: nat, d: Cpu)
    requires Called(MISSED, c)
    ensures Verified(MISSED, MISSED_DEPTHS) && Typed(MISSED, MISSED_DEPTHS, 0, EntryVars(MISSED, c))
    ensures JavaRun(MISSED, MISSED_DEPTHS, 0, EntryVars(MISSED, c), 6) == Finished([1])
    ensures c.esp in c.mem
    ensures Run(Bytes(MISSED, MISSED_DEPTHS, tail), At(0), c, n) == Some((Returned(c.mem[c.esp]), d))
    ensures ReturnsTo(MISSED, c, [2], d)
  {
    hide Parse, Verified, JavaStep, Typed, InsnAt, BodyPlan, Run, JavaRun, ExactRun, Bytes, Called, Compiled, EntryVars,
         AtPc, ReturnsTo, Fits;
    var m, depths := MISSED, MISSED_DEPTHS;
    EntryEmpty(m, c);
    MissedPrefix();
    MissedCompiled();
    MissedTyped();
    MissedAt(8);
    MissedSteps();
    ReturnRun(13, 2);
    var n1, t1, d1 := MethodEntered(m, depths, tail, c);
    var e := EntryEnv(m, c);
    var n2, t2, d2 := RunSimulated(e, depths, tail, 0, V0, t1, d1, 3);
    assert V1.stack[..0] == V0.stack;
    var n3, t3, d3 := MissedGoesToTarget(e, depths, tail, 8, V1, t2, d2);
    var n4, d4 := RunReturns(m, depths, tail, c, 13, V0, t3, d3, 2);
    var code := Bytes(m, depths, tail);
    RunTwo(code, At(0), c, n1, t1, d1, n2, t2, d2);
    RunTwo(code, At(0), c, n1 + n2, t2, d2, n3, t3, d3);
    RunTwo(code, At(0), c, n1 + n2 + n3, t3, d3, n4, Returned(c.mem[c.esp]), d4);
    n, d := n1 + n2 + n3 + n4, d4;
  }

  // ----- a branch to pc 0 -----

  /** A jump to pc 0 is never patched: its displacement stays 0 and the machine goes on behind it. */
  lemma ZeroJumpGoesOn(e: Env, depths: map<nat, nat>, tail: seq<Byte>, p: nat, v: Vars, t: Target, c: Cpu)
    requires e.Valid() && Verified(e.m, depths) && Compiled(e.m, depths) && AtPc(e, depths, p, v, t, c)
    requires InsnAt(e.m, p).insn == Goto(0)
    ensures var k := BodyPlan(e.m, depths).idx[p];
            && k + 1 <= |FinalCode(e.m, depths)|
            && Run(Bytes(e.m, depths, tail), t, c, 1) == Some((At(Offset(FinalCode(e.m, depths), k + 1)), c))
  {
    hide Parse, BodyPlan, Offset, Repr, BodyAt, Run, EncodeAll, InsnAt, Typed, PatchUpTo, PlacedAt, Apart, Prolog,
         Encode, Encodable;
    var m := e.m;
    var w := BodyPlan(m, depths);
    var l := FinalCode(m, depths);
    BodyPlanPlaced(m, depths);
    SiteInstr(m, depths, w, p);
    BranchBodyAt(m, depths, p);
    UnpatchedStays(m, depths, w, FullCode(m, w), p);
    assert l[w.idx[p]] == JmpRel(0);
    JumpAt(l, tail, w.idx[p], c);
  }

  /** A single instruction, goto 0. */
  const LOOP: Method := Method([0xa7, 0x00, 0x00], 0, 0, 0, [], 0)
  const LOOP_DEPTHS: map<nat, nat> := map[0 := 0]

  lemma LoopWalk()
    ensures Verified(LOOP, LOOP_DEPTHS) && InsnAt(LOOP, 0) == Parsed(Goto(0), 3)
    ensures Has(BodyPlan(LOOP, LOOP_DEPTHS), map[0 := 4], {}, 5, 19, 200)
  {
    hide Offset, Prolog, Select, Emit;
    assert Parse(LOOP.code, 0) == Some(Parsed(Goto(0), 3));
    assert PcOk(LOOP, LOOP_DEPTHS, 0);
    PrologBytes(LOOP);
    PrologLength(LOOP);
    var w := StartPlan(LOOP);
    assert Has(w, map[], {}, 4, 14, 200);
    GotoSize();
    assert BodyAt(LOOP, LOOP_DEPTHS, 0) == [JmpRel(0)];
    SelectGoto(LOOP, LOOP_DEPTHS, 0, w);
    EmitHas(LOOP, LOOP_DEPTHS, 0, w, map[], {}, 4, 14, 200);
    SetBufHas(Emit(LOOP, LOOP_DEPTHS, 0, w), map[0 := 4], {}, 5, 19, 200);
    assert Roots(LOOP) == [0] && Roots(LOOP)[1..] == [];
  }

  /** The bytecode runs forever. Its compiled code returns to its caller after a few instructions. */
  lemma BranchToZeroReturns(tail: seq<Byte>, c: Cpu) returns (n: nat, d: Cpu)
    requires Called(LOOP, c)
    ensures Verified(LOOP, LOOP_DEPTHS) && Typed(LOOP, LOOP_DEPTHS, 0, EntryVars(LOOP, c))
    ensures forall k: nat :: JavaRun(LOOP, LOOP_DEPTHS, 0, EntryVars(LOOP, c), k).Running?
    ensures c.esp in c.mem && Run(Bytes(LOOP, LOOP_DEPTHS, tail), At(0), c, n) == Some((Returned(c.mem[c.esp]), d))
    ensures ReturnsTo(LOOP, c, [], d)
  {
    hide Parse, BodyPlan, Offset, Repr, Run, EncodeAll, InsnAt, Bytes, ReturnsTo, EntryVars, FinalCode, JavaRun;
    LoopWalk();
    var w := BodyPlan(LOOP, LOOP_DEPTHS);
    HasParts(w, map[0 := 4], {}, 5, 19, 200);
    var n1, t1, d1 := MethodEntered(LOOP, LOOP_DEPTHS, tail, c);
    forall k: nat ensures JavaRun(LOOP, LOOP_DEPTHS, 0, EntryVars(LOOP, c), k).Running? {
      LoopRuns(EntryVars(LOOP, c), k);
    }
    var e := EntryEnv(LOOP, c);
    var v := EntryVars(LOOP, c);
    ZeroJumpGoesOn(e, LOOP_DEPTHS, tail, 0, v, t1, d1);
    assert |w.code| == 5;
    d := EpilogRuns(LOOP, LOOP_DEPTHS, tail, c, v, d1);
    var code := Bytes(LOOP, LOOP_DEPTHS, tail);
    var behind := At(Offset(FinalCode(LOOP, LOOP_DEPTHS), 5));
    RunTwo(code, At(0), c, n1, t1, d1, 1, behind, d1);
    RunTwo(code, At(0), c, n1 + 1, behind, d1, 3, Returned(c.mem[c.esp]), d);
    n := n1 + 1 + 3;
  }

  lemma {:induction false} LoopRuns(v: Vars, k: nat)
    requires Verified(LOOP, LOOP_DEPTHS) && Typed(LOOP, LOOP_DEPTHS, 0, v)
    ensures JavaRun(LOOP, LOOP_DEPTHS, 0, v, k) == Running(0, v)
  {
    hide BodyPlan, Verified;
    if k > 0 {
      assert Parse(LOOP.code, 0) == Some(Parsed(Goto(0), 3));
      TypedFits(LOOP, LOOP_DEPTHS, 0, v);
      JavaOn(LOOP, LOOP_DEPTHS, 0, v, k - 1, 0, v);
      LoopRuns(v, k - 1);
    }
  }

  // ----- a buffer replaced under a jump -----

  /** Nine times lconst_0, goto to the next instruction, return. */
  const STALE: Method := Method([9, 9, 9, 9, 9, 9, 9, 9, 9, 0xa7, 0x00, 0x03, 0xb1], 0, 18, 0, [], 0)
  const STALE_DEPTHS: map<nat, nat> :=
    map[0 := 0, 1 := 2, 2 := 4, 3 := 6, 4 := 8, 5 := 10, 6 := 12, 7 := 14, 8 := 16, 9 := 18, 12 := 18]

  lemma StaleDepths(p: nat)
    ensures p in STALE_DEPTHS <==> p <= 9 || p == 12
    ensures p <= 9 ==> STALE_DEPTHS[p] == 2 * p
    ensures STALE_DEPTHS[12] == 18
  {
  }

  lemma StaleParses(p: nat)
    ensures p < 9 ==> Parse(STALE.code, p) == Some(Parsed(Lconst(0), p + 1))
    ensures Parse(STALE.code, 9) == Some(Parsed(Goto(12), 12))
    ensures Parse(STALE.code, 12) == Some(Parsed(ReturnWords(0), 13))
  {
    assert p < 9 ==> STALE.code[p] == 9;
  }

  lemma StaleVerified()
    ensures Verified(STALE, STALE_DEPTHS)
  {
    hide Parse;
    forall p | p in STALE_DEPTHS ensures PcOk(STALE, STALE_DEPTHS, p) {
      StalePcOk(p);
    }
  }

  lemma StalePcOk(p: nat)
    requires p in STALE_DEPTHS
    ensures PcOk(STALE, STALE_DEPTHS, p)
  {
    hide Parse, PcOk;
    StaleDepths(p);
    if p < 9 {
      StaleConstantOk(p);
    } else {
      StaleEndOk(p);
    }
  }

  lemma StaleConstantOk(p: nat)
    requires p < 9
    ensures p in STALE_DEPTHS && PcOk(STALE, STALE_DEPTHS, p)
  {
    hide Parse;
    StaleParses(p);
    StaleDepths(p);
    StaleDepths(p + 1);
  }

  lemma StaleEndOk(p: nat)
    requires p == 9 || p == 12
    ensures p in STALE_DEPTHS && PcOk(STALE, STALE_DEPTHS, p)
  {
    hide Parse;
    StaleParses(p);
    StaleDepths(p);
    StaleDepths(12);
  }

  lemma LconstSize()
    ensures var b: Code := [PushI(0), PushI(Wrap(0))]; Offset(b, |b|) == 10
  {
    var b: Code := [PushI(0), PushI(Wrap(0))];
    assert |Encode(b[0])| == 5 && |Encode(b[1])| == 5;
    assert Offset(b, 1) == 5;
  }

  /** The first `j` constants are placed one behind the other. */
  function StaleIdx(j: nat): map<nat, nat> {
    if j == 0 then map[] else StaleIdx(j - 1)[j - 1 := 4 + 2 * (j - 1)]
  }

  lemma {:induction false} StaleKeys(j: nat, p: nat)
    ensures p in StaleIdx(j) <==> p < j
  {
    if j > 0 {
      StaleKeys(j - 1, p);
    }
  }

  lemma {:induction false} WalkConstants(w: Plan, j: nat)
    requires j <= 9 && Has(w, StaleIdx(j), {}, 4 + 2 * j, 14 + 10 * j, 208)
    ensures Verified(STALE, STALE_DEPTHS) && j in STALE_DEPTHS && w.idx.Keys <= STALE_DEPTHS.Keys
    ensures Select(STALE, STALE_DEPTHS, j, w).fault == StaleBuffer
    decreases 9 - j
  {
    hide BodyAt, Offset, Verified, Emit, Select, SetBuf, Has, Parse, Encode, Encodable, PcOk;
    StaleVerified();
    HasParts(w, StaleIdx(j), {}, 4 + 2 * j, 14 + 10 * j, 208);
    StaleDepths(j);
    StaleKeys(j, j);
    StaleKeys(j, j + 1);
    StaleKeys(j, 12);
    forall p | p in w.idx ensures p in STALE_DEPTHS {
      StaleKeys(j, p);
      StaleDepths(p);
    }
    StaleParses(j);
    EmitHas(STALE, STALE_DEPTHS, j, w, StaleIdx(j), {}, 4 + 2 * j, 14 + 10 * j, 208);
    var w1 := Emit(STALE, STALE_DEPTHS, j, w);
    if j < 9 {
      assert BodyAt(STALE, STALE_DEPTHS, j) == [PushI(0), PushI(Wrap(0))] by { ConstantBody(j); }
      LconstSize();
      SelectOn(STALE, STALE_DEPTHS, j, w);
      SetBufHas(w1, StaleIdx(j + 1), {}, 6 + 2 * j, 24 + 10 * j, 208);
      WalkConstants(SetBuf(w1), j + 1);
    } else {
      assert BodyAt(STALE, STALE_DEPTHS, 9) == [JmpRel(0)] by { ConstantBody(9); }
      GotoSize();
      SelectGoto(STALE, STALE_DEPTHS, 9, w);
      SetBufHas(w1, StaleIdx(9)[9 := 22], {}, 23, 109, 208);
      HasParts(SetBuf(w1), StaleIdx(9)[9 := 22], {}, 23, 109, 416);
    }
  }

  lemma ConstantBody(p: nat)
    requires p <= 9
    ensures BodyAt(STALE, STALE_DEPTHS, p) == if p < 9 then [PushI(0), PushI(Wrap(0))] else [JmpRel(0)]
  {
    hide Parse;
    StaleParses(p);
  }

  /** Compiling this method, the buffer is replaced right behind the goto, and the walk goes on writing
      through the pointer into the old one. */
  lemma StaleBufferReached()
    ensures Verified(STALE, STALE_DEPTHS) && BodyPlan(STALE, STALE_DEPTHS).fault == StaleBuffer
  {
    hide Offset, Prolog, Select, Emit, Verified;
    StaleVerified();
    PrologBytes(STALE);
    PrologLength(STALE);
    var w := StartPlan(STALE);
    assert Has(w, map[], {}, 4, 14, 208);
    WalkConstants(w, 0);
    assert Roots(STALE) == [0] && Roots(STALE)[1..] == [];
  }
}
