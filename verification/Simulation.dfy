/** The emitted bytes, run by the machine, simulate the bytecode. */
module Simulation {
  import opened Wrappers
  import opened Words
  import opened X86
  import opened Encoding
  import opened CodeStream
  import opened Bytecode
  import opened Frame
  import opened Templates
  import opened FrameProofs
  import opened TemplateProofs
  import opened Placement
  import opened Reachability
  import opened Room
  import opened Patching

  // ----- running bytecode -----

  /** A frame of the shape the verifier assigns to pc `p`. */
  ghost predicate Typed(m: Method, depths: map<nat, nat>, p: int, v: Vars) {
    p in depths && |v.locals| == m.maxLocals && |v.stack| == depths[p]
  }

  lemma TypedFits(m: Method, depths: map<nat, nat>, p: nat, v: Vars)
    requires Verified(m, depths) && Typed(m, depths, p, v)
    ensures Parse(m.code, p) == Some(InsnAt(m, p)) && Fits(m, InsnAt(m, p).insn, v)
    ensures |v.stack| - Pops(InsnAt(m, p).insn) + Pushes(InsnAt(m, p).insn) <= m.maxStack
    ensures |v.stack| <= m.maxStack
    ensures forall q :: q in Succs(InsnAt(m, p)) ==>
              q in depths && depths[q] == |v.stack| - Pops(InsnAt(m, p).insn) + Pushes(InsnAt(m, p).insn)
  {
    hide Parse;
    assert PcOk(m, depths, p);
  }

  /** Verified code keeps frames well shaped. */
  lemma StepTyped(m: Method, depths: map<nat, nat>, p: nat, v: Vars)
    requires Verified(m, depths) && Typed(m, depths, p, v)
    requires Parse(m.code, p).Some? && Fits(m, Parse(m.code, p).value.insn, v)
    ensures var o := JavaStep(m, p, v);
            o.Running? ==> Typed(m, depths, o.pc, o.vars) && o.pc in Succs(InsnAt(m, p))
  {
    hide Parse, Effect, Verified, Taken;
    TypedFits(m, depths, p, v);
    var r := InsnAt(m, p);
    if IsConditional(r.insn) {
      assert r.next in Succs(r) && r.insn.target in Succs(r);
    } else if r.insn.Goto? {
      assert r.insn.target in Succs(r);
    } else if !r.insn.ReturnWords? {
      EffectShape(m, r.insn, v);
      assert r.next in Succs(r);
    }
  }

  /** `n` bytecode instructions. */
  ghost function JavaRun(m: Method, depths: map<nat, nat>, p: nat, v: Vars, n: nat): (o: Outcome)
    requires Verified(m, depths) && Typed(m, depths, p, v)
    ensures o.Running? ==> o.pc >= 0 && Typed(m, depths, o.pc, o.vars)
    decreases n
  {
    hide Parse, Verified, JavaStep;
    if n == 0 then Running(p, v) else
    TypedFits(m, depths, p, v);
    StepTyped(m, depths, p, v);
    match JavaStep(m, p, v)
    case Running(q, w) => JavaRun(m, depths, q, w, n - 1)
    case Finished(words) => Finished(words)
    case Thrown => Thrown
  }

  /** The condition under which the code placed for the instruction at `p` does, on the stack `s`,
      what the instruction means: its template is exact, a branch is not taken to pc 0, and a
      conditional branch that is not taken did not miss its fall-through. */
  ghost predicate StepExact(m: Method, depths: map<nat, nat>, p: nat, s: seq<Word>)
    requires Verified(m, depths) && |s| >= Pops(InsnAt(m, p).insn)
  {
    var i := InsnAt(m, p).insn;
    && Exact(i, s)
    && (i.Goto? ==> i.target != 0)
    && (IsConditional(i) ==> if Taken(i, s) then i.target != 0 else p !in BodyPlan(m, depths).missed)
  }

  /** Every instruction of the run is exact. */
  ghost predicate ExactRun(m: Method, depths: map<nat, nat>, p: nat, v: Vars, n: nat)
    requires Verified(m, depths) && Typed(m, depths, p, v)
    decreases n
  {
    hide Parse, Verified, JavaStep, StepExact;
    n == 0 ||
    (TypedFits(m, depths, p, v);
     StepTyped(m, depths, p, v);
     StepExact(m, depths, p, v.stack) &&
     match JavaStep(m, p, v)
     case Running(q, w) => ExactRun(m, depths, q, w, n - 1)
     case _ => true)
  }

  // ----- the final code at a pc -----

  /** The code selection went through and the frame offsets fit. */
  ghost predicate Compiled(m: Method, depths: map<nat, nat>)
    requires Verified(m, depths)
  {
    BodyPlan(m, depths).fault == NoFault && OffsetsFit(m)
  }

  lemma PatchKeeps(m: Method, depths: map<nat, nat>, w: Plan, base: Code, p: nat, k: int)
    requires Placed(m, depths, w) && w.code <= base && p in w.idx
    requires w.idx[p] <= k < w.idx[p] + Extent(m, depths, w, p)
    requires IsBranch(InsnAt(m, p).insn) ==> k != Site(m, depths, w, p)
    ensures 0 <= k < |w.code| && PatchUpTo(m, depths, w, base, |m.code|)[k] == w.code[k]
  {
    hide InsnAt, BodyAt, TargetOf, Offset, PatchUpTo, WithRel, Displacement;
    assert PlacedAt(m, depths, w, p);
    PatchUpToAt(m, depths, w, base, |m.code|);
    forall q: nat | IsPatched(m, w, q) ensures Site(m, depths, w, q) != k {
      if q != p {
        BranchBodyAt(m, depths, q);
        assert Apart(m, depths, w, p, q);
      }
    }
  }

  lemma BlockKept(m: Method, depths: map<nat, nat>, w: Plan, base: Code, p: nat, j: int)
    requires Placed(m, depths, w) && w.code <= base && p in w.idx
    requires 0 <= j < |BodyAt(m, depths, p)| - if IsBranch(InsnAt(m, p).insn) then 1 else 0
    ensures w.idx[p] + j < |base|
    ensures PatchUpTo(m, depths, w, base, |m.code|)[w.idx[p] + j] == BodyAt(m, depths, p)[j]
  {
    hide InsnAt, BodyAt, PatchUpTo, Placed;
    var b := BodyAt(m, depths, p);
    PatchKeeps(m, depths, w, base, p, w.idx[p] + j);
    BlockInside(m, depths, w, p);
    assert w.code[w.idx[p]..w.idx[p] + |b|][j] == b[j];
  }

  /** The template up to its jump, if it ends in one whose displacement is filled in later. */
  function Unpatched(i: Insn, body: Code): Code
  {
    if IsBranch(i) && body != [] then body[..|body| - 1] else body
  }

  /** The template of `p`, up to its jump if it ends in one, is in the final code. */
  lemma FinalBlock(m: Method, depths: map<nat, nat>, p: nat)
    requires Verified(m, depths) && p in BodyPlan(m, depths).idx
    ensures var k := BodyPlan(m, depths).idx[p];
            var block := Unpatched(InsnAt(m, p).insn, BodyAt(m, depths, p));
            k + |block| <= |FinalCode(m, depths)| && FinalCode(m, depths)[k..k + |block|] == block
  {
    hide InsnAt, BodyAt, Offset, PatchUpTo, BodyPlan, Placed, Parse, Prolog, AllFlow, Encode, Encodable, BranchBody,
         Displacement, Epilog, Site, TargetOf;
    var w := BodyPlan(m, depths);
    var c := FinalCode(m, depths);
    var k, b := w.idx[p], BodyAt(m, depths, p);
    BodyPlanPlaced(m, depths);
    if IsBranch(InsnAt(m, p).insn) {
      BranchBodyAt(m, depths, p);
    }
    BlockInside(m, depths, w, p);
    FinalLength(m, depths);
    var block := Unpatched(InsnAt(m, p).insn, b);
    forall j | 0 <= j < |block| ensures c[k + j] == block[j] {
      BlockKept(m, depths, w, FullCode(m, w), p, j);
    }
  }

  lemma BlockInside(m: Method, depths: map<nat, nat>, w: Plan, p: nat)
    requires Placed(m, depths, w) && p in w.idx
    ensures var k, b := w.idx[p], BodyAt(m, depths, p);
            k + |b| <= |w.code| && w.code[k..k + |b|] == b
  {
    hide InsnAt, BodyAt, Offset;
    assert PlacedAt(m, depths, w, p);
  }

  /** Behind the template of a straight-line pc is the code of its successor or a jump to it. */
  lemma FinalLink(m: Method, depths: map<nat, nat>, p: nat)
    requires Verified(m, depths) && BodyPlan(m, depths).fault == NoFault
    requires p in BodyPlan(m, depths).idx && !IsBranch(InsnAt(m, p).insn)
    ensures var w := BodyPlan(m, depths);
            var c := FinalCode(m, depths);
            var k, next := w.idx[p] + |BodyAt(m, depths, p)|, InsnAt(m, p).next;
            && next in w.idx && k <= |c| && w.idx[next] <= |c|
            && (w.idx[next] == k ||
                  (k < |c| && c[k].JmpRel? && Offset(c, k + 1) + c[k].rel == Offset(c, w.idx[next])))
  {
    hide InsnAt, BodyAt, Offset, PatchUpTo, BodyPlan, Parse, Verified, Apart, Prolog;
    var w := BodyPlan(m, depths);
    var c := FinalCode(m, depths);
    var k, next := w.idx[p] + |BodyAt(m, depths, p)|, InsnAt(m, p).next;
    BodyPlanPlaced(m, depths);
    assert Flows(m, depths, w, p);
    assert next in Succs(InsnAt(m, p));
    BlockInside(m, depths, w, p);
    BlockInside(m, depths, w, next);
    FinalLength(m, depths);
    if w.idx[next] != k {
      LinkedJump(m, depths, p);
    }
  }

  lemma LinkedJump(m: Method, depths: map<nat, nat>, p: nat)
    requires Verified(m, depths) && BodyPlan(m, depths).fault == NoFault
    requires p in BodyPlan(m, depths).linked && p in BodyPlan(m, depths).idx
    requires !IsBranch(InsnAt(m, p).insn) && InsnAt(m, p).next in BodyPlan(m, depths).idx
    ensures var w := BodyPlan(m, depths);
            var c := FinalCode(m, depths);
            var k, next := w.idx[p] + |BodyAt(m, depths, p)|, InsnAt(m, p).next;
            && k < |c| && w.idx[next] <= |c|
            && c[k].JmpRel? && Offset(c, k + 1) + c[k].rel == Offset(c, w.idx[next])
  {
    hide InsnAt, BodyAt, Offset, BodyPlan, Parse, PatchUpTo, Verified, PlacedAt, FullCode;
    var k, next := LinkedSite(m, depths, p);
    FinalKeeps(m, depths, p, k);
    PlanDistance(m, depths, k + 1, BodyPlan(m, depths).idx[next]);
    FinalOffsets(m, depths, k + 1);
    FinalOffsets(m, depths, BodyPlan(m, depths).idx[next]);
  }

  /** The jump back as it is in the plan. */
  lemma LinkedSite(m: Method, depths: map<nat, nat>, p: nat) returns (k: nat, next: nat)
    requires Verified(m, depths) && BodyPlan(m, depths).fault == NoFault
    requires p in BodyPlan(m, depths).linked && p in BodyPlan(m, depths).idx
    requires !IsBranch(InsnAt(m, p).insn) && InsnAt(m, p).next in BodyPlan(m, depths).idx
    ensures var w := BodyPlan(m, depths);
            && Placed(m, depths, w) && k == w.idx[p] + |BodyAt(m, depths, p)| && next == InsnAt(m, p).next
            && k < w.idx[p] + Extent(m, depths, w, p) && k < |w.code| && w.idx[next] <= |w.code|
            && w.code[k] == JmpRel(AsInt32(Offset(w.code, w.idx[next]) - Offset(w.code, k + 1)))
  {
    hide InsnAt, BodyAt, Offset, BodyPlan, Parse, Prolog, AllFlow, Flows, Apart, Encode, Encodable, Verified;
    var w := BodyPlan(m, depths);
    k, next := w.idx[p] + |BodyAt(m, depths, p)|, InsnAt(m, p).next;
    BodyPlanPlaced(m, depths);
    assert PlacedAt(m, depths, w, p);
  }

  /** Patching leaves an instruction that is no recorded branch as it is. */
  lemma FinalKeeps(m: Method, depths: map<nat, nat>, p: nat, k: nat)
    requires Verified(m, depths)
    requires var w := BodyPlan(m, depths);
             && Placed(m, depths, w) && p in w.idx && !IsBranch(InsnAt(m, p).insn)
             && w.idx[p] <= k < w.idx[p] + Extent(m, depths, w, p)
    ensures k < |BodyPlan(m, depths).code| <= |FinalCode(m, depths)|
    ensures FinalCode(m, depths)[k] == BodyPlan(m, depths).code[k]
  {
    hide InsnAt, BodyAt, Offset, BodyPlan, Parse, PatchUpTo, PcOk, Placed, Extent, Epilog;
    var w := BodyPlan(m, depths);
    PatchKeeps(m, depths, w, FullCode(m, w), p, k);
    FinalLength(m, depths);
  }

  lemma FinalOffsets(m: Method, depths: map<nat, nat>, k: nat)
    requires Verified(m, depths) && k <= |FullCode(m, BodyPlan(m, depths))| && Placed(m, depths, BodyPlan(m, depths))
    ensures |FinalCode(m, depths)| == |FullCode(m, BodyPlan(m, depths))|
    ensures Offset(FinalCode(m, depths), k) == Offset(FullCode(m, BodyPlan(m, depths)), k)
  {
    hide InsnAt, BodyAt, Offset, BodyPlan, Parse, PatchUpTo, PcOk, Placed, Displacement, WithRel, Site, Epilog;
    var w := BodyPlan(m, depths);
    PatchUpToAt(m, depths, w, FullCode(m, w), |m.code|);
  }

  /** Distances inside the plan's code do not overflow. */
  lemma PlanDistance(m: Method, depths: map<nat, nat>, k: int, t: int)
    requires Verified(m, depths) && BodyPlan(m, depths).fault == NoFault
    requires 0 <= k <= |BodyPlan(m, depths).code| && 0 <= t <= |BodyPlan(m, depths).code|
    ensures var w := BodyPlan(m, depths);
            var full := FullCode(m, w);
            && k <= |full| && t <= |full|
            && Offset(full, k) == Offset(w.code, k) && Offset(full, t) == Offset(w.code, t)
            && Offset(full, k) + AsInt32(Offset(w.code, t) - Offset(w.code, k)) == Offset(full, t)
  {
    hide Offset, BodyPlan, Parse, Epilog, Encode, Encodable;
    var w := BodyPlan(m, depths);
    var full := FullCode(m, w);
    OffsetPrefix(w.code, full, t);
    OffsetPrefix(w.code, full, k);
    OffsetsSmall(m, depths, t);
    OffsetsSmall(m, depths, k);
    SignedWrap(Offset(full, t) - Offset(full, k));
  }

  // ----- one bytecode instruction -----

  /** The machine is at the code of `p` and represents the frame. */
  ghost predicate AtPc(e: Env, depths: map<nat, nat>, p: int, v: Vars, t: Target, c: Cpu)
    requires Verified(e.m, depths)
  {
    var w := BodyPlan(e.m, depths);
    && p in w.idx && w.idx[p] <= |FinalCode(e.m, depths)|
    && t == At(Offset(FinalCode(e.m, depths), w.idx[p]))
    && Typed(e.m, depths, p, v) && Repr(e, v, c)
  }

  lemma AtPcOf(e: Env, depths: map<nat, nat>, p: nat, v: Vars, c: Cpu)
    requires Verified(e.m, depths) && p in BodyPlan(e.m, depths).idx
    requires Typed(e.m, depths, p, v) && Repr(e, v, c)
    ensures BodyPlan(e.m, depths).idx[p] <= |FinalCode(e.m, depths)|
    ensures AtPc(e, depths, p, v, At(Offset(FinalCode(e.m, depths), BodyPlan(e.m, depths).idx[p])), c)
  {
    hide BodyPlan, FinalCode, Offset, Repr, Verified;
    FinalBlock(e.m, depths, p);
  }

  lemma JumpAt(l: Code, tail: seq<Byte>, k: int, c: Cpu)
    requires 0 <= k < |l| && l[k].JmpRel?
    ensures Run(EncodeAll(l) + tail, At(Offset(l, k)), c, 1) == Some((At(Offset(l, k + 1) + l[k].rel), c))
  {
    hide Offset, EncodeAll, Step;
    StepAt(l, tail, k, c);
    RunOne(EncodeAll(l) + tail, Offset(l, k), c);
  }

  lemma BranchAt(l: Code, tail: seq<Byte>, k: int, c: Cpu)
    requires 0 <= k < |l| && l[k].JccRel?
    ensures Run(EncodeAll(l) + tail, At(Offset(l, k)), c, 1) ==
            Some((At(Offset(l, k + 1) + if c.Holds(l[k].cc) then l[k].rel else 0), c))
  {
    hide Offset, EncodeAll, Step;
    StepAt(l, tail, k, c);
    RunOne(EncodeAll(l) + tail, Offset(l, k), c);
  }

  function Bytes(m: Method, depths: map<nat, nat>, tail: seq<Byte>): seq<Byte>
    requires Verified(m, depths)
  {
    EncodeAll(FinalCode(m, depths)) + tail
  }

  lemma StartOf(e: Env, depths: map<nat, nat>, p: nat, v: Vars, t: Target, c: Cpu)
    requires e.Valid() && Verified(e.m, depths) && AtPc(e, depths, p, v, t, c)
    ensures Start(e, InsnAt(e.m, p).insn, v, c)
    ensures BodyAt(e.m, depths, p) == Body(e.m, InsnAt(e.m, p).insn, |v.stack|)
  {
    hide Parse, BodyPlan, FinalCode, Offset, Repr, Body;
    TypedFits(e.m, depths, p, v);
  }

  /** Straight-line bytecodes: the template does its effect, exact or not, and leads to the successor or
      to a jump to it. */
  lemma StraightRuns(e: Env, depths: map<nat, nat>, tail: seq<Byte>, p: nat, v: Vars, t: Target, c: Cpu, v': Vars)
    returns (n: nat, u: Target, d: Cpu)
    requires e.Valid() && Verified(e.m, depths) && Compiled(e.m, depths) && AtPc(e, depths, p, v, t, c)
    requires !IsBranch(InsnAt(e.m, p).insn) && Fits(e.m, InsnAt(e.m, p).insn, v)
    requires CompiledEffect(e.m, InsnAt(e.m, p).insn, v) == Some(v')
    requires Typed(e.m, depths, InsnAt(e.m, p).next, v')
    ensures Run(Bytes(e.m, depths, tail), t, c, n) == Some((u, d))
    ensures AtPc(e, depths, InsnAt(e.m, p).next, v', u, d)
  {
    hide Parse, BodyPlan, FinalCode, Offset, Repr, Body, BodyAt, Effect, RunBlock, Run, EncodeAll, Verified,
         CompiledEffect, InsnAt, Typed, Start;
    var m := e.m;
    var w := BodyPlan(m, depths);
    var l := FinalCode(m, depths);
    var i, next := InsnAt(m, p).insn, InsnAt(m, p).next;
    var block := BodyAt(m, depths, p);
    StartOf(e, depths, p, v, t, c);
    FinalBlock(m, depths, p);
    FinalLink(m, depths, p);
    BodyRuns(e, i, v, c);
    RunBlockAt(l, tail, w.idx[p], block, c);
    n := |block|;
    u := At(Offset(l, w.idx[p] + |block|));
    d := RunBlock(block, c).value;
    if w.idx[next] != w.idx[p] + |block| {
      JumpAt(l, tail, w.idx[p] + |block|, d);
      RunTwo(Bytes(m, depths, tail), t, c, n, u, d, 1, At(Offset(l, w.idx[next])), d);
      n, u := n + 1, At(Offset(l, w.idx[next]));
    }
    AtPcOf(e, depths, next, v', d);
  }

  /** A template without an effect stops the machine: a division by zero, where the bytecode throws, and
      the division that overflows. */
  lemma StraightTraps(e: Env, depths: map<nat, nat>, tail: seq<Byte>, p: nat, v: Vars, t: Target, c: Cpu)
    returns (n: nat)
    requires e.Valid() && Verified(e.m, depths) && Compiled(e.m, depths) && AtPc(e, depths, p, v, t, c)
    requires !IsBranch(InsnAt(e.m, p).insn) && Fits(e.m, InsnAt(e.m, p).insn, v)
    requires CompiledEffect(e.m, InsnAt(e.m, p).insn, v) == None
    ensures Run(Bytes(e.m, depths, tail), t, c, n) == None
  {
    hide Parse, BodyPlan, FinalCode, Offset, Repr, Body, BodyAt, Effect, RunBlock, Run, EncodeAll, Verified,
         CompiledEffect, InsnAt, Typed, Start;
    var m := e.m;
    var block := BodyAt(m, depths, p);
    StartOf(e, depths, p, v, t, c);
    FinalBlock(m, depths, p);
    BodyRuns(e, InsnAt(m, p).insn, v, c);
    BodyStraight(m, InsnAt(m, p).insn, |v.stack|);
    FaultAt(FinalCode(m, depths), tail, BodyPlan(m, depths).idx[p], block, c);
    n := |block|;
  }

  lemma BodyStraight(m: Method, i: Insn, d: int)
    requires !IsBranch(i)
    ensures forall j :: 0 <= j < |Body(m, i, d)| ==> Straight(Body(m, i, d)[j])
  {
    hide Encodable, StoredStack, StoredLocal, Encode;
  }

  lemma StraightStep(e: Env, depths: map<nat, nat>, tail: seq<Byte>, p: nat, v: Vars, t: Target, c: Cpu, v': Vars)
    returns (n: nat, u: Target, d: Cpu)
    requires e.Valid() && Verified(e.m, depths) && Compiled(e.m, depths) && AtPc(e, depths, p, v, t, c)
    requires !IsBranch(InsnAt(e.m, p).insn) && Fits(e.m, InsnAt(e.m, p).insn, v)
    requires Exact(InsnAt(e.m, p).insn, v.stack) && Effect(e.m, InsnAt(e.m, p).insn, v) == Some(v')
    requires Typed(e.m, depths, InsnAt(e.m, p).next, v')
    ensures Run(Bytes(e.m, depths, tail), t, c, n) == Some((u, d))
    ensures AtPc(e, depths, InsnAt(e.m, p).next, v', u, d)
  {
    hide Parse, BodyPlan, FinalCode, Offset, Repr, Effect, Exact, Run, EncodeAll, Verified, CompiledEffect, InsnAt,
         Typed;
    ExactIff(e.m, InsnAt(e.m, p).insn, v);
    n, u, d := StraightRuns(e, depths, tail, p, v, t, c, v');
  }

  /** The block before the jump of branch `p`, run at the code of `p`. */
  lemma BranchPrefix(e: Env, depths: map<nat, nat>, tail: seq<Byte>, p: nat, v: Vars, t: Target, c: Cpu)
    requires e.Valid() && Verified(e.m, depths) && AtPc(e, depths, p, v, t, c)
    requires IsBranch(InsnAt(e.m, p).insn)
    requires var b := BranchBody(InsnAt(e.m, p).insn); |b| > 0 && RunBlock(b[..|b| - 1], c).Some?
    ensures var b := BranchBody(InsnAt(e.m, p).insn);
            var k := Site(e.m, depths, BodyPlan(e.m, depths), p);
            && 0 <= k <= |FinalCode(e.m, depths)|
            && Run(Bytes(e.m, depths, tail), t, c, |b| - 1) ==
               Some((At(Offset(FinalCode(e.m, depths), k)), RunBlock(b[..|b| - 1], c).value))
  {
    hide Parse, BodyPlan, FinalCode, Offset, Repr, BodyAt, RunBlock, Run, EncodeAll, Verified, InsnAt, Typed,
         BranchBody;
    var m := e.m;
    var w := BodyPlan(m, depths);
    var b := BranchBody(InsnAt(m, p).insn);
    BranchBodyAt(m, depths, p);
    FinalBlock(m, depths, p);
    RunBlockAt(FinalCode(m, depths), tail, w.idx[p], b[..|b| - 1], c);
  }

  lemma FinalSite(m: Method, depths: map<nat, nat>, p: nat)
    requires Verified(m, depths) && Compiled(m, depths)
    requires p in BodyPlan(m, depths).idx && IsBranch(InsnAt(m, p).insn)
    ensures var l := FinalCode(m, depths);
            var i := InsnAt(m, p).insn;
            var k := Site(m, depths, BodyPlan(m, depths), p);
            && 0 <= k < |l|
            && (IsConditional(i) ==> l[k].JccRel? && l[k].cc == i.cond)
            && (!IsConditional(i) ==> l[k].JmpRel?)
  {
    hide Parse, BodyPlan, Offset, BodyAt, InsnAt, PatchUpTo, Displacement, PlacedAt, Apart, Flows, AllFlow, Prolog,
         BranchBody;
    var w := BodyPlan(m, depths);
    var full := FullCode(m, w);
    BodyPlanPlaced(m, depths);
    SiteInstr(m, depths, w, p);
    BranchBodyCond(InsnAt(m, p).insn);
    FinalLength(m, depths);
    if TargetOf(m, p) == 0 {
      UnpatchedStays(m, depths, w, full, p);
    } else {
      PlacedBelowLength(m, depths, p);
      PatchUpToAt(m, depths, w, full, |m.code|);
      assert IsPatched(m, w, p);
    }
  }

  lemma BranchBodyCond(i: Insn)
    requires IsBranch(i)
    ensures var b := BranchBody(i);
            |b| > 0 && (if IsConditional(i) then b[|b| - 1] == JccRel(i.cond, 0) else b[|b| - 1] == JmpRel(0))
  {
  }

  /** A conditional branch, run at its code: the machine is behind the jump, or at the place the
      jump leads to if the branch is taken. */
  lemma ConditionalRun(e: Env, depths: map<nat, nat>, tail: seq<Byte>, p: nat, v: Vars, t: Target, c: Cpu)
    returns (n: nat, d: Cpu)
    requires e.Valid() && Verified(e.m, depths) && Compiled(e.m, depths) && AtPc(e, depths, p, v, t, c)
    requires IsConditional(InsnAt(e.m, p).insn) && Fits(e.m, InsnAt(e.m, p).insn, v)
    ensures Repr(e, v.(stack := v.stack[..|v.stack| - Pops(InsnAt(e.m, p).insn)]), d)
    ensures var l := FinalCode(e.m, depths);
            var k := Site(e.m, depths, BodyPlan(e.m, depths), p);
            && 0 <= k < |l| && l[k].JccRel?
            && Run(Bytes(e.m, depths, tail), t, c, n) ==
               Some((At(Offset(l, k + 1) + if Taken(InsnAt(e.m, p).insn, v.stack) then l[k].rel else 0), d))
  {
    hide Parse, BodyPlan, FinalCode, Offset, Repr, BodyAt, RunBlock, Run, EncodeAll, Verified, InsnAt, Typed,
         BranchBody, Start, Site, Taken;
    var m := e.m;
    var l := FinalCode(m, depths);
    var i := InsnAt(m, p).insn;
    var b := BranchBody(i);
    StartOf(e, depths, p, v, t, c);
    BranchBodyCond(i);
    ConditionalRuns(e, i, v, c);
    BranchPrefix(e, depths, tail, p, v, t, c);
    FinalSite(m, depths, p);
    d := RunBlock(b[..|b| - 1], c).value;
    var k := Site(m, depths, BodyPlan(m, depths), p);
    BranchAt(l, tail, k, d);
    n := |b|;
    RunTwo(Bytes(m, depths, tail), t, c, |b| - 1, At(Offset(l, k)), d, 1,
           At(Offset(l, k + 1) + if Taken(i, v.stack) then l[k].rel else 0), d);
  }

  /** Where the machine is after a conditional branch is the code of the right successor, exactly
      when the branch is exact on this stack. */
  lemma ConditionalPlaceIff(m: Method, depths: map<nat, nat>, p: nat, s: seq<Word>)
    requires Verified(m, depths) && Compiled(m, depths) && p in BodyPlan(m, depths).idx
    requires IsConditional(InsnAt(m, p).insn) && |s| >= Pops(InsnAt(m, p).insn)
    ensures var w := BodyPlan(m, depths);
            var l := FinalCode(m, depths);
            var r := InsnAt(m, p);
            var k := Site(m, depths, w, p);
            && r.next in w.idx && r.insn.target in w.idx && 0 <= k < |l| && l[k].JccRel?
            && w.idx[r.next] <= |l| && w.idx[r.insn.target] <= |l|
            && (StepExact(m, depths, p, s) <==>
                  if Taken(r.insn, s) then Offset(l, k + 1) + l[k].rel == Offset(l, w.idx[r.insn.target])
                  else Offset(l, k + 1) == Offset(l, w.idx[r.next]))
  {
    hide Parse, BodyPlan, Offset, BodyAt, InsnAt, FinalCode, PlacedAt, Apart, Prolog, Site, Taken, Encode, Encodable,
         Verified;
    var w := BodyPlan(m, depths);
    var l := FinalCode(m, depths);
    var r := InsnAt(m, p);
    var k := Site(m, depths, w, p);
    FinalSite(m, depths, p);
    BranchTargetIndex(m, depths, p);
    SuccessorsInside(m, depths, p);
    BranchLandsIff(m, depths, p);
    FallsThroughIff(m, depths, p);
    OffsetInjective(l, k + 1, w.idx[r.next]);
  }

  lemma SuccessorsInside(m: Method, depths: map<nat, nat>, p: nat)
    requires Verified(m, depths) && BodyPlan(m, depths).fault == NoFault && p in BodyPlan(m, depths).idx
    requires IsConditional(InsnAt(m, p).insn)
    ensures var w := BodyPlan(m, depths);
            var r := InsnAt(m, p);
            && r.next in w.idx && r.insn.target in w.idx
            && w.idx[r.next] <= |FinalCode(m, depths)| && w.idx[r.insn.target] <= |FinalCode(m, depths)|
  {
    hide Parse, BodyPlan, Offset, BodyAt, InsnAt, FinalCode, PlacedAt, Apart, Prolog, Encode, Encodable, Verified;
    var r := InsnAt(m, p);
    BodyPlanPlaced(m, depths);
    assert Flows(m, depths, BodyPlan(m, depths), p);
    assert r.next in Succs(r) && r.insn.target in Succs(r);
    FinalBlock(m, depths, r.next);
    FinalBlock(m, depths, r.insn.target);
  }

  lemma OffsetInjective(l: Code, j: int, k: int)
    requires 0 <= j <= |l| && 0 <= k <= |l|
    ensures Offset(l, j) == Offset(l, k) <==> j == k
  {
    hide Offset;
    if j < k {
      OffsetMono(l, j, k);
    } else if k < j {
      OffsetMono(l, k, j);
    }
  }

  /** A conditional branch that is exact on its stack is simulated. */
  lemma ConditionalStep(e: Env, depths: map<nat, nat>, tail: seq<Byte>, p: nat, v: Vars, t: Target, c: Cpu)
    returns (n: nat, u: Target, d: Cpu)
    requires e.Valid() && Verified(e.m, depths) && Compiled(e.m, depths) && AtPc(e, depths, p, v, t, c)
    requires IsConditional(InsnAt(e.m, p).insn) && Fits(e.m, InsnAt(e.m, p).insn, v)
    requires StepExact(e.m, depths, p, v.stack)
    requires var r := InsnAt(e.m, p);
             var v' := v.(stack := v.stack[..|v.stack| - Pops(r.insn)]);
             Typed(e.m, depths, r.next, v') && Typed(e.m, depths, r.insn.target, v')
    ensures Run(Bytes(e.m, depths, tail), t, c, n) == Some((u, d))
    ensures var r := InsnAt(e.m, p);
            AtPc(e, depths, if Taken(r.insn, v.stack) then r.insn.target else r.next,
                 v.(stack := v.stack[..|v.stack| - Pops(r.insn)]), u, d)
  {
    hide Parse, BodyPlan, FinalCode, Offset, Repr, BodyAt, Run, EncodeAll, Verified, InsnAt, Typed, Site, Taken, Bytes,
         StepExact;
    var r := InsnAt(e.m, p);
    n, d := ConditionalRun(e, depths, tail, p, v, t, c);
    ConditionalPlaceIff(e.m, depths, p, v.stack);
    var q := if Taken(r.insn, v.stack) then r.insn.target else r.next;
    u := At(Offset(FinalCode(e.m, depths), BodyPlan(e.m, depths).idx[q]));
    AtPcOf(e, depths, q, v.(stack := v.stack[..|v.stack| - Pops(r.insn)]), d);
  }

  /** A conditional branch that missed its fall-through and whose target was not placed before goes
      to its target whether it is taken or not. */
  lemma MissedGoesToTarget(e: Env, depths: map<nat, nat>, tail: seq<Byte>, p: nat, v: Vars, t: Target, c: Cpu)
    returns (n: nat, u: Target, d: Cpu)
    requires e.Valid() && Verified(e.m, depths) && Compiled(e.m, depths) && AtPc(e, depths, p, v, t, c)
    requires IsConditional(InsnAt(e.m, p).insn) && Fits(e.m, InsnAt(e.m, p).insn, v)
    requires var w := BodyPlan(e.m, depths);
             var q := InsnAt(e.m, p).insn.target;
             p in w.missed && q != 0 && q in w.idx && w.idx[p] < w.idx[q]
    requires Typed(e.m, depths, InsnAt(e.m, p).insn.target,
                   v.(stack := v.stack[..|v.stack| - Pops(InsnAt(e.m, p).insn)]))
    ensures Run(Bytes(e.m, depths, tail), t, c, n) == Some((u, d))
    ensures AtPc(e, depths, InsnAt(e.m, p).insn.target,
                 v.(stack := v.stack[..|v.stack| - Pops(InsnAt(e.m, p).insn)]), u, d)
  {
    hide Parse, BodyPlan, FinalCode, Offset, Repr, BodyAt, Run, EncodeAll, InsnAt, Typed, Taken, Bytes, PlacedAt, Apart,
         Prolog, StepExact, Verified, Encodable;
    var m := e.m;
    var w := BodyPlan(m, depths);
    var q := InsnAt(m, p).insn.target;
    BodyPlanPlaced(m, depths);
    assert Flows(m, depths, w, p);
    n, d := ConditionalRun(e, depths, tail, p, v, t, c);
    BranchTargetIndex(m, depths, p);
    BranchLandsIff(m, depths, p);
    u := At(Offset(FinalCode(m, depths), w.idx[q]));
    AtPcOf(e, depths, q, v.(stack := v.stack[..|v.stack| - Pops(InsnAt(m, p).insn)]), d);
  }

  lemma BranchTargetIndex(m: Method, depths: map<nat, nat>, p: nat)
    requires Verified(m, depths) && BodyPlan(m, depths).fault == NoFault
    requires p in BodyPlan(m, depths).idx && (IsConditional(InsnAt(m, p).insn) || InsnAt(m, p).insn.Goto?)
    ensures var w := BodyPlan(m, depths);
            var t := InsnAt(m, p).insn.target;
            t in w.idx && TargetOf(m, p) == t && TargetIndex(m, w, t) == w.idx[t]
  {
    hide Parse, BodyPlan, BodyAt, InsnAt, PlacedAt, Apart, Prolog, Verified;
    var w := BodyPlan(m, depths);
    BodyPlanPlaced(m, depths);
    assert Flows(m, depths, w, p);
    assert InsnAt(m, p).insn.target in Succs(InsnAt(m, p));
    PlacedBelowLength(m, depths, InsnAt(m, p).insn.target);
  }

  lemma GotoStep(e: Env, depths: map<nat, nat>, tail: seq<Byte>, p: nat, v: Vars, t: Target, c: Cpu)
    returns (n: nat, u: Target, d: Cpu)
    requires e.Valid() && Verified(e.m, depths) && Compiled(e.m, depths) && AtPc(e, depths, p, v, t, c)
    requires InsnAt(e.m, p).insn.Goto? && InsnAt(e.m, p).insn.target != 0
    requires Typed(e.m, depths, InsnAt(e.m, p).insn.target, v)
    ensures Run(Bytes(e.m, depths, tail), t, c, n) == Some((u, d))
    ensures AtPc(e, depths, InsnAt(e.m, p).insn.target, v, u, d)
  {
    hide Parse, BodyPlan, FinalCode, Offset, Repr, BodyAt, Run, EncodeAll, Verified, InsnAt, Typed, Site;
    var m := e.m;
    var w := BodyPlan(m, depths);
    var l := FinalCode(m, depths);
    var target := InsnAt(m, p).insn.target;
    BranchPrefix(e, depths, tail, p, v, t, c);
    FinalSite(m, depths, p);
    BranchTargetIndex(m, depths, p);
    BranchLandsIff(m, depths, p);
    JumpAt(l, tail, Site(m, depths, w, p), c);
    n, u, d := 1, At(Offset(l, w.idx[target])), c;
    RunTwo(Bytes(m, depths, tail), t, c, 0, At(Offset(l, Site(m, depths, w, p))), c, 1, u, c);
    AtPcOf(e, depths, target, v, c);
  }

  /** One bytecode instruction is simulated by the machine instructions selected for it. */
  lemma StepSimulated(e: Env, depths: map<nat, nat>, tail: seq<Byte>, p: nat, v: Vars, t: Target, c: Cpu)
    returns (n: nat, u: Target, d: Cpu)
    requires e.Valid() && Verified(e.m, depths) && Compiled(e.m, depths) && AtPc(e, depths, p, v, t, c)
    requires Parse(e.m.code, p) == Some(InsnAt(e.m, p)) && Fits(e.m, InsnAt(e.m, p).insn, v)
    requires StepExact(e.m, depths, p, v.stack) && JavaStep(e.m, p, v).Running?
    ensures Run(Bytes(e.m, depths, tail), t, c, n) == Some((u, d))
    ensures AtPc(e, depths, JavaStep(e.m, p, v).pc, JavaStep(e.m, p, v).vars, u, d)
  {
    hide Parse, BodyPlan, FinalCode, Offset, Repr, BodyAt, Run, EncodeAll, Verified, InsnAt, Effect, Taken, Exact,
         Compiled, Bytes;
    var m := e.m;
    var r := InsnAt(m, p);
    TypedFits(m, depths, p, v);
    if IsConditional(r.insn) {
      assert r.next in Succs(r) && r.insn.target in Succs(r);
      n, u, d := ConditionalStep(e, depths, tail, p, v, t, c);
    } else if r.insn.Goto? {
      assert r.insn.target in Succs(r);
      n, u, d := GotoStep(e, depths, tail, p, v, t, c);
    } else {
      EffectShape(m, r.insn, v);
      assert r.next in Succs(r);
      n, u, d := StraightStep(e, depths, tail, p, v, t, c, Effect(m, r.insn, v).value);
    }
  }

  /** Any number of bytecode instructions is simulated. */
  lemma {:induction false} RunSimulated(e: Env, depths: map<nat, nat>, tail: seq<Byte>, p: nat, v: Vars, t: Target,
                                        c: Cpu, steps: nat)
    returns (n: nat, u: Target, d: Cpu)
    requires e.Valid() && Verified(e.m, depths) && Compiled(e.m, depths) && AtPc(e, depths, p, v, t, c)
    requires ExactRun(e.m, depths, p, v, steps) && JavaRun(e.m, depths, p, v, steps).Running?
    ensures Run(Bytes(e.m, depths, tail), t, c, n) == Some((u, d))
    ensures AtPc(e, depths, JavaRun(e.m, depths, p, v, steps).pc, JavaRun(e.m, depths, p, v, steps).vars, u, d)
    decreases steps
  {
    hide Parse, BodyPlan, FinalCode, Offset, Repr, EncodeAll, Verified, InsnAt, JavaStep, StepExact, Compiled, Bytes,
         Step;
    if steps == 0 {
      n, u, d := 0, t, c;
      return;
    }
    TypedFits(e.m, depths, p, v);
    StepTyped(e.m, depths, p, v);
    n, u, d := StepSimulated(e, depths, tail, p, v, t, c);
    var o := JavaStep(e.m, p, v);
    var n2, u2, d2 := RunSimulated(e, depths, tail, o.pc, o.vars, u, d, steps - 1);
    RunTwo(Bytes(e.m, depths, tail), t, c, n, u, d, n2, u2, d2);
    n, u, d := n + n2, u2, d2;
  }
}
