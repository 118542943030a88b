/** The second pass of `generate_code`: every recorded branch gets its displacement. */
module Patching {
  import opened Wrappers
  import opened Words
  import opened X86
  import opened Encoding
  import opened CodeStream
  import opened Bytecode
  import opened Frame
  import opened Templates
  import opened Placement
  import opened Reachability
  import opened Room

  /** Where a branch goes: returns go to the epilog, whose pc is the length of the bytecode. */
  function TargetOf(m: Method, p: nat): int {
    match InsnAt(m, p).insn
    case IfZero(_, t) => t
    case IfCmp(_, t) => t
    case Goto(t) => t
    case ReturnWords(_) => |m.code|
    case _ => 0
  }

  /** The index of the jump of branch `p`. */
  function Site(m: Method, depths: map<nat, nat>, w: Plan, p: nat): int
    requires p in w.idx
  {
    w.idx[p] + |BodyAt(m, depths, p)| - 1
  }

  /** The index of the code of a branch target; the epilog follows the plan's code. */
  function TargetIndex(m: Method, w: Plan, t: int): int {
    if t == |m.code| then |w.code| else if t in w.idx then w.idx[t] else 0
  }

  function WithRel(i: EncInstr, d: Int32): EncInstr {
    match i
    case JmpRel(_) => JmpRel(d)
    case JccRel(cc, _) => JccRel(cc, d)
    case _ => i
  }

  predicate IsPatched(m: Method, w: Plan, p: nat) {
    p in w.idx && IsBranch(InsnAt(m, p).insn) && TargetOf(m, p) != 0
  }

  function Displacement(m: Method, depths: map<nat, nat>, w: Plan, base: Code, p: nat): Int32
    requires p in w.idx
  {
    var k, t := Site(m, depths, w, p), TargetIndex(m, w, TargetOf(m, p));
    if 0 <= k < |base| && 0 <= t <= |base| then AsInt32(Offset(base, t) - Offset(base, k + 1)) else 0
  }

  /** The code after the patch loop has gone through the pcs below `n`. */
  function PatchUpTo(m: Method, depths: map<nat, nat>, w: Plan, base: Code, n: nat): (r: Code)
    ensures |r| == |base|
  {
    if n == 0 then base else
    var c := PatchUpTo(m, depths, w, base, n - 1);
    if !IsPatched(m, w, n - 1) then c else
    var k := Site(m, depths, w, n - 1);
    if 0 <= k < |c| then c[k := WithRel(c[k], Displacement(m, depths, w, base, n - 1))] else c
  }

  function FullCode(m: Method, w: Plan): Code
    requires m.argWords < 0x100
  {
    w.code + Epilog(m)
  }

  function FinalCode(m: Method, depths: map<nat, nat>): Code
    requires Verified(m, depths)
  {
    var w := BodyPlan(m, depths);
    PatchUpTo(m, depths, w, FullCode(m, w), |m.code|)
  }

  lemma WithRelSize(i: EncInstr, d: Int32)
    ensures |Encode(WithRel(i, d))| == |Encode(i)|
  {
    if i.JmpRel? || i.JccRel? {
      JumpSize(i);
      JumpSize(WithRel(i, d));
    }
  }

  lemma BranchBodyAt(m: Method, depths: map<nat, nat>, p: nat)
    requires IsBranch(InsnAt(m, p).insn)
    ensures BodyAt(m, depths, p) == BranchBody(InsnAt(m, p).insn) && |BodyAt(m, depths, p)| > 0
  {
    hide InsnAt;
    BranchBodyEnds(InsnAt(m, p).insn);
  }

  lemma SitesDistinct(m: Method, depths: map<nat, nat>, w: Plan, p: nat, q: nat)
    requires Placed(m, depths, w) && p in w.idx && q in w.idx && p != q
    requires IsBranch(InsnAt(m, p).insn) && IsBranch(InsnAt(m, q).insn)
    ensures Site(m, depths, w, p) != Site(m, depths, w, q)
  {
    hide InsnAt, BodyAt;
    BranchBodyAt(m, depths, p);
    BranchBodyAt(m, depths, q);
    assert Apart(m, depths, w, p, q);
  }

  lemma SiteInside(m: Method, depths: map<nat, nat>, w: Plan, p: nat)
    requires Placed(m, depths, w) && p in w.idx && IsBranch(InsnAt(m, p).insn)
    ensures 0 <= Site(m, depths, w, p) < |w.code|
  {
    hide InsnAt, BodyAt;
    BranchBodyAt(m, depths, p);
    assert PlacedAt(m, depths, w, p);
  }

  /** The patch loop changes the jump of every branch below `n` with a non-zero target, nothing else. */
  lemma PatchOne(c: Code, base: Code, k: int, d: Int32)
    requires |c| == |base| && 0 <= k < |c| && c[k] == base[k]
    requires forall j :: 0 <= j <= |base| ==> Offset(c, j) == Offset(base, j)
    ensures var r := c[k := WithRel(c[k], d)];
            forall j :: 0 <= j <= |base| ==> Offset(r, j) == Offset(base, j)
  {
    hide Offset, WithRel;
    WithRelSize(c[k], d);
    forall j | 0 <= j <= |base| ensures Offset(c[k := WithRel(c[k], d)], j) == Offset(base, j) {
      OffsetUpdate(c, k, WithRel(c[k], d), j);
    }
  }

  lemma {:induction false} PatchUpToAt(m: Method, depths: map<nat, nat>, w: Plan, base: Code, n: nat)
    requires Placed(m, depths, w) && w.code <= base
    ensures var r := PatchUpTo(m, depths, w, base, n);
            && (forall k :: 0 <= k < |base| && r[k] != base[k] ==>
                  exists p: nat :: p < n && IsPatched(m, w, p) && Site(m, depths, w, p) == k)
            && (forall p: nat :: p < n && IsPatched(m, w, p) ==>
                  var k := Site(m, depths, w, p);
                  0 <= k < |base| && r[k] == WithRel(base[k], Displacement(m, depths, w, base, p)))
            && (forall k :: 0 <= k <= |base| ==> Offset(r, k) == Offset(base, k))
  {
    hide Placed, InsnAt, BodyAt, Displacement, Offset, Site, WithRel, TargetOf, Encode, Encodable;
    if n == 0 {
      return;
    }
    PatchUpToAt(m, depths, w, base, n - 1);
    var c := PatchUpTo(m, depths, w, base, n - 1);
    if IsPatched(m, w, n - 1) {
      var k := Site(m, depths, w, n - 1);
      SiteInside(m, depths, w, n - 1);
      forall p: nat | p < n - 1 && IsPatched(m, w, p) ensures Site(m, depths, w, p) != k {
        SitesDistinct(m, depths, w, p, n - 1);
      }
      PatchOne(c, base, k, Displacement(m, depths, w, base, n - 1));
    }
  }

  lemma FinalLength(m: Method, depths: map<nat, nat>)
    requires Verified(m, depths)
    ensures |FinalCode(m, depths)| == |BodyPlan(m, depths).code| + 3
  {
    hide Parse, SelectAll, StartPlan, InsnAt;
  }

  /** All byte offsets lie below 2^15 plus the epilog, so displacements are exact. */
  lemma OffsetsSmall(m: Method, depths: map<nat, nat>, k: int)
    requires Verified(m, depths) && BodyPlan(m, depths).fault == NoFault
    requires 0 <= k <= |FullCode(m, BodyPlan(m, depths))|
    ensures Offset(FullCode(m, BodyPlan(m, depths)), k) < 2 * TWO_15
  {
    hide Parse, SelectAll, StartPlan, InsnAt, Encode, Epilog;
    var w := BodyPlan(m, depths);
    var full := FullCode(m, w);
    BodyPlanRoomy(m, depths);
    OffsetMono(full, k, |full|);
    var epilog := Epilog(m);
    BytesBound(epilog, 11);
    assert |epilog| == 3 by { EpilogLength(m); }
    OffsetConcat(w.code, epilog, 3);
  }

  lemma EpilogLength(m: Method)
    requires m.argWords < 0x100
    ensures |Epilog(m)| == 3
  {
  }

  /** The displacement of a patched branch leads from behind the branch to its target. */
  lemma DisplacementExact(m: Method, depths: map<nat, nat>, p: nat)
    requires Verified(m, depths)
    requires var w := BodyPlan(m, depths);
             w.fault == NoFault && p in w.idx && IsBranch(InsnAt(m, p).insn) && Placed(m, depths, w)
             && (TargetOf(m, p) == |m.code| || TargetOf(m, p) in w.idx)
    ensures var w := BodyPlan(m, depths);
            var full := FullCode(m, w);
            var k, t := Site(m, depths, w, p), TargetIndex(m, w, TargetOf(m, p));
            && 0 <= k < |w.code| && 0 <= t <= |w.code|
            && Offset(full, k + 1) + Displacement(m, depths, w, full, p) == Offset(full, t)
  {
    hide Parse, SelectAll, StartPlan, InsnAt, Encode, Epilog, BodyAt, PlacedAt, Apart, TargetOf, Offset, Encodable,
         IsBranch;
    var w := BodyPlan(m, depths);
    var k, t := Site(m, depths, w, p), TargetIndex(m, w, TargetOf(m, p));
    SiteInside(m, depths, w, p);
    TargetInside(m, depths, w, TargetOf(m, p));
    OffsetsSmall(m, depths, k + 1);
    OffsetsSmall(m, depths, t);
    SignedWrap(Offset(FullCode(m, w), t) - Offset(FullCode(m, w), k + 1));
  }

  lemma TargetInside(m: Method, depths: map<nat, nat>, w: Plan, t: int)
    requires Placed(m, depths, w) && (t == |m.code| || t in w.idx)
    ensures 0 <= TargetIndex(m, w, t) <= |w.code|
  {
    hide InsnAt, BodyAt;
    if t in w.idx {
      assert PlacedAt(m, depths, w, t);
    }
  }

  // ----- what the final code looks like at a pc -----

  /** The jump of branch `p` leads to the code of its target. */
  ghost predicate BranchLands(m: Method, depths: map<nat, nat>, w: Plan, c: Code, p: nat)
    requires p in w.idx
  {
    var k, t := Site(m, depths, w, p), TargetIndex(m, w, TargetOf(m, p));
    && 0 <= k < |c| && 0 <= t <= |c|
    && (c[k].JmpRel? || c[k].JccRel?)
    && Offset(c, k + 1) + c[k].rel == Offset(c, t)
  }

  /** The fall-through of conditional branch `p` is right behind its jump. */
  ghost predicate FallsThrough(m: Method, depths: map<nat, nat>, w: Plan, p: nat)
    requires p in w.idx
  {
    InsnAt(m, p).next in w.idx && w.idx[InsnAt(m, p).next] == Site(m, depths, w, p) + 1
  }

  lemma SiteInstr(m: Method, depths: map<nat, nat>, w: Plan, p: nat)
    requires Placed(m, depths, w) && p in w.idx && IsBranch(InsnAt(m, p).insn)
    ensures var k, b := Site(m, depths, w, p), BranchBody(InsnAt(m, p).insn);
            0 <= k < |w.code| && |b| > 0 && w.code[k] == b[|b| - 1]
  {
    hide InsnAt, BodyAt;
    SiteInside(m, depths, w, p);
    BranchBodyAt(m, depths, p);
    assert PlacedAt(m, depths, w, p);
    var b := BodyAt(m, depths, p);
    assert w.code[w.idx[p]..w.idx[p] + |b|][|b| - 1] == b[|b| - 1];
  }

  /** Everything placed below the length of the bytecode is patched. */
  lemma PlacedBelowLength(m: Method, depths: map<nat, nat>, p: nat)
    requires Verified(m, depths) && p in BodyPlan(m, depths).idx
    ensures p < |m.code|
  {
    hide SelectAll, StartPlan;
    assert PcOk(m, depths, p);
    ParseInside(m, p);
  }

  lemma ParseInside(m: Method, p: nat)
    requires Parse(m.code, p).Some?
    ensures p < |m.code|
  {
  }

  lemma TargetPlaced(m: Method, depths: map<nat, nat>, w: Plan, p: nat)
    requires p in w.idx && Flows(m, depths, w, p) && IsBranch(InsnAt(m, p).insn)
    ensures TargetOf(m, p) == |m.code| || TargetOf(m, p) in w.idx
  {
    hide BodyAt, Parse;
    var r := InsnAt(m, p);
    if !r.insn.ReturnWords? {
      assert r.insn.target in Succs(r);
    }
  }

  lemma UnpatchedStays(m: Method, depths: map<nat, nat>, w: Plan, base: Code, p: nat)
    requires Placed(m, depths, w) && w.code <= base && p in w.idx && IsBranch(InsnAt(m, p).insn)
    requires TargetOf(m, p) == 0
    ensures var k := Site(m, depths, w, p);
            0 <= k < |base| && PatchUpTo(m, depths, w, base, |m.code|)[k] == base[k]
  {
    hide Placed, InsnAt, BodyAt, Displacement, Offset, Site, WithRel, TargetOf;
    var k := Site(m, depths, w, p);
    SiteInside(m, depths, w, p);
    PatchUpToAt(m, depths, w, base, |m.code|);
    forall q: nat | IsPatched(m, w, q) ensures Site(m, depths, w, q) != k {
      SitesDistinct(m, depths, w, p, q);
    }
  }

  /** With displacement 0 a branch to pc 0 goes on behind itself, after the code of pc 0. */
  lemma ZeroTargetBehind(m: Method, depths: map<nat, nat>, w: Plan, base: Code, p: nat)
    requires Placed(m, depths, w) && w.code <= base && p in w.idx && IsBranch(InsnAt(m, p).insn)
    requires 0 in w.idx && |m.code| != 0 && TargetOf(m, p) == 0
    requires forall q :: q in w.idx ==> w.idx[q] >= w.idx[0]
    ensures var k := Site(m, depths, w, p);
            0 <= k < |base| && TargetIndex(m, w, 0) <= |base|
            && Offset(base, k + 1) > Offset(base, TargetIndex(m, w, 0))
  {
    hide InsnAt, BodyAt, TargetOf, Offset, Apart, Encode, Encodable;
    BranchBodyAt(m, depths, p);
    SiteInside(m, depths, w, p);
    OffsetMono(base, w.idx[0], Site(m, depths, w, p) + 1);
  }

  lemma ZeroTargetMisses(m: Method, depths: map<nat, nat>, w: Plan, base: Code, p: nat)
    requires Placed(m, depths, w) && w.code <= base && p in w.idx && IsBranch(InsnAt(m, p).insn)
    requires 0 in w.idx && |m.code| != 0 && TargetOf(m, p) == 0
    requires forall q :: q in w.idx ==> w.idx[q] >= w.idx[0]
    ensures !BranchLands(m, depths, w, PatchUpTo(m, depths, w, base, |m.code|), p)
  {
    hide InsnAt, BodyAt, TargetOf, Offset, PlacedAt, Apart, PatchUpTo, BranchBody;
    UnpatchedStays(m, depths, w, base, p);
    ZeroTargetBehind(m, depths, w, base, p);
    SiteInstr(m, depths, w, p);
    BranchBodyEnds(InsnAt(m, p).insn);
    PatchUpToAt(m, depths, w, base, |m.code|);
  }

  /** A branch of the final code lands on the code of its target exactly when the target is not
      pc 0: a recorded target of 0 means that there is none. */
  lemma BranchLandsIff(m: Method, depths: map<nat, nat>, p: nat)
    requires Verified(m, depths) && BodyPlan(m, depths).fault == NoFault
    requires p in BodyPlan(m, depths).idx && IsBranch(InsnAt(m, p).insn)
    ensures BranchLands(m, depths, BodyPlan(m, depths), FinalCode(m, depths), p) <==> TargetOf(m, p) != 0
  {
    hide Parse, BodyPlan, InsnAt, BodyAt, PlacedAt, Apart, TargetOf, Offset, Flows, Displacement, Prolog, PatchUpTo,
         BranchLands, Verified;
    var w := BodyPlan(m, depths);
    BodyPlanPlaced(m, depths);
    if TargetOf(m, p) != 0 {
      PatchedLands(m, depths, p);
    } else {
      VerifiedNonempty(m, depths);
      ZeroTargetMisses(m, depths, w, FullCode(m, w), p);
    }
  }

  lemma VerifiedNonempty(m: Method, depths: map<nat, nat>)
    requires Verified(m, depths)
    ensures |m.code| != 0 && m.argWords < 0x100
  {
    assert PcOk(m, depths, 0);
    ParseInside(m, 0);
  }

  lemma PatchedLands(m: Method, depths: map<nat, nat>, p: nat)
    requires Verified(m, depths) && BodyPlan(m, depths).fault == NoFault
    requires p in BodyPlan(m, depths).idx && IsBranch(InsnAt(m, p).insn) && TargetOf(m, p) != 0
    ensures BranchLands(m, depths, BodyPlan(m, depths), FinalCode(m, depths), p)
  {
    hide Parse, BodyPlan, InsnAt, BodyAt, PlacedAt, Apart, TargetOf, Offset, Flows, Displacement, Prolog, PatchUpTo,
         BranchBody, Encode, Encodable, Verified, Site, Epilog;
    var w := BodyPlan(m, depths);
    VerifiedNonempty(m, depths);
    var full := FullCode(m, w);
    BodyPlanPlaced(m, depths);
    PlacedBelowLength(m, depths, p);
    TargetPlaced(m, depths, w, p);
    PatchUpToAt(m, depths, w, full, |m.code|);
    SiteInstr(m, depths, w, p);
    BranchBodyEnds(InsnAt(m, p).insn);
    DisplacementExact(m, depths, p);
    assert IsPatched(m, w, p);
  }

  /** The fall-through of a conditional branch is behind it exactly when it was not compiled before. */
  lemma FallsThroughIff(m: Method, depths: map<nat, nat>, p: nat)
    requires Verified(m, depths) && BodyPlan(m, depths).fault == NoFault
    requires p in BodyPlan(m, depths).idx && IsConditional(InsnAt(m, p).insn)
    ensures FallsThrough(m, depths, BodyPlan(m, depths), p) <==> p !in BodyPlan(m, depths).missed
  {
    hide Parse, SelectAll, StartPlan, InsnAt, Verified, BodyAt, PlacedAt, Apart;
    BodyPlanPlaced(m, depths);
    BranchBodyAt(m, depths, p);
    var w := BodyPlan(m, depths);
    assert Flows(m, depths, w, p);
    assert InsnAt(m, p).next in Succs(InsnAt(m, p));
  }
}
