/** Code placement: the depth-first walk of `select_code` as a function on plans. A plan lists the
    machine instructions emitted so far and where the code of each visited pc starts in the list. */
module Placement {
  import opened Wrappers
  import opened Words
  import opened X86
  import opened Encoding
  import opened CodeStream
  import opened Bytecode
  import opened Frame
  import opened Templates

  /** Why code selection cannot go on: the local buffer pointer refers to a buffer that was
      replaced, or the buffer would need a length its 15-bit header field cannot hold. */
  datatype Fault = NoFault | StaleBuffer | BufferTooLong

  datatype Plan = Plan(code: Code, idx: map<nat, nat>, linked: set<nat>, missed: set<nat>, cap: nat, fault: Fault)
  {
    /** The number of bytes emitted. */
    function Pos(): nat {
      Offset(code, |code|)
    }

    /** The byte offset at which the code of a visited pc starts. */
    function Native(p: nat): nat {
      if p in idx && idx[p] <= |code| then Offset(code, idx[p]) else 0
    }
  }

  function InsnAt(m: Method, p: nat): Parsed {
    match Parse(m.code, p)
    case Some(r) => r
    case None => Parsed(Nop, p + 1)
  }

  function BodyAt(m: Method, depths: map<nat, nat>, p: nat): Code {
    Body(m, InsnAt(m, p).insn, if p in depths then depths[p] else 0)
  }

  /** `codebuf_set`: at least 100 bytes must remain, or the buffer is doubled. */
  function SetBuf(w: Plan): (r: Plan)
    ensures r.idx == w.idx && r.code == w.code && r.linked == w.linked && r.missed == w.missed
    ensures w.fault != NoFault ==> r == w
  {
    if w.fault != NoFault || w.cap - w.Pos() >= 100 then w
    else if 2 * w.cap < TWO_15 then w.(cap := 2 * w.cap)
    else w.(fault := BufferTooLong)
  }

  function Emit(m: Method, depths: map<nat, nat>, p: nat, w: Plan): Plan {
    w.(code := w.code + BodyAt(m, depths, p), idx := w.idx[p := |w.code|])
  }

  function AsInt32(x: int): Int32 {
    Signed(Wrap(x))
  }

  /** The jump emitted when the next instruction is already placed. */
  function LinkJump(w: Plan, next: nat): EncInstr {
    JmpRel(AsInt32(w.Native(next) - (w.Pos() + 5)))
  }

  function Link(w: Plan, p: nat, next: nat): Plan {
    w.(code := w.code + [LinkJump(w, next)], linked := w.linked + {p})
  }

  function Stale(w: Plan): (r: Plan)
    ensures r.idx == w.idx && r.fault != NoFault
    ensures w.fault != NoFault ==> r == w
  {
    if w.fault == NoFault then w.(fault := StaleBuffer) else w
  }

  /** A conditional branch compiled after its own fall-through gets no jump to it. */
  function Miss(w: Plan, p: nat, next: nat): (r: Plan)
    ensures r.idx == w.idx && r.fault == w.fault
  {
    if next in w.idx then w.(missed := w.missed + {p}) else w
  }

  /** The walk from `p`. A conditional branch first walks its fall-through, then its target. A
      straight-line instruction or a jump goes on with the local buffer pointer, which is stale if
      `codebuf_set` has just replaced the buffer. */
  function Select(m: Method, depths: map<nat, nat>, p: nat, w: Plan): (r: Plan)
    requires Verified(m, depths) && p in depths && w.idx.Keys <= depths.Keys
    ensures w.idx.Keys <= r.idx.Keys <= depths.Keys
    ensures w.fault != NoFault ==> r == w
    decreases depths.Keys - w.idx.Keys
  {
    hide Verified, InsnAt, Parse, BodyAt, SetBuf, Stale, Miss;
    if w.fault != NoFault || p in w.idx then w else
    var r := InsnAt(m, p);
    var i := r.insn;
    var w1 := Emit(m, depths, p, w);
    var w2 := SetBuf(w1);
    SuccsIn(m, depths, p);
    Shrinks(depths.Keys, w.idx.Keys, p);
    if IsConditional(i) then
      var w3 := Select(m, depths, r.next, SetBuf(Miss(w1, p, r.next)));
      if i.target in w3.idx then w3
      else
        ShrinksBy(depths.Keys, w.idx.Keys, w3.idx.Keys, p);
        Select(m, depths, i.target, SetBuf(w3))
    else if i.Goto? then
      if i.target in w2.idx then w2
      else if w2.cap != w1.cap then Stale(w2)
      else Select(m, depths, i.target, SetBuf(w2))
    else if i.ReturnWords? then w2
    else if r.next !in w2.idx then Select(m, depths, r.next, w2)
    else if w2.cap != w1.cap || w2.fault != NoFault then Stale(w2)
    else SetBuf(Link(w2, p, r.next))
  }

  lemma SuccsIn(m: Method, depths: map<nat, nat>, p: nat)
    requires Verified(m, depths) && p in depths
    ensures var r := InsnAt(m, p);
            && (forall q :: q in Succs(r) ==> q in depths)
            && (IsConditional(r.insn) ==> r.next in depths && r.insn.target in depths)
            && (r.insn.Goto? ==> r.insn.target in depths)
            && (!IsBranch(r.insn) ==> r.next in depths)
  {
    hide Parse;
    var r := InsnAt(m, p);
    assert PcOk(m, depths, p);
    assert IsConditional(r.insn) ==> r.next in Succs(r) && r.insn.target in Succs(r);
    assert r.insn.Goto? ==> r.insn.target in Succs(r);
    assert !IsBranch(r.insn) ==> r.next in Succs(r);
  }

  lemma Shrinks(all: set<nat>, seen: set<nat>, p: nat)
    requires p in all && p !in seen
    ensures all - (seen + {p}) < all - seen
  {
    assert p in all - seen;
  }

  lemma ShrinksBy(all: set<nat>, seen: set<nat>, more: set<nat>, p: nat)
    requires p in all && p !in seen && seen + {p} <= more
    ensures all - more < all - seen
  {
    assert p in all - seen;
  }

  /** The roots of the walk, in order: the method entry, then every exception handler. */
  function SelectAll(m: Method, depths: map<nat, nat>, roots: seq<nat>, w: Plan): (r: Plan)
    requires Verified(m, depths) && w.idx.Keys <= depths.Keys
    requires forall p :: p in roots ==> p in depths
    ensures w.idx.Keys <= r.idx.Keys <= depths.Keys
    ensures w.fault != NoFault ==> r == w
  {
    if roots == [] then w
    else SelectAll(m, depths, roots[1..], Select(m, depths, roots[0], w))
  }

  function Roots(m: Method): seq<nat> {
    [0] + m.handlers
  }

  function InitialCap(m: Method): nat {
    if 100 > 8 * |m.code| then 100 else 8 * |m.code|
  }

  function StartPlan(m: Method): Plan {
    var w := Plan(Prolog(m), map[], {}, {}, InitialCap(m), if InitialCap(m) < TWO_15 then NoFault else BufferTooLong);
    SetBuf(w)
  }

  /** The plan after the prolog and all bytecodes. */
  function BodyPlan(m: Method, depths: map<nat, nat>): (r: Plan)
    requires Verified(m, depths)
    ensures r.idx.Keys <= depths.Keys
  {
    SelectAll(m, depths, Roots(m), StartPlan(m))
  }

  // ----- what a plan keeps -----

  function Extent(m: Method, depths: map<nat, nat>, w: Plan, p: nat): nat {
    |BodyAt(m, depths, p)| + if p in w.linked then 1 else 0
  }

  /** The code of `p` is its template, followed by a jump to the next instruction if `p` is linked. */
  ghost predicate PlacedAt(m: Method, depths: map<nat, nat>, w: Plan, p: nat)
    requires p in w.idx
  {
    var k, b := w.idx[p], BodyAt(m, depths, p);
    && k + Extent(m, depths, w, p) <= |w.code|
    && w.code[k..k + |b|] == b
    && (p in w.linked ==>
          var next := InsnAt(m, p).next;
          && !IsBranch(InsnAt(m, p).insn)
          && next in w.idx && w.idx[next] <= k
          && w.code[k + |b|] == JmpRel(AsInt32(Offset(w.code, w.idx[next]) - Offset(w.code, k + |b| + 1))))
  }

  ghost predicate Apart(m: Method, depths: map<nat, nat>, w: Plan, p: nat, q: nat)
    requires p in w.idx && q in w.idx
  {
    w.idx[p] + Extent(m, depths, w, p) <= w.idx[q] || w.idx[q] + Extent(m, depths, w, q) <= w.idx[p]
  }

  ghost predicate Placed(m: Method, depths: map<nat, nat>, w: Plan) {
    && w.idx.Keys <= depths.Keys
    && w.linked <= w.idx.Keys && w.missed <= w.idx.Keys
    && (forall p :: p in w.idx ==> PlacedAt(m, depths, w, p))
    && (forall p, q :: p in w.idx && q in w.idx && p != q ==> Apart(m, depths, w, p, q))
  }

  predicate Same(w: Plan, r: Plan, p: nat)
    requires p in w.idx
  {
    && p in r.idx && r.idx[p] == w.idx[p]
    && (p in r.linked <==> p in w.linked) && (p in r.missed <==> p in w.missed)
  }

  /** Whatever was placed stays as it is. */
  ghost predicate Extends(w: Plan, r: Plan) {
    && w.code <= r.code
    && (forall p :: p in w.idx ==> Same(w, r, p))
    && (forall p :: p in r.idx && p !in w.idx ==> r.idx[p] >= |w.code|)
  }

  lemma ExtendsTrans(a: Plan, b: Plan, c: Plan)
    requires Extends(a, b) && Extends(b, c)
    ensures Extends(a, c)
  {
  }

  /** Every successor of `p` is placed, and the instruction that `p` falls through to either follows
      it or is reached by a jump, except after a conditional branch that missed it: there the code of
      the branch target follows instead, unless that was placed before, too. */
  ghost predicate Flows(m: Method, depths: map<nat, nat>, w: Plan, p: nat)
    requires p in w.idx
  {
    var r, b := InsnAt(m, p), BodyAt(m, depths, p);
    && (forall q :: q in Succs(r) ==> q in w.idx)
    && (!IsBranch(r.insn) && p !in w.linked ==> w.idx[r.next] == w.idx[p] + |b|)
    && (IsConditional(r.insn) ==>
          if p in w.missed then
            w.idx[r.next] <= w.idx[p]
            && (w.idx[r.insn.target] <= w.idx[p] || w.idx[r.insn.target] == w.idx[p] + |b|)
          else w.idx[r.next] == w.idx[p] + |b|)
  }

  lemma FlowsExtends(m: Method, depths: map<nat, nat>, w: Plan, r: Plan, p: nat)
    requires Extends(w, r) && p in w.idx && Flows(m, depths, w, p)
    ensures Flows(m, depths, r, p)
  {
    hide Parse, BodyAt;
    var s := InsnAt(m, p);
    if !IsBranch(s.insn) || IsConditional(s.insn) {
      assert s.next in Succs(s);
    }
    if IsConditional(s.insn) {
      assert s.insn.target in Succs(s);
    }
  }

  lemma EmitPlaced(m: Method, depths: map<nat, nat>, p: nat, w: Plan)
    requires Placed(m, depths, w) && p in depths && p !in w.idx
    ensures var r := Emit(m, depths, p, w); Placed(m, depths, r) && Extends(w, r)
  {
    hide BodyAt, InsnAt, Encode;
    var r := Emit(m, depths, p, w);
    forall q | q in r.idx ensures PlacedAt(m, depths, r, q) {
      if q != p {
        assert PlacedAt(m, depths, w, q);
        PlacedStays(m, depths, w, r, q);
      }
    }
    forall q, s | q in r.idx && s in r.idx && q != s ensures Apart(m, depths, r, q, s) {
      if q != p && s != p {
        assert Apart(m, depths, w, q, s);
      } else {
        var o := if q == p then s else q;
        assert PlacedAt(m, depths, w, o);
      }
    }
  }

  lemma PlacedStays(m: Method, depths: map<nat, nat>, w: Plan, r: Plan, p: nat)
    requires p in w.idx && PlacedAt(m, depths, w, p)
    requires w.code <= r.code && p in r.idx && r.idx[p] == w.idx[p] && (p in r.linked <==> p in w.linked)
    requires forall q :: q in w.idx ==> q in r.idx && r.idx[q] == w.idx[q]
    ensures PlacedAt(m, depths, r, p)
  {
    hide BodyAt, InsnAt, Offset;
    var k, b := w.idx[p], BodyAt(m, depths, p);
    assert r.code[..|w.code|] == w.code;
    assert r.code[k..k + |b|] == w.code[k..k + |b|];
    if p in w.linked {
      OffsetPrefix(w.code, r.code, w.idx[InsnAt(m, p).next]);
      OffsetPrefix(w.code, r.code, k + |b| + 1);
    }
  }

  lemma LinkPlaced(m: Method, depths: map<nat, nat>, w: Plan, p: nat, next: nat)
    requires Placed(m, depths, w) && p in w.idx && next in w.idx && InsnAt(m, p).next == next
    requires !IsBranch(InsnAt(m, p).insn) && p !in w.linked
    requires w.idx[p] + |BodyAt(m, depths, p)| == |w.code| && w.idx[next] <= w.idx[p]
    requires forall q :: q in w.idx && q != p ==> w.idx[q] + Extent(m, depths, w, q) <= w.idx[p]
    ensures var r := Link(w, p, next);
            Placed(m, depths, r)
            && w.code <= r.code && r.idx == w.idx && r.linked == w.linked + {p} && r.missed == w.missed
  {
    hide BodyAt, InsnAt, Offset, Encode, Encodable, LinkJump, PlacedAt, Apart;
    var r := Link(w, p, next);
    LinkPlacedAt(m, depths, w, p, next);
    forall q | q in r.idx ensures PlacedAt(m, depths, r, q) {
      assert PlacedAt(m, depths, w, q);
      if q != p {
        PlacedStays(m, depths, w, r, q);
      }
    }
    forall q, s | q in r.idx && s in r.idx && q != s ensures Apart(m, depths, r, q, s) {
      assert Apart(m, depths, w, q, s);
      LinkApart(m, depths, w, p, next, q, s);
    }
  }

  /** The jump back lands on the code of the next instruction. */
  lemma LinkPlacedAt(m: Method, depths: map<nat, nat>, w: Plan, p: nat, next: nat)
    requires p in w.idx && PlacedAt(m, depths, w, p) && next in w.idx && InsnAt(m, p).next == next
    requires !IsBranch(InsnAt(m, p).insn) && p !in w.linked
    requires w.idx[p] + |BodyAt(m, depths, p)| == |w.code| && w.idx[next] <= w.idx[p]
    ensures PlacedAt(m, depths, Link(w, p, next), p)
  {
    hide BodyAt, InsnAt, Offset, Encode, Encodable;
    var r := Link(w, p, next);
    OffsetPrefix(w.code, r.code, w.idx[next]);
    OffsetSnoc(w.code, LinkJump(w, next));
    JumpSize(LinkJump(w, next));
    assert r.code[..|w.code|] == w.code;
  }

  lemma LinkApart(m: Method, depths: map<nat, nat>, w: Plan, p: nat, next: nat, q: nat, s: nat)
    requires p in w.idx && q in w.idx && s in w.idx && q != s && Apart(m, depths, w, q, s)
    requires forall t :: t in w.idx && t != p ==> w.idx[t] + Extent(m, depths, w, t) <= w.idx[p]
    ensures Apart(m, depths, Link(w, p, next), q, s)
  {
    hide BodyAt, LinkJump;
  }

  lemma JumpSize(i: EncInstr)
    ensures i.JmpRel? ==> |Encode(i)| == 5
    ensures i.JccRel? ==> |Encode(i)| == 6
  {
  }

  /** What a completed walk adds: everything new is placed with its successors. */
  ghost predicate Completed(m: Method, depths: map<nat, nat>, p: nat, w: Plan, r: Plan) {
    && p in r.idx
    && (p !in w.idx ==> r.idx[p] == |w.code|)
    && forall q :: q in r.idx && q !in w.idx ==> Flows(m, depths, r, q)
  }

  ghost predicate Walked(m: Method, depths: map<nat, nat>, p: nat, w: Plan, r: Plan) {
    && Placed(m, depths, r) && Extends(w, r)
    && (r.fault == NoFault ==> Completed(m, depths, p, w, r))
  }

  lemma SameLayout(m: Method, depths: map<nat, nat>, w: Plan, r: Plan)
    requires Placed(m, depths, w)
    requires r.code == w.code && r.idx == w.idx && r.linked == w.linked && r.missed <= w.idx.Keys
    ensures Placed(m, depths, r)
  {
    hide BodyAt, InsnAt, Offset;
    forall p | p in r.idx ensures PlacedAt(m, depths, r, p) {
      assert PlacedAt(m, depths, w, p);
    }
    forall p, q | p in r.idx && q in r.idx && p != q ensures Apart(m, depths, r, p, q) {
      assert Apart(m, depths, w, p, q);
    }
  }

  lemma MissPlaced(m: Method, depths: map<nat, nat>, w: Plan, w0: Plan, p: nat, next: nat)
    requires Placed(m, depths, w) && p in w.idx && p !in w0.idx && Extends(w0, w)
    ensures var r := Miss(w, p, next); Placed(m, depths, r) && Extends(w0, r) && r.code == w.code
  {
    hide Placed, Offset;
    var r := Miss(w, p, next);
    assert w.missed <= w.idx.Keys by { MissedIn(m, depths, w); }
    SameLayout(m, depths, w, r);
  }

  lemma MissedIn(m: Method, depths: map<nat, nat>, w: Plan)
    requires Placed(m, depths, w)
    ensures w.missed <= w.idx.Keys && w.linked <= w.idx.Keys
  {
  }

  /** Two walks one after the other. */
  lemma WalkedThen(m: Method, depths: map<nat, nat>, p: nat, q: nat, a: Plan, b: Plan, c: Plan, d: Plan)
    requires Walked(m, depths, p, a, b) && Walked(m, depths, q, c, d)
    requires c.code == b.code && c.idx == b.idx && c.linked == b.linked && c.missed == b.missed
    requires d.fault == NoFault ==> b.fault == NoFault
    ensures Placed(m, depths, d) && Extends(a, d)
    ensures d.fault == NoFault ==> Completed(m, depths, p, a, d) && q in d.idx
  {
    hide Flows, PlacedAt, Apart;
    assert Extends(b, d);
    if d.fault == NoFault {
      forall s | s in d.idx && s !in a.idx ensures Flows(m, depths, d, s) {
        if s in b.idx {
          FlowsExtends(m, depths, b, d, s);
        }
      }
    }
  }

  /** The plan in which `p` has just been placed. */
  ghost predicate JustPlaced(m: Method, depths: map<nat, nat>, p: nat, w: Plan, w1: Plan) {
    && Placed(m, depths, w1) && Extends(w, w1)
    && w1.code == w.code + BodyAt(m, depths, p)
    && w1.idx == w.idx[p := |w.code|]
    && p !in w1.linked
    && (forall q :: q in w1.idx ==> w1.idx[q] <= |w.code|)
    && (forall q :: q in w1.idx && q != p ==> w1.idx[q] + Extent(m, depths, w1, q) <= |w.code|)
  }

  lemma EmitJustPlaced(m: Method, depths: map<nat, nat>, p: nat, w: Plan)
    requires Placed(m, depths, w) && p in depths && p !in w.idx
    ensures JustPlaced(m, depths, p, w, Emit(m, depths, p, w))
  {
    hide BodyAt, InsnAt, Offset;
    EmitPlaced(m, depths, p, w);
    forall q | q in w.idx ensures w.idx[q] + Extent(m, depths, w, q) <= |w.code| {
      assert PlacedAt(m, depths, w, q);
    }
  }

  lemma MissJustPlaced(m: Method, depths: map<nat, nat>, p: nat, w: Plan, w1: Plan, next: nat)
    requires JustPlaced(m, depths, p, w, w1) && p !in w.idx
    ensures JustPlaced(m, depths, p, w, Miss(w1, p, next))
  {
    hide BodyAt, InsnAt, Offset, Placed;
    MissPlaced(m, depths, w1, w, p, next);
  }

  lemma SetBufJustPlaced(m: Method, depths: map<nat, nat>, p: nat, w: Plan, w1: Plan)
    requires JustPlaced(m, depths, p, w, w1)
    ensures JustPlaced(m, depths, p, w, SetBuf(w1))
  {
    hide BodyAt, InsnAt, Offset, SetBuf, Placed;
    MissedIn(m, depths, w1);
    SameLayout(m, depths, w1, SetBuf(w1));
  }

  /** A conditional branch flows to its fall-through, right behind it unless missed, and to its target. */
  lemma ConditionalFlows(m: Method, depths: map<nat, nat>, p: nat, w: Plan, w1: Plan, r: Plan)
    requires JustPlaced(m, depths, p, w, w1) && Extends(w1, r) && IsConditional(InsnAt(m, p).insn)
    requires p in w1.missed <==> InsnAt(m, p).next in w1.idx
    requires InsnAt(m, p).next in r.idx && InsnAt(m, p).insn.target in r.idx
    requires InsnAt(m, p).next !in w1.idx ==> r.idx[InsnAt(m, p).next] == |w1.code|
    requires InsnAt(m, p).next in w1.idx && InsnAt(m, p).insn.target !in w1.idx ==>
               r.idx[InsnAt(m, p).insn.target] == |w1.code|
    ensures p in r.idx && Flows(m, depths, r, p)
  {
    hide BodyAt, Offset, Parse, Placed, InsnAt;
    var s := InsnAt(m, p);
    assert Same(w1, r, p);
    if s.next in w1.idx {
      assert Same(w1, r, s.next);
    }
  }

  lemma MissedIffPlaced(m: Method, depths: map<nat, nat>, p: nat, w: Plan, next: nat)
    requires Placed(m, depths, w) && p !in w.idx
    ensures var w1 := SetBuf(Miss(Emit(m, depths, p, w), p, next));
            p in w1.missed <==> next in w1.idx
  {
    hide BodyAt, Offset, SetBuf;
  }

  /** What is new in `r` flows, given that what is new since `w1` does and `p` does. */
  lemma CompletedFrom(m: Method, depths: map<nat, nat>, p: nat, n: nat, w: Plan, w1: Plan, r: Plan)
    requires JustPlaced(m, depths, p, w, w1) && p !in w.idx && Walked(m, depths, n, w1, r)
    requires p in r.idx && Flows(m, depths, r, p) && r.fault == NoFault
    ensures Walked(m, depths, p, w, r)
  {
    hide BodyAt, Offset, InsnAt, Placed, Flows;
    ExtendsTrans(w, w1, r);
    assert Same(w1, r, p);
    forall q | q in r.idx && q !in w.idx ensures Flows(m, depths, r, q) {
    }
  }

  lemma WalkedSelf(m: Method, depths: map<nat, nat>, p: nat, w: Plan)
    requires Placed(m, depths, w) && (w.fault != NoFault || p in w.idx)
    ensures Walked(m, depths, p, w, w)
  {
    hide Placed;
  }

  lemma FaultWalked(m: Method, depths: map<nat, nat>, p: nat, w: Plan, w1: Plan, r: Plan)
    requires JustPlaced(m, depths, p, w, w1) && Placed(m, depths, r) && Extends(w1, r) && r.fault != NoFault
    ensures Walked(m, depths, p, w, r)
  {
    hide Placed;
    ExtendsTrans(w, w1, r);
  }

  lemma WalkConditional(m: Method, depths: map<nat, nat>, p: nat, w: Plan, w1: Plan, r: Plan)
    requires JustPlaced(m, depths, p, w, w1) && p !in w.idx && IsConditional(InsnAt(m, p).insn)
    requires p in w1.missed <==> InsnAt(m, p).next in w1.idx
    requires Walked(m, depths, InsnAt(m, p).next, w1, r) && (r.fault == NoFault ==> InsnAt(m, p).insn.target in r.idx)
    requires r.fault == NoFault && InsnAt(m, p).next in w1.idx && InsnAt(m, p).insn.target !in w1.idx ==>
               r.idx[InsnAt(m, p).insn.target] == |w1.code|
    ensures Walked(m, depths, p, w, r)
  {
    hide Placed, BodyAt, InsnAt, Flows;
    if r.fault == NoFault {
      ConditionalFlows(m, depths, p, w, w1, r);
      CompletedFrom(m, depths, p, InsnAt(m, p).next, w, w1, r);
    } else {
      FaultWalked(m, depths, p, w, w1, r);
    }
  }

  lemma WalkGoto(m: Method, depths: map<nat, nat>, p: nat, w: Plan, w1: Plan, r: Plan)
    requires JustPlaced(m, depths, p, w, w1) && p !in w.idx && InsnAt(m, p).insn.Goto? && InsnAt(m, p).insn.target >= 0
    requires Walked(m, depths, InsnAt(m, p).insn.target, w1, r)
    ensures Walked(m, depths, p, w, r)
  {
    hide Placed, BodyAt, InsnAt;
    if r.fault == NoFault {
      assert Same(w1, r, p);
      CompletedFrom(m, depths, p, InsnAt(m, p).insn.target, w, w1, r);
    } else {
      FaultWalked(m, depths, p, w, w1, r);
    }
  }

  lemma WalkReturn(m: Method, depths: map<nat, nat>, p: nat, w: Plan, w1: Plan)
    requires JustPlaced(m, depths, p, w, w1) && p !in w.idx && InsnAt(m, p).insn.ReturnWords?
    ensures Walked(m, depths, p, w, w1)
  {
    hide Placed, BodyAt, InsnAt;
    WalkedSelf(m, depths, p, w1);
    if w1.fault == NoFault {
      CompletedFrom(m, depths, p, p, w, w1, w1);
    } else {
      FaultWalked(m, depths, p, w, w1, w1);
    }
  }

  lemma WalkStraight(m: Method, depths: map<nat, nat>, p: nat, w: Plan, w1: Plan, r: Plan)
    requires JustPlaced(m, depths, p, w, w1) && p !in w.idx && !IsBranch(InsnAt(m, p).insn)
    requires InsnAt(m, p).next !in w1.idx && Walked(m, depths, InsnAt(m, p).next, w1, r)
    ensures Walked(m, depths, p, w, r)
  {
    hide Placed, BodyAt, InsnAt;
    if r.fault == NoFault {
      assert Same(w1, r, p);
      CompletedFrom(m, depths, p, InsnAt(m, p).next, w, w1, r);
    } else {
      FaultWalked(m, depths, p, w, w1, r);
    }
  }

  lemma WalkLinked(m: Method, depths: map<nat, nat>, p: nat, w: Plan, w1: Plan, r: Plan)
    requires JustPlaced(m, depths, p, w, w1) && p !in w.idx && !IsBranch(InsnAt(m, p).insn)
    requires InsnAt(m, p).next in w1.idx && r == SetBuf(Link(w1, p, InsnAt(m, p).next))
    ensures Walked(m, depths, p, w, r)
  {
    hide BodyAt, InsnAt, SetBuf, PlacedAt, Apart, Offset;
    var next := InsnAt(m, p).next;
    LinkPlaced(m, depths, w1, p, next);
    SameLayout(m, depths, Link(w1, p, next), r);
    assert Extends(w, r);
    forall q | q in r.idx && q !in w.idx ensures Flows(m, depths, r, q) {
      assert q == p;
      assert forall s :: s in Succs(InsnAt(m, p)) ==> s == next;
    }
  }

  /** The walk keeps what was placed, and places everything it visits with all its successors. */
  lemma {:induction false} SelectPlaced(m: Method, depths: map<nat, nat>, p: nat, w: Plan)
    requires Verified(m, depths) && p in depths && Placed(m, depths, w)
    ensures Walked(m, depths, p, w, Select(m, depths, p, w))
    decreases depths.Keys - w.idx.Keys
  {
    hide Verified, InsnAt, Parse, BodyAt, SetBuf, Stale, Miss, PlacedAt, Apart, JustPlaced, Walked, Emit;
    var r := Select(m, depths, p, w);
    if w.fault != NoFault || p in w.idx {
      WalkedSelf(m, depths, p, w);
      return;
    }
    var s := InsnAt(m, p);
    var w1 := Emit(m, depths, p, w);
    var w2 := SetBuf(w1);
    SuccsIn(m, depths, p);
    Shrinks(depths.Keys, w.idx.Keys, p);
    EmitJustPlaced(m, depths, p, w);
    EmitIdx(m, depths, p, w);
    SetBufJustPlaced(m, depths, p, w, w1);
    JustPlacedPlaced(m, depths, p, w, w2);
    if IsConditional(s.insn) {
      var wm := SetBuf(Miss(w1, p, s.next));
      MissJustPlaced(m, depths, p, w, w1, s.next);
      SetBufJustPlaced(m, depths, p, w, Miss(w1, p, s.next));
      JustPlacedPlaced(m, depths, p, w, wm);
      MissedIffPlaced(m, depths, p, w, s.next);
      SelectPlaced(m, depths, s.next, wm);
      var w3 := Select(m, depths, s.next, wm);
      if s.insn.target !in w3.idx {
        ShrinksBy(depths.Keys, w.idx.Keys, w3.idx.Keys, p);
        WalkedPlaced(m, depths, s.next, wm, w3);
        SelectPlaced(m, depths, s.insn.target, SetBuf(w3));
        WalkedChain(m, depths, s.next, s.insn.target, wm, w3, SetBuf(w3), r);
        WalkedStart(m, depths, s.insn.target, SetBuf(w3), r);
      }
      WalkConditional(m, depths, p, w, wm, r);
    } else if s.insn.Goto? {
      if s.insn.target in w2.idx {
        WalkedSelf(m, depths, s.insn.target, w2);
        WalkGoto(m, depths, p, w, w2, w2);
      } else if w2.cap != w1.cap {
        StaleWalked(m, depths, p, w, w2);
      } else {
        SetBufTwice(w1);
        SelectPlaced(m, depths, s.insn.target, w2);
        WalkGoto(m, depths, p, w, w2, r);
      }
    } else if s.insn.ReturnWords? {
      WalkReturn(m, depths, p, w, w2);
    } else if s.next !in w2.idx {
      SelectPlaced(m, depths, s.next, w2);
      WalkStraight(m, depths, p, w, w2, r);
    } else if w2.cap != w1.cap || w2.fault != NoFault {
      StaleWalked(m, depths, p, w, w2);
    } else {
      WalkLinked(m, depths, p, w, w2, r);
    }
  }

  lemma EmitIdx(m: Method, depths: map<nat, nat>, p: nat, w: Plan)
    ensures Emit(m, depths, p, w).idx.Keys == w.idx.Keys + {p}
    ensures Emit(m, depths, p, w).fault == w.fault && Emit(m, depths, p, w).cap == w.cap
  {
    hide BodyAt;
  }

  lemma JustPlacedPlaced(m: Method, depths: map<nat, nat>, p: nat, w: Plan, w1: Plan)
    requires JustPlaced(m, depths, p, w, w1)
    ensures Placed(m, depths, w1)
  {
    hide Placed;
  }

  lemma StaleWalked(m: Method, depths: map<nat, nat>, p: nat, w: Plan, w1: Plan)
    requires JustPlaced(m, depths, p, w, w1)
    ensures Walked(m, depths, p, w, Stale(w1))
  {
    hide BodyAt, InsnAt, Offset, PlacedAt, Apart;
    MissedIn(m, depths, w1);
    SameLayout(m, depths, w1, Stale(w1));
  }

  lemma WalkedPlaced(m: Method, depths: map<nat, nat>, p: nat, w: Plan, r: Plan)
    requires Walked(m, depths, p, w, r)
    ensures Placed(m, depths, r) && Placed(m, depths, SetBuf(r))
  {
    hide SetBuf, PlacedAt, Apart;
    SameLayout(m, depths, r, SetBuf(r));
  }

  lemma WalkedStart(m: Method, depths: map<nat, nat>, p: nat, w: Plan, r: Plan)
    requires Walked(m, depths, p, w, r)
    ensures r.fault == NoFault && p !in w.idx ==> p in r.idx && r.idx[p] == |w.code|
  {
    hide Placed, Extends;
  }

  lemma WalkedChain(m: Method, depths: map<nat, nat>, p: nat, q: nat, a: Plan, b: Plan, c: Plan, d: Plan)
    requires Walked(m, depths, p, a, b) && Walked(m, depths, q, c, d) && c == SetBuf(b)
    requires d.fault == NoFault ==> b.fault == NoFault
    ensures Walked(m, depths, p, a, d) && (d.fault == NoFault ==> q in d.idx)
  {
    hide SetBuf, Placed, Flows;
    WalkedThen(m, depths, p, q, a, b, c, d);
  }

  /** A second `codebuf_set` at the same position does nothing when the first did nothing. */
  lemma SetBufTwice(w: Plan)
    requires SetBuf(w).cap == w.cap
    ensures SetBuf(SetBuf(w)) == SetBuf(w)
  {
    hide Offset;
  }
}
