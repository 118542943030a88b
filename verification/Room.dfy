/** Code buffer growth: between two calls of `codebuf_set` no template emits more than the 100 bytes
    it guarantees, so a method of any length is emitted inside its buffer. */
module Room {
  import opened Words
  import opened X86
  import opened Encoding
  import opened CodeStream
  import opened Bytecode
  import opened Frame
  import opened Templates
  import opened Placement

  lemma {:induction false} BytesBound(l: Code, b: nat)
    requires forall k :: 0 <= k < |l| ==> |Encode(l[k])| <= b
    ensures Offset(l, |l|) <= b * |l|
  {
    hide Encode, Encodable;
    if l != [] {
      var init := l[..|l| - 1];
      BytesBound(init, b);
      OffsetPrefix(init, l, |init|);
      assert b * |l| == b * |init| + b;
    }
  }

  lemma FrameMoveSize(i: EncInstr)
    requires (i.MovRM? && i.src.BaseDisp? && i.src.base == Ebp) || (i.MovMR? && i.mem.BaseDisp? && i.mem.base == Ebp)
    ensures |Encode(i)| <= 6
  {
  }

  lemma PushPopSize(i: EncInstr)
    requires i.PushR? || i.PopR?
    ensures |Encode(i)| <= 6
  {
  }

  lemma StackBodyBytes(m: Method, i: Insn, d: int)
    ensures Offset(StackBody(m, i, d), |StackBody(m, i, d)|) <= 72
  {
    hide Encode, Encodable, StoredStack, Offset;
    var b := StackBody(m, i, d);
    forall k | 0 <= k < |b| ensures |Encode(b[k])| <= 6 {
      if b[k].PushR? || b[k].PopR? {
        PushPopSize(b[k]);
      } else {
        FrameMoveSize(b[k]);
      }
    }
    BytesBound(b, 6);
  }

  /** No template, with the jump that may follow it, exceeds 100 bytes. */
  lemma BodyBytes(m: Method, i: Insn, d: int)
    ensures Offset(Body(m, i, d), |Body(m, i, d)|) <= 95
  {
    hide Encode, Encodable, StoredStack, StackBody, Offset;
    StackBodyBytes(m, i, d);
    var b := Body(m, i, d);
    if b != StackBody(m, i, d) {
      assert |b| <= 7;
      BytesBound(b, 11);
    }
  }

  lemma PrologBytes(m: Method)
    ensures Offset(Prolog(m), |Prolog(m)|) == 14
  {
    hide StoredFrameSize;
    var p := Prolog(m);
    assert |Encode(p[0])| == 1 && |Encode(p[1])| == 2 && |Encode(p[2])| == 5 && |Encode(p[3])| == 6;
    assert Offset(p, 4) == Offset(p, 3) + 6 && Offset(p, 3) == Offset(p, 2) + 5
        && Offset(p, 2) == Offset(p, 1) + 2 && Offset(p, 1) == Offset(p, 0) + 1;
  }

  /** The emitted bytes lie in the buffer and at least 100 are free. */
  predicate Roomy(w: Plan) {
    100 <= w.cap < TWO_15 && w.Pos() + 100 <= w.cap
  }

  predicate Inside(w: Plan) {
    100 <= w.cap < TWO_15 && w.Pos() <= w.cap
  }

  lemma SetBufRoomy(w: Plan)
    requires Inside(w)
    ensures SetBuf(w).fault == NoFault ==> Roomy(SetBuf(w))
    ensures Inside(SetBuf(w))
    ensures w.fault == NoFault ==>
              (SetBuf(w).fault == NoFault <==> Roomy(w) || 2 * w.cap < TWO_15)
  {
    hide Offset;
  }

  lemma {:induction false} OffsetConcat(l: Code, b: Code, k: int)
    requires 0 <= k <= |b|
    ensures Offset(l + b, |l| + k) == Offset(l, |l|) + Offset(b, k)
  {
    hide Encode;
    if k == 0 {
      OffsetPrefix(l, l + b, |l|);
    } else {
      OffsetConcat(l, b, k - 1);
      assert (l + b)[|l| + k - 1] == b[k - 1];
    }
  }

  lemma EmitRoom(m: Method, depths: map<nat, nat>, p: nat, w: Plan)
    requires Roomy(w)
    ensures var r := Emit(m, depths, p, w);
            r.cap == w.cap && r.Pos() == w.Pos() + Offset(BodyAt(m, depths, p), |BodyAt(m, depths, p)|) <= w.Pos() + 95
    ensures Inside(Emit(m, depths, p, w))
  {
    hide InsnAt, Body, Offset;
    var d := if p in depths then depths[p] else 0;
    BodyBytes(m, InsnAt(m, p).insn, d);
    OffsetConcat(w.code, BodyAt(m, depths, p), |BodyAt(m, depths, p)|);
  }

  lemma LinkRoom(w: Plan, p: nat, next: nat)
    requires Roomy(w)
    ensures Link(w, p, next).cap == w.cap && Link(w, p, next).Pos() == w.Pos() + 5 && Inside(Link(w, p, next))
  {
    hide Offset, Encode;
    OffsetSnoc(w.code, LinkJump(w, next));
    JumpSize(LinkJump(w, next));
  }

  lemma {:induction false} SelectRoomy(m: Method, depths: map<nat, nat>, p: nat, w: Plan)
    requires Verified(m, depths) && p in depths && w.idx.Keys <= depths.Keys
    requires w.fault == NoFault ==> Roomy(w)
    ensures var r := Select(m, depths, p, w); r.fault == NoFault ==> Roomy(r)
    decreases depths.Keys - w.idx.Keys
  {
    hide Verified, InsnAt, Parse, BodyAt, SetBuf, Stale, Miss, Emit, Roomy, Inside, Link;
    if w.fault != NoFault || p in w.idx {
      return;
    }
    var s := InsnAt(m, p);
    var w1 := Emit(m, depths, p, w);
    SuccsIn(m, depths, p);
    Shrinks(depths.Keys, w.idx.Keys, p);
    EmitIdx(m, depths, p, w);
    EmitRoom(m, depths, p, w);
    SetBufRoomy(w1);
    var w2 := SetBuf(w1);
    if IsConditional(s.insn) {
      var wm := SetBuf(Miss(w1, p, s.next));
      MissRoom(w1, p, s.next);
      SetBufRoomy(Miss(w1, p, s.next));
      SelectRoomy(m, depths, s.next, wm);
      var w3 := Select(m, depths, s.next, wm);
      if s.insn.target !in w3.idx {
        ShrinksBy(depths.Keys, w.idx.Keys, w3.idx.Keys, p);
        SetBufKeepsRoomy(w3);
        SelectRoomy(m, depths, s.insn.target, SetBuf(w3));
      }
    } else if s.insn.Goto? {
      if s.insn.target !in w2.idx && w2.cap == w1.cap {
        SetBufTwice(w1);
        SelectRoomy(m, depths, s.insn.target, w2);
      }
    } else if s.insn.ReturnWords? {
    } else if s.next !in w2.idx {
      SelectRoomy(m, depths, s.next, w2);
    } else if w2.fault == NoFault {
      LinkRoom(w2, p, s.next);
      SetBufRoomy(Link(w2, p, s.next));
    }
  }

  lemma MissRoom(w: Plan, p: nat, next: nat)
    requires Inside(w)
    ensures Inside(Miss(w, p, next))
  {
    hide Offset;
  }

  lemma SetBufKeepsRoomy(w: Plan)
    requires w.fault == NoFault ==> Roomy(w)
    ensures SetBuf(w) == w
  {
    hide Offset;
  }

  lemma {:induction false} SelectAllRoomy(m: Method, depths: map<nat, nat>, roots: seq<nat>, w: Plan)
    requires Verified(m, depths) && w.idx.Keys <= depths.Keys
    requires forall p :: p in roots ==> p in depths
    requires w.fault == NoFault ==> Roomy(w)
    ensures var r := SelectAll(m, depths, roots, w); r.fault == NoFault ==> Roomy(r)
  {
    hide Verified, Select, Roomy;
    if roots != [] {
      SelectRoomy(m, depths, roots[0], w);
      SelectAllRoomy(m, depths, roots[1..], Select(m, depths, roots[0], w));
    }
  }

  lemma StartRoomy(m: Method)
    ensures StartPlan(m).fault == NoFault ==> Roomy(StartPlan(m))
  {
    hide Offset, Prolog, SetBuf;
    PrologBytes(m);
    var w := Plan(Prolog(m), map[], {}, {}, InitialCap(m), if InitialCap(m) < TWO_15 then NoFault else BufferTooLong);
    if w.fault == NoFault {
      SetBufRoomy(w);
    }
  }

  /** Whatever the length of the method, all its code lies in the buffer with 100 bytes to spare. */
  lemma BodyPlanRoomy(m: Method, depths: map<nat, nat>)
    requires Verified(m, depths)
    ensures BodyPlan(m, depths).fault == NoFault ==> Roomy(BodyPlan(m, depths))
  {
    hide Parse, SelectAll, Roomy, StartPlan;
    StartRoomy(m);
    assert forall p :: p in Roots(m) ==> p in depths;
    assert StartPlan(m).idx.Keys <= depths.Keys by { StartIdx(m); }
    SelectAllRoomy(m, depths, Roots(m), StartPlan(m));
  }

  lemma StartIdx(m: Method)
    ensures StartPlan(m).idx == map[] && StartPlan(m).code == Prolog(m)
  {
    hide SetBuf, Prolog;
  }
}
