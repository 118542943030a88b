/** When a method compiles without growing its code buffer, and at which step a walk that grows it goes
    on with a stale pointer. */
module Budget {
  import opened Wrappers
  import opened Words
  import opened X86
  import opened Encoding
  import opened CodeStream
  import opened Bytecode
  import opened Frame
  import opened Templates
  import opened Placement
  import opened Reachability
  import opened Room

  // ----- a condition to check before compiling -----

  /** `next` is also reached from elsewhere than from `p`. */
  predicate Joined(m: Method, depths: map<nat, nat>, p: nat, next: nat) {
    next in Roots(m) || exists q :: q in depths && q != p && next in Succs(InsnAt(m, q))
  }

  /** The most bytes the walk emits for `p`: its template, and a jump if the pc behind it may already
      have been placed. */
  function Cost(m: Method, depths: map<nat, nat>, p: nat): nat {
    Offset(BodyAt(m, depths, p), |BodyAt(m, depths, p)|)
    + if !IsBranch(InsnAt(m, p).insn) && Joined(m, depths, p, InsnAt(m, p).next) then 5 else 0
  }

  /** The costs of the pcs below `n` in `depths` that are not in `seen`. */
  function Rest(m: Method, depths: map<nat, nat>, seen: set<nat>, n: nat): nat {
    if n == 0 then 0
    else Rest(m, depths, seen, n - 1) + if n - 1 in depths && n - 1 !in seen then Cost(m, depths, n - 1) else 0
  }

  lemma {:induction false} RestWithout(m: Method, depths: map<nat, nat>, seen: set<nat>, p: nat, n: nat)
    requires p in depths && p !in seen
    ensures Rest(m, depths, seen, n) == Rest(m, depths, seen + {p}, n) + if p < n then Cost(m, depths, p) else 0
  {
    hide Cost;
    if n > 0 {
      RestWithout(m, depths, seen, p, n - 1);
    }
  }

  /** What is emitted and what may still be emitted stays below `limit`. */
  predicate Within(m: Method, depths: map<nat, nat>, w: Plan, limit: nat) {
    w.Pos() + Rest(m, depths, w.idx.Keys, |m.code|) <= limit && limit + 100 <= w.cap < TWO_15
  }

  predicate SourceOf(m: Method, w: Plan, p: nat) {
    p in Roots(m) || exists q :: q in w.idx && p in Succs(InsnAt(m, q))
  }

  /** Everything placed is a root or a successor of something placed. */
  predicate Sourced(m: Method, w: Plan) {
    forall p :: p in w.idx ==> SourceOf(m, w, p)
  }

  lemma InCode(m: Method, depths: map<nat, nat>, p: nat)
    requires Verified(m, depths) && p in depths
    ensures p < |m.code| && InsnAt(m, p).next > p
  {
    assert PcOk(m, depths, p);
  }

  /** The template of `p` uses up its cost, less the jump that may follow it. */
  lemma EmitWithin(m: Method, depths: map<nat, nat>, p: nat, w: Plan, limit: nat)
    requires Verified(m, depths) && p in depths && p !in w.idx && Within(m, depths, w, limit)
    ensures var r := Emit(m, depths, p, w);
            && Within(m, depths, r, limit) && SetBuf(r) == r
            && (!IsBranch(InsnAt(m, p).insn) && Joined(m, depths, p, InsnAt(m, p).next) ==>
                  r.Pos() + 5 + Rest(m, depths, r.idx.Keys, |m.code|) <= limit)
  {
    hide Verified, Parse, InsnAt, BodyAt, Emit, Offset, Joined;
    InCode(m, depths, p);
    RestWithout(m, depths, w.idx.Keys, p, |m.code|);
    EmitIdx(m, depths, p, w);
    EmitRoom(m, depths, p, w);
  }

  lemma EmitSourced(m: Method, depths: map<nat, nat>, p: nat, w: Plan)
    requires Sourced(m, w) && SourceOf(m, w, p)
    ensures var r := Emit(m, depths, p, w);
            Sourced(m, r) && forall q :: q in Succs(InsnAt(m, p)) ==> SourceOf(m, r, q)
  {
    hide InsnAt, BodyAt, Succs;
    var r := Emit(m, depths, p, w);
    assert p in r.idx;
    forall s | s in r.idx ensures SourceOf(m, r, s) {
      assert SourceOf(m, w, s);
    }
  }

  /** A pc placed before `p` was reached from elsewhere. */
  lemma PlacedJoined(m: Method, depths: map<nat, nat>, p: nat, w: Plan, next: nat)
    requires Sourced(m, w) && p !in w.idx && w.idx.Keys <= depths.Keys && next in w.idx
    ensures Joined(m, depths, p, next)
  {
    hide InsnAt, Succs;
    assert SourceOf(m, w, next);
  }

  lemma SourceStays(m: Method, w: Plan, r: Plan, p: nat)
    requires w.idx.Keys <= r.idx.Keys && SourceOf(m, w, p)
    ensures SourceOf(m, r, p)
  {
    hide InsnAt, Succs;
  }

  /** A state of the walk that cannot run out of room. */
  ghost predicate Ready(m: Method, depths: map<nat, nat>, w: Plan, limit: nat) {
    w.fault == NoFault && w.idx.Keys <= depths.Keys && Within(m, depths, w, limit) && Sourced(m, w)
  }

  lemma LinkReady(m: Method, depths: map<nat, nat>, w: Plan, p: nat, next: nat, limit: nat)
    requires Ready(m, depths, w, limit) && w.Pos() + 5 + Rest(m, depths, w.idx.Keys, |m.code|) <= limit
    ensures Ready(m, depths, Link(w, p, next), limit) && SetBuf(Link(w, p, next)) == Link(w, p, next)
  {
    hide InsnAt, Succs, Rest, Offset, LinkJump;
    LinkRoom(w, p, next);
    var r := Link(w, p, next);
    assert r.idx == w.idx;
    forall q | q in r.idx ensures SourceOf(m, r, q) {
      assert SourceOf(m, w, q);
    }
  }

  lemma MissReady(m: Method, depths: map<nat, nat>, w: Plan, p: nat, next: nat, limit: nat)
    requires Ready(m, depths, w, limit)
    ensures Ready(m, depths, Miss(w, p, next), limit) && SetBuf(Miss(w, p, next)) == Miss(w, p, next)
  {
    hide InsnAt, Succs, Rest, Offset;
    var r := Miss(w, p, next);
    forall q | q in r.idx ensures SourceOf(m, r, q) {
      assert SourceOf(m, w, q);
    }
  }

  lemma EmitReady(m: Method, depths: map<nat, nat>, p: nat, w: Plan, limit: nat)
    requires Verified(m, depths) && p in depths && p !in w.idx && Ready(m, depths, w, limit) && SourceOf(m, w, p)
    ensures var r := Emit(m, depths, p, w);
            && Ready(m, depths, r, limit) && SetBuf(r) == r
            && (forall q :: q in Succs(InsnAt(m, p)) ==> SourceOf(m, r, q))
            && (!IsBranch(InsnAt(m, p).insn) && InsnAt(m, p).next in r.idx ==>
                  r.Pos() + 5 + Rest(m, depths, r.idx.Keys, |m.code|) <= limit)
  {
    hide Verified, Parse, InsnAt, Emit, Succs, Within, Rest, Offset, Joined, SetBuf, Sourced, SourceOf;
    EmitWithin(m, depths, p, w, limit);
    EmitSourced(m, depths, p, w);
    EmitIdx(m, depths, p, w);
    InCode(m, depths, p);
    if InsnAt(m, p).next in w.idx {
      PlacedJoined(m, depths, p, w, InsnAt(m, p).next);
    }
  }

  /** Within its limit a walk neither grows the buffer nor stops. */
  lemma {:induction false} SelectReady(m: Method, depths: map<nat, nat>, p: nat, w: Plan, limit: nat)
    requires Verified(m, depths) && p in depths && Ready(m, depths, w, limit) && SourceOf(m, w, p)
    ensures var r := Select(m, depths, p, w); Ready(m, depths, r, limit) && r.cap == w.cap
    decreases depths.Keys - w.idx.Keys
  {
    hide Verified, InsnAt, Parse, Stale, Miss, Emit, Within, Rest, Sourced, SourceOf, Joined, Link, Succs, SetBuf;
    if p in w.idx {
      return;
    }
    var s := InsnAt(m, p);
    var w1 := Emit(m, depths, p, w);
    SuccsIn(m, depths, p);
    SuccsOf(m, p);
    Shrinks(depths.Keys, w.idx.Keys, p);
    EmitIdx(m, depths, p, w);
    EmitReady(m, depths, p, w, limit);
    if IsConditional(s.insn) {
      var wm := Miss(w1, p, s.next);
      MissReady(m, depths, w1, p, s.next, limit);
      MissCap(w1, p, s.next);
      SourceStays(m, w1, wm, s.next);
      SelectReady(m, depths, s.next, wm, limit);
      var w3 := Select(m, depths, s.next, wm);
      if s.insn.target !in w3.idx {
        ShrinksBy(depths.Keys, w.idx.Keys, w3.idx.Keys, p);
        SourceStays(m, w1, w3, s.insn.target);
        ReadyKept(m, depths, w3, limit);
        SelectReady(m, depths, s.insn.target, w3, limit);
      }
    } else if s.insn.Goto? {
      if s.insn.target !in w1.idx {
        SelectReady(m, depths, s.insn.target, w1, limit);
      }
    } else if s.insn.ReturnWords? {
    } else if s.next !in w1.idx {
      SelectReady(m, depths, s.next, w1, limit);
    } else {
      LinkReady(m, depths, w1, p, s.next, limit);
      LinkCap(w1, p, s.next);
    }
  }

  lemma SuccsOf(m: Method, p: nat)
    ensures var r := InsnAt(m, p);
            && (IsConditional(r.insn) ==>
                  r.next in Succs(r) && (r.insn.target >= 0 ==> r.insn.target in Succs(r)))
            && (r.insn.Goto? && r.insn.target >= 0 ==> r.insn.target in Succs(r))
            && (!IsBranch(r.insn) ==> r.next in Succs(r))
  {
    hide Parse;
  }

  lemma MissCap(w: Plan, p: nat, next: nat)
    ensures Miss(w, p, next).cap == w.cap
  {
  }

  lemma LinkCap(w: Plan, p: nat, next: nat)
    ensures Link(w, p, next).cap == w.cap && Link(w, p, next).fault == w.fault
  {
  }

  lemma ReadyKept(m: Method, depths: map<nat, nat>, w: Plan, limit: nat)
    requires Ready(m, depths, w, limit)
    ensures SetBuf(w) == w
  {
    hide Rest, Sourced, Offset;
  }

  lemma {:induction false} SelectAllReady(m: Method, depths: map<nat, nat>, roots: seq<nat>, w: Plan, limit: nat)
    requires Verified(m, depths) && Ready(m, depths, w, limit)
    requires forall p :: p in roots ==> p in depths && p in Roots(m)
    ensures var r := SelectAll(m, depths, roots, w); Ready(m, depths, r, limit) && r.cap == w.cap
  {
    hide Verified, Select, Within, Sourced, Roots, Succs, InsnAt;
    if roots != [] {
      SelectReady(m, depths, roots[0], w, limit);
      SelectAllReady(m, depths, roots[1..], Select(m, depths, roots[0], w), limit);
    }
  }

  /** The most bytes a method's prolog and bytecodes take. */
  function CodeBudget(m: Method, depths: map<nat, nat>): nat {
    14 + Rest(m, depths, {}, |m.code|)
  }

  /** A method short enough for a first buffer, and whose budget leaves 100 bytes of it, compiles in that
      buffer: the walk meets no fault, and emits no more than the budget. */
  lemma BudgetSuffices(m: Method, depths: map<nat, nat>)
    requires Verified(m, depths) && InitialCap(m) < TWO_15
    requires CodeBudget(m, depths) + 100 <= StartPlan(m).cap
    ensures var r := BodyPlan(m, depths);
            r.fault == NoFault && r.cap == StartPlan(m).cap && r.Pos() <= CodeBudget(m, depths)
  {
    hide Parse, SelectAll, Prolog, Rest, Offset, SetBuf, Succs, PcOk;
    var w := StartPlan(m);
    StartIdx(m);
    StartRoomy(m);
    StartFits(m);
    RootsIn(m, depths);
    PrologBytes(m);
    assert w.idx.Keys == {};
    SelectAllReady(m, depths, Roots(m), w, CodeBudget(m, depths));
  }

  lemma StartFits(m: Method)
    ensures StartPlan(m).fault == NoFault <==> InitialCap(m) < TWO_15
    ensures StartPlan(m).cap < TWO_15 || InitialCap(m) >= TWO_15
  {
    hide Offset, Prolog;
    PrologBytes(m);
  }

  /** The budget is met: the method of one return bytecode needs nineteen bytes of a buffer of 200. */
  lemma ReturnWithinBudget(address: Word)
    ensures var m, depths: map<nat, nat> := Method([0xb1], 0, 0, 0, [], address), map[0 := 0];
            && Verified(m, depths) && InitialCap(m) < TWO_15
            && CodeBudget(m, depths) == 19 && StartPlan(m).cap == 200
  {
    hide Offset, Prolog, Encode;
    var m, depths: map<nat, nat> := Method([0xb1], 0, 0, 0, [], address), map[0 := 0];
    assert Parse(m.code, 0) == Some(Parsed(ReturnWords(0), 1));
    assert PcOk(m, depths, 0);
    PrologBytes(m);
    var b := BodyAt(m, depths, 0);
    assert b == [JmpRel(0)];
    JumpSize(b[0]);
    OffsetSnoc([], b[0]);
    assert [] + [b[0]] == b;
    assert Offset(b, 1) == 5 by { NoBytes(); }
    assert Rest(m, depths, {}, 1) == Rest(m, depths, {}, 0) + Cost(m, depths, 0) == 5;
  }

  lemma NoBytes()
    ensures Offset([], 0) == 0
  {
  }

  // ----- the step at which a walk turns stale -----

  /** Fewer than 100 bytes are left behind the template of `p`, so the buffer is replaced, and the walk
      goes on with the old pointer: at a goto to an unplaced target, or at a straight-line instruction
      before a placed one. */
  predicate StaleStep(m: Method, depths: map<nat, nat>, p: nat, w: Plan) {
    var r, w1 := InsnAt(m, p), Emit(m, depths, p, w);
    && w.cap - w1.Pos() < 100 && 2 * w.cap < TWO_15
    && if IsBranch(r.insn) then r.insn.Goto? && r.insn.target !in w1.idx else r.next in w1.idx
  }

  /** The pcs a walk places, each with the plan it finds. */
  function Visits(m: Method, depths: map<nat, nat>, p: nat, w: Plan): seq<(nat, Plan)>
    requires Verified(m, depths) && p in depths && w.idx.Keys <= depths.Keys
    decreases depths.Keys - w.idx.Keys
  {
    hide Verified, InsnAt, Parse, BodyAt, SetBuf, Stale, Miss, Select;
    if w.fault != NoFault || p in w.idx then [] else
    var r := InsnAt(m, p);
    var i := r.insn;
    var w1 := Emit(m, depths, p, w);
    var w2 := SetBuf(w1);
    SuccsIn(m, depths, p);
    Shrinks(depths.Keys, w.idx.Keys, p);
    [(p, w)] +
    if IsConditional(i) then
      var w3 := Select(m, depths, r.next, SetBuf(Miss(w1, p, r.next)));
      Visits(m, depths, r.next, SetBuf(Miss(w1, p, r.next))) +
      if i.target in w3.idx then []
      else
        ShrinksBy(depths.Keys, w.idx.Keys, w3.idx.Keys, p);
        Visits(m, depths, i.target, SetBuf(w3))
    else if i.Goto? then
      if i.target in w2.idx || w2.cap != w1.cap then [] else Visits(m, depths, i.target, SetBuf(w2))
    else if i.ReturnWords? || r.next in w2.idx then []
    else Visits(m, depths, r.next, w2)
  }

  ghost predicate TurnsStale(m: Method, depths: map<nat, nat>, visits: seq<(nat, Plan)>) {
    exists v :: v in visits && StaleStep(m, depths, v.0, v.1)
  }

  lemma TurnsStaleIn(m: Method, depths: map<nat, nat>, a: seq<(nat, Plan)>, b: seq<(nat, Plan)>)
    ensures TurnsStale(m, depths, a + b) <==> TurnsStale(m, depths, a) || TurnsStale(m, depths, b)
  {
    hide StaleStep;
    if TurnsStale(m, depths, a) {
      var v :| v in a && StaleStep(m, depths, v.0, v.1);
      assert v in a + b;
    }
    if TurnsStale(m, depths, b) {
      var v :| v in b && StaleStep(m, depths, v.0, v.1);
      assert v in a + b;
    }
  }

  lemma TurnsStaleAt(m: Method, depths: map<nat, nat>, p: nat, w: Plan)
    ensures TurnsStale(m, depths, [(p, w)]) <==> StaleStep(m, depths, p, w)
    ensures !TurnsStale(m, depths, [])
  {
    hide StaleStep;
    assert (p, w) in [(p, w)];
  }

  /** What `codebuf_set` does behind the template of `p`, as `StaleStep` sees it. */
  lemma StaleStepIff(m: Method, depths: map<nat, nat>, p: nat, w: Plan)
    requires w.fault == NoFault && w.cap > 0
    ensures var r, w1 := InsnAt(m, p), Emit(m, depths, p, w);
            var w2 := SetBuf(w1);
            && w2.idx == w1.idx && w1.cap == w.cap
            && (w2.cap != w1.cap ==> w2.fault == NoFault)
            && w2.fault != StaleBuffer
            && (StaleStep(m, depths, p, w) <==>
                  && w2.cap != w1.cap
                  && if IsBranch(r.insn) then r.insn.Goto? && r.insn.target !in w2.idx else r.next in w2.idx)
  {
    hide InsnAt, BodyAt, Offset;
  }

  lemma SetBufFault(w: Plan)
    requires w.fault != StaleBuffer && w.cap > 0
    ensures SetBuf(w).fault != StaleBuffer && SetBuf(w).cap > 0
  {
    hide Offset;
  }

  lemma StaleFault(w: Plan)
    ensures w.fault == NoFault ==> Stale(w).fault == StaleBuffer
    ensures Stale(w).cap == w.cap
  {
  }

  /** A walk ends with a stale pointer exactly when one of the pcs it places turns it stale. */
  lemma {:induction false} StaleIff(m: Method, depths: map<nat, nat>, p: nat, w: Plan)
    requires Verified(m, depths) && p in depths && w.idx.Keys <= depths.Keys && w.fault != StaleBuffer && w.cap > 0
    ensures Select(m, depths, p, w).fault == StaleBuffer <==> TurnsStale(m, depths, Visits(m, depths, p, w))
    ensures Select(m, depths, p, w).cap > 0
    decreases depths.Keys - w.idx.Keys
  {
    hide Verified, InsnAt, Parse, BodyAt, SetBuf, Stale, Miss, Emit, StaleStep, TurnsStale, Link;
    TurnsStaleAt(m, depths, p, w);
    if w.fault != NoFault || p in w.idx {
      return;
    }
    var s := InsnAt(m, p);
    var w1 := Emit(m, depths, p, w);
    var w2 := SetBuf(w1);
    SuccsIn(m, depths, p);
    Shrinks(depths.Keys, w.idx.Keys, p);
    EmitIdx(m, depths, p, w);
    StaleStepIff(m, depths, p, w);
    SetBufFault(w1);
    assert [(p, w)] + [] == [(p, w)];
    if IsConditional(s.insn) {
      var wm := SetBuf(Miss(w1, p, s.next));
      MissCap(w1, p, s.next);
      SetBufFault(Miss(w1, p, s.next));
      StaleIff(m, depths, s.next, wm);
      var w3 := Select(m, depths, s.next, wm);
      var first := Visits(m, depths, s.next, wm);
      if s.insn.target in w3.idx {
        assert Visits(m, depths, p, w) == [(p, w)] + first;
      } else {
        ShrinksBy(depths.Keys, w.idx.Keys, w3.idx.Keys, p);
        var second := Visits(m, depths, s.insn.target, SetBuf(w3));
        assert Visits(m, depths, p, w) == [(p, w)] + (first + second);
        TurnsStaleIn(m, depths, first, second);
        TurnsStaleIn(m, depths, [(p, w)], first + second);
        if w3.fault != StaleBuffer {
          SetBufFault(w3);
          StaleIff(m, depths, s.insn.target, SetBuf(w3));
        }
      }
      TurnsStaleIn(m, depths, [(p, w)], first);
    } else if s.insn.Goto? {
      if s.insn.target !in w2.idx && w2.cap == w1.cap {
        SetBufTwice(w1);
        StaleIff(m, depths, s.insn.target, w2);
        TurnsStaleIn(m, depths, [(p, w)], Visits(m, depths, s.insn.target, w2));
      } else {
        StaleFault(w2);
      }
    } else if s.insn.ReturnWords? {
    } else if s.next !in w2.idx {
      StaleIff(m, depths, s.next, w2);
      TurnsStaleIn(m, depths, [(p, w)], Visits(m, depths, s.next, w2));
    } else if w2.cap != w1.cap || w2.fault != NoFault {
      StaleFault(w2);
    } else {
      LinkCap(w2, p, s.next);
      SetBufFault(Link(w2, p, s.next));
    }
  }

  /** The same from several roots one after the other. */
  function AllVisits(m: Method, depths: map<nat, nat>, roots: seq<nat>, w: Plan): seq<(nat, Plan)>
    requires Verified(m, depths) && w.idx.Keys <= depths.Keys
    requires forall p :: p in roots ==> p in depths
  {
    if roots == [] then []
    else Visits(m, depths, roots[0], w) + AllVisits(m, depths, roots[1..], Select(m, depths, roots[0], w))
  }

  lemma {:induction false} AllStaleIff(m: Method, depths: map<nat, nat>, roots: seq<nat>, w: Plan)
    requires Verified(m, depths) && w.idx.Keys <= depths.Keys && w.fault != StaleBuffer && w.cap > 0
    requires forall p :: p in roots ==> p in depths
    ensures SelectAll(m, depths, roots, w).fault == StaleBuffer <==>
            TurnsStale(m, depths, AllVisits(m, depths, roots, w))
  {
    hide Verified, Select, Visits, TurnsStale;
    if roots == [] {
      TurnsStaleAt(m, depths, 0, w);
    } else {
      var r := Select(m, depths, roots[0], w);
      StaleIff(m, depths, roots[0], w);
      TurnsStaleIn(m, depths, Visits(m, depths, roots[0], w), AllVisits(m, depths, roots[1..], r));
      if r.fault != StaleBuffer {
        AllStaleIff(m, depths, roots[1..], r);
      }
    }
  }

  /** A method is compiled with a stale pointer exactly when the walk places a pc that turns it stale. */
  lemma BodyStaleIff(m: Method, depths: map<nat, nat>)
    requires Verified(m, depths)
    ensures StartPlan(m).idx.Keys <= depths.Keys && forall p :: p in Roots(m) ==> p in depths
    ensures BodyPlan(m, depths).fault == StaleBuffer <==>
            TurnsStale(m, depths, AllVisits(m, depths, Roots(m), StartPlan(m)))
  {
    hide Parse, PcOk, SelectAll, AllVisits, TurnsStale, Prolog, Offset;
    StartIdx(m);
    RootsIn(m, depths);
    AllStaleIff(m, depths, Roots(m), StartPlan(m));
  }
}
