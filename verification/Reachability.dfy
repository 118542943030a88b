/** The plan of a whole method: it places exactly the reachable pcs, each once. */
module Reachability {
  import opened Words
  import opened X86
  import opened CodeStream
  import opened Bytecode
  import opened Templates
  import opened Placement

  /** A path of control flow from the method entry or a handler. */
  ghost predicate IsPath(m: Method, path: seq<nat>) {
    && |path| > 0 && path[0] in Roots(m)
    && forall i :: 0 < i < |path| ==> path[i] in Succs(InsnAt(m, path[i - 1]))
  }

  ghost predicate Reachable(m: Method, p: nat) {
    exists path :: IsPath(m, path) && path[|path| - 1] == p
  }

  lemma ReachableStep(m: Method, p: nat, q: nat)
    requires Reachable(m, p) && q in Succs(InsnAt(m, p))
    ensures Reachable(m, q)
  {
    hide InsnAt, Succs;
    var path :| IsPath(m, path) && path[|path| - 1] == p;
    var longer := path + [q];
    assert IsPath(m, longer) && longer[|longer| - 1] == q;
  }

  lemma RootReachable(m: Method, p: nat)
    requires p in Roots(m)
    ensures Reachable(m, p)
  {
    hide InsnAt, Succs;
    assert IsPath(m, [p]) && [p][|[p]| - 1] == p;
  }

  /** The walk visits only what can be reached from where it starts. */
  lemma {:induction false} SelectReachable(m: Method, depths: map<nat, nat>, p: nat, w: Plan)
    requires Verified(m, depths) && p in depths && w.idx.Keys <= depths.Keys
    requires Reachable(m, p)
    ensures forall q :: q in Select(m, depths, p, w).idx && q !in w.idx ==> Reachable(m, q)
    decreases depths.Keys - w.idx.Keys
  {
    hide Verified, InsnAt, Parse, BodyAt, SetBuf, Stale, Miss, Reachable, Emit, Link;
    if w.fault != NoFault || p in w.idx {
      return;
    }
    var s := InsnAt(m, p);
    var w1 := Emit(m, depths, p, w);
    SuccsIn(m, depths, p);
    Shrinks(depths.Keys, w.idx.Keys, p);
    EmitIdx(m, depths, p, w);
    if IsConditional(s.insn) {
      var wm := SetBuf(Miss(w1, p, s.next));
      ReachableStep(m, p, s.next);
      ReachableStep(m, p, s.insn.target);
      SelectReachable(m, depths, s.next, wm);
      var w3 := Select(m, depths, s.next, wm);
      if s.insn.target !in w3.idx {
        ShrinksBy(depths.Keys, w.idx.Keys, w3.idx.Keys, p);
        SelectReachable(m, depths, s.insn.target, SetBuf(w3));
      }
    } else if s.insn.Goto? {
      ReachableStep(m, p, s.insn.target);
      if s.insn.target !in SetBuf(w1).idx && SetBuf(w1).cap == w1.cap {
        SelectReachable(m, depths, s.insn.target, SetBuf(SetBuf(w1)));
      }
    } else if s.insn.ReturnWords? {
    } else {
      ReachableStep(m, p, s.next);
      if s.next !in SetBuf(w1).idx {
        SelectReachable(m, depths, s.next, SetBuf(w1));
      } else {
        LinkIdx(SetBuf(w1), p, s.next);
      }
    }
  }

  lemma LinkIdx(w: Plan, p: nat, next: nat)
    ensures Link(w, p, next).idx == w.idx
  {
  }

  ghost predicate AllFlow(m: Method, depths: map<nat, nat>, w: Plan) {
    forall p :: p in w.idx ==> Flows(m, depths, w, p)
  }

  lemma {:induction false} SelectAllPlaced(m: Method, depths: map<nat, nat>, roots: seq<nat>, w: Plan)
    requires Verified(m, depths) && Placed(m, depths, w)
    requires forall p :: p in roots ==> p in depths && p in Roots(m)
    requires w.fault == NoFault ==> AllFlow(m, depths, w)
    requires forall p :: p in w.idx ==> Reachable(m, p)
    ensures var r := SelectAll(m, depths, roots, w);
            && Placed(m, depths, r) && Extends(w, r)
            && (forall p :: p in r.idx ==> Reachable(m, p))
            && (r.fault == NoFault ==>
                  AllFlow(m, depths, r) && (forall p :: p in roots ==> p in r.idx)
                  && (roots != [] && roots[0] !in w.idx ==> r.idx[roots[0]] == |w.code|))
  {
    hide Verified, PlacedAt, Apart, Flows, Reachable, Roots, Select;
    if roots != [] {
      var p := roots[0];
      var v := Select(m, depths, p, w);
      SelectPlaced(m, depths, p, w);
      RootReachable(m, p);
      SelectReachable(m, depths, p, w);
      if v.fault == NoFault {
        forall q | q in v.idx ensures Flows(m, depths, v, q) {
          if q in w.idx {
            FlowsExtends(m, depths, w, v, q);
          }
        }
      }
      SelectAllPlaced(m, depths, roots[1..], v);
      var r := SelectAll(m, depths, roots[1..], v);
      ExtendsTrans(w, v, r);
      if r.fault == NoFault {
        assert v.fault == NoFault;
        assert Same(v, r, p);
        forall q | q in roots ensures q in r.idx {
          if q != p {
            assert q in roots[1..];
          }
        }
      }
    }
  }

  /** The plan of a method: everything it places is placed with all its successors, the entry is
      right behind the prolog. */
  lemma BodyPlanPlaced(m: Method, depths: map<nat, nat>)
    requires Verified(m, depths)
    ensures var r := BodyPlan(m, depths);
            && Placed(m, depths, r) && Prolog(m) <= r.code
            && (forall p :: p in r.idx ==> r.idx[p] >= |Prolog(m)|)
            && (r.fault == NoFault ==>
                  AllFlow(m, depths, r) && 0 in r.idx && r.idx[0] == |Prolog(m)|)
  {
    hide Parse, InsnAt, SetBuf, Prolog, PlacedAt, Apart, Flows, Reachable;
    var w := StartPlan(m);
    SelectAllPlaced(m, depths, Roots(m), w);
  }

  lemma {:induction false} ClosedUnderPaths(m: Method, depths: map<nat, nat>, w: Plan, path: seq<nat>)
    requires IsPath(m, path) && AllFlow(m, depths, w) && forall p :: p in Roots(m) ==> p in w.idx
    ensures path[|path| - 1] in w.idx
    decreases |path|
  {
    hide InsnAt, BodyAt, Succs;
    if |path| > 1 {
      var init := path[..|path| - 1];
      ClosedUnderPaths(m, depths, w, init);
      assert Flows(m, depths, w, init[|init| - 1]);
    }
  }

  /** Code is selected for exactly the reachable pcs. */
  lemma VisitsExactlyReachable(m: Method, depths: map<nat, nat>)
    requires Verified(m, depths) && BodyPlan(m, depths).fault == NoFault
    ensures forall p :: p in BodyPlan(m, depths).idx <==> Reachable(m, p)
  {
    hide Parse, InsnAt, SetBuf, Prolog, PlacedAt, Apart, Flows, Select, Verified;
    var w := StartPlan(m);
    var r := BodyPlan(m, depths);
    RootsIn(m, depths);
    SelectAllPlaced(m, depths, Roots(m), w);
    forall p | Reachable(m, p) ensures p in r.idx {
      var path :| IsPath(m, path) && path[|path| - 1] == p;
      ClosedUnderPaths(m, depths, r, path);
    }
  }

  lemma RootsIn(m: Method, depths: map<nat, nat>)
    requires Verified(m, depths)
    ensures forall p :: p in Roots(m) ==> p in depths
  {
    hide Parse;
  }

  /** The entry and every handler have code. */
  lemma EntryAndHandlersPlaced(m: Method, depths: map<nat, nat>)
    requires Verified(m, depths) && BodyPlan(m, depths).fault == NoFault
    ensures 0 in BodyPlan(m, depths).idx
    ensures forall h :: h in m.handlers ==> h in BodyPlan(m, depths).idx
  {
    hide BodyPlan, Verified, Reachable;
    VisitsExactlyReachable(m, depths);
    RootReachable(m, 0);
    forall h | h in m.handlers ensures h in BodyPlan(m, depths).idx {
      RootReachable(m, h);
    }
  }
}
