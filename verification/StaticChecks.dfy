/** Conditions on the bytecode alone, to check before compiling, under which the compiled code does what
    the bytecode means. */
module StaticChecks {
  import opened Wrappers
  import opened Words
  import opened X86
  import opened Encoding
  import opened CodeStream
  import opened Bytecode
  import opened Frame
  import opened Templates
  import opened FrameProofs
  import opened TemplateProofs
  import opened Placement
  import opened Reachability
  import opened Room
  import opened Budget
  import opened Patching
  import opened Simulation

  // ----- fall-throughs that cannot be missed -----

  /** A branch that missed its fall-through has one that is also reached from elsewhere. */
  ghost predicate MissedJoined(m: Method, depths: map<nat, nat>, w: Plan) {
    forall p :: p in w.missed ==> Joined(m, depths, p, InsnAt(m, p).next)
  }

  /** What the walk keeps, whether or not it meets a fault. */
  ghost predicate Tracked(m: Method, depths: map<nat, nat>, w: Plan) {
    w.idx.Keys <= depths.Keys && Sourced(m, w) && MissedJoined(m, depths, w)
  }

  lemma TrackedSame(m: Method, depths: map<nat, nat>, w: Plan, r: Plan)
    requires Tracked(m, depths, w) && r.idx == w.idx && r.missed == w.missed
    ensures Tracked(m, depths, r)
  {
    hide InsnAt, Joined, Succs;
    forall q | q in r.idx ensures SourceOf(m, r, q) {
      assert SourceOf(m, w, q);
    }
  }

  lemma EmitTracked(m: Method, depths: map<nat, nat>, p: nat, w: Plan)
    requires Tracked(m, depths, w) && SourceOf(m, w, p) && p in depths
    ensures Tracked(m, depths, Emit(m, depths, p, w))
    ensures forall q :: q in Succs(InsnAt(m, p)) ==> SourceOf(m, Emit(m, depths, p, w), q)
  {
    hide InsnAt, BodyAt, Joined, Succs, Sourced, SourceOf;
    EmitSourced(m, depths, p, w);
  }

  lemma MissTracked(m: Method, depths: map<nat, nat>, p: nat, w: Plan, next: nat)
    requires Verified(m, depths) && p in depths && p !in w.idx && Tracked(m, depths, w) && SourceOf(m, w, p)
    requires next == InsnAt(m, p).next
    ensures Tracked(m, depths, Miss(Emit(m, depths, p, w), p, next))
  {
    hide InsnAt, BodyAt, Joined, Succs, Verified, Sourced, SourceOf;
    var w1 := Emit(m, depths, p, w);
    EmitTracked(m, depths, p, w);
    InCode(m, depths, p);
    if next in w1.idx {
      PlacedJoined(m, depths, p, w, next);
      SourcedSame(m, w1, Miss(w1, p, next));
    }
  }

  lemma SourcedSame(m: Method, w: Plan, r: Plan)
    requires Sourced(m, w) && r.idx == w.idx
    ensures Sourced(m, r)
  {
    hide InsnAt, Succs;
    forall q | q in r.idx ensures SourceOf(m, r, q) {
      assert SourceOf(m, w, q);
    }
  }

  lemma StaleSame(w: Plan)
    ensures Stale(w).idx == w.idx && Stale(w).missed == w.missed
  {
  }

  lemma LinkSame(w: Plan, p: nat, next: nat)
    ensures Link(w, p, next).idx == w.idx && Link(w, p, next).missed == w.missed
  {
  }

  lemma {:induction false} SelectTracked(m: Method, depths: map<nat, nat>, p: nat, w: Plan)
    requires Verified(m, depths) && p in depths && Tracked(m, depths, w) && SourceOf(m, w, p)
    ensures Tracked(m, depths, Select(m, depths, p, w))
    decreases depths.Keys - w.idx.Keys
  {
    hide Verified, InsnAt, Parse, BodyAt, SetBuf, Stale, Miss, Emit, Link, Sourced, SourceOf, MissedJoined, Joined,
         Succs;
    if w.fault != NoFault || p in w.idx {
      return;
    }
    var s := InsnAt(m, p);
    var w1 := Emit(m, depths, p, w);
    var w2 := SetBuf(w1);
    SuccsIn(m, depths, p);
    SuccsOf(m, p);
    Shrinks(depths.Keys, w.idx.Keys, p);
    EmitIdx(m, depths, p, w);
    EmitTracked(m, depths, p, w);
    TrackedSame(m, depths, w1, w2);
    if IsConditional(s.insn) {
      var wm := SetBuf(Miss(w1, p, s.next));
      MissTracked(m, depths, p, w, s.next);
      TrackedSame(m, depths, Miss(w1, p, s.next), wm);
      SourceStays(m, w1, wm, s.next);
      SelectTracked(m, depths, s.next, wm);
      var w3 := Select(m, depths, s.next, wm);
      if s.insn.target !in w3.idx {
        ShrinksBy(depths.Keys, w.idx.Keys, w3.idx.Keys, p);
        TrackedSame(m, depths, w3, SetBuf(w3));
        SourceStays(m, w1, SetBuf(w3), s.insn.target);
        SelectTracked(m, depths, s.insn.target, SetBuf(w3));
      }
    } else if s.insn.Goto? {
      if s.insn.target !in w2.idx && w2.cap == w1.cap {
        TrackedSame(m, depths, w2, SetBuf(w2));
        SourceStays(m, w1, SetBuf(w2), s.insn.target);
        SelectTracked(m, depths, s.insn.target, SetBuf(w2));
      }
      StaleSame(w2);
      TrackedSame(m, depths, w2, Stale(w2));
    } else if s.insn.ReturnWords? {
    } else if s.next !in w2.idx {
      SourceStays(m, w1, w2, s.next);
      SelectTracked(m, depths, s.next, w2);
    } else {
      StaleSame(w2);
      TrackedSame(m, depths, w2, Stale(w2));
      LinkSame(w2, p, s.next);
      TrackedSame(m, depths, w2, SetBuf(Link(w2, p, s.next)));
    }
  }

  lemma {:induction false} SelectAllTracked(m: Method, depths: map<nat, nat>, roots: seq<nat>, w: Plan)
    requires Verified(m, depths) && Tracked(m, depths, w)
    requires forall p :: p in roots ==> p in depths && p in Roots(m)
    ensures Tracked(m, depths, SelectAll(m, depths, roots, w))
  {
    hide Verified, Select, Sourced, MissedJoined, Roots, Succs, InsnAt;
    if roots != [] {
      SelectTracked(m, depths, roots[0], w);
      SelectAllTracked(m, depths, roots[1..], Select(m, depths, roots[0], w));
    }
  }

  /** A conditional branch whose fall-through is reached from nowhere else is compiled before it. */
  lemma NotMissed(m: Method, depths: map<nat, nat>, p: nat)
    requires Verified(m, depths) && p in depths && !Joined(m, depths, p, InsnAt(m, p).next)
    ensures p !in BodyPlan(m, depths).missed
  {
    hide Parse, PcOk, SelectAll, InsnAt, Joined, Prolog, Offset, Succs;
    StartMissed(m);
    StartIdx(m);
    RootsIn(m, depths);
    SelectAllTracked(m, depths, Roots(m), StartPlan(m));
  }

  lemma StartMissed(m: Method)
    ensures StartPlan(m).missed == {}
  {
    hide SetBuf, Prolog;
  }

  // ----- plain methods -----

  /** The instruction at `p` does what it means on every stack: no negative operand of BIPUSH or SIPUSH,
      no I2C and no division; no branch to pc 0; no conditional branch whose fall-through is also
      reached from elsewhere. */
  predicate PlainAt(m: Method, depths: map<nat, nat>, p: nat) {
    var r := InsnAt(m, p);
    match r.insn
    case Bipush(b) => b < 128
    case Sipush(u) => u < TWO_15
    case I2c => false
    case IntDiv => false
    case IntRem => false
    case Goto(t) => t != 0
    case IfZero(_, t) => t != 0 && !Joined(m, depths, p, r.next)
    case IfCmp(_, t) => t != 0 && !Joined(m, depths, p, r.next)
    case _ => true
  }

  predicate Plain(m: Method, depths: map<nat, nat>) {
    forall p :: p in depths ==> PlainAt(m, depths, p)
  }

  lemma PlainStep(m: Method, depths: map<nat, nat>, p: nat, s: seq<Word>)
    requires Verified(m, depths) && p in depths && PlainAt(m, depths, p) && |s| >= Pops(InsnAt(m, p).insn)
    ensures StepExact(m, depths, p, s)
  {
    hide Verified, InsnAt, BodyPlan, Joined, Taken;
    if IsConditional(InsnAt(m, p).insn) {
      NotMissed(m, depths, p);
    }
  }

  /** Every run of a plain method is exact. */
  lemma {:induction false} PlainRun(m: Method, depths: map<nat, nat>, p: nat, v: Vars, n: nat)
    requires Verified(m, depths) && Plain(m, depths) && Typed(m, depths, p, v)
    ensures ExactRun(m, depths, p, v, n)
    decreases n
  {
    hide Parse, Verified, JavaStep, StepExact, PlainAt, InsnAt;
    if n > 0 {
      TypedFits(m, depths, p, v);
      StepTyped(m, depths, p, v);
      assert PlainAt(m, depths, p);
      PlainStep(m, depths, p, v.stack);
      var o := JavaStep(m, p, v);
      if o.Running? {
        PlainRun(m, depths, o.pc, o.vars, n - 1);
      }
    }
  }

  // ----- one plain method -----

  /** iload_0; ifge 7; iload_0; ineg; ireturn; iload_0; ireturn: the absolute value of an int. */
  const ABS: Method := Method([0x1a, 0x9c, 0x00, 0x06, 0x1a, 0x74, 0xac, 0x1a, 0xac], 1, 1, 1, [], 0)
  const ABS_DEPTHS: map<nat, nat> := map[0 := 0, 1 := 1, 4 := 0, 5 := 1, 6 := 1, 7 := 0, 8 := 1]

  lemma AbsParses()
    ensures Parse(ABS.code, 0) == Some(Parsed(Load(0), 1)) && Parse(ABS.code, 1) == Some(Parsed(IfZero(CcGe, 7), 4))
    ensures Parse(ABS.code, 4) == Some(Parsed(Load(0), 5)) && Parse(ABS.code, 5) == Some(Parsed(IntNeg, 6))
    ensures Parse(ABS.code, 6) == Some(Parsed(ReturnWords(1), 7)) && Parse(ABS.code, 7) == Some(Parsed(Load(0), 8))
    ensures Parse(ABS.code, 8) == Some(Parsed(ReturnWords(1), 9))
  {
  }

  function AbsInsn(p: nat): Parsed {
    match p
    case 0 => Parsed(Load(0), 1)
    case 1 => Parsed(IfZero(CcGe, 7), 4)
    case 4 => Parsed(Load(0), 5)
    case 5 => Parsed(IntNeg, 6)
    case 6 => Parsed(ReturnWords(1), 7)
    case 7 => Parsed(Load(0), 8)
    case _ => Parsed(ReturnWords(1), 9)
  }

  lemma AbsAt(p: nat)
    requires p in ABS_DEPTHS
    ensures Parse(ABS.code, p) == Some(AbsInsn(p)) && InsnAt(ABS, p) == AbsInsn(p)
  {
    hide Parse;
    AbsParses();
  }

  lemma AbsOk(p: nat)
    requires p in ABS_DEPTHS
    ensures PcOk(ABS, ABS_DEPTHS, p)
  {
    hide Parse;
    AbsAt(p);
  }

  /** The method is plain: its one fall-through is reached from the branch alone. */
  lemma AbsPlain()
    ensures Verified(ABS, ABS_DEPTHS) && Plain(ABS, ABS_DEPTHS)
  {
    hide Parse, PcOk, InsnAt, PlainAt;
    forall p | p in ABS_DEPTHS ensures PcOk(ABS, ABS_DEPTHS, p) && PlainAt(ABS, ABS_DEPTHS, p) {
      AbsOk(p);
      AbsPlainAt(p);
    }
  }

  lemma AbsPlainAt(p: nat)
    requires p in ABS_DEPTHS
    ensures PlainAt(ABS, ABS_DEPTHS, p)
  {
    hide Parse, InsnAt, Joined;
    AbsAt(p);
    if p == 1 {
      AbsNotJoined();
    }
  }

  lemma AbsNotJoined()
    ensures !Joined(ABS, ABS_DEPTHS, 1, 4)
  {
    hide Parse, InsnAt;
    forall q | q in ABS_DEPTHS && q != 1 ensures 4 !in Succs(InsnAt(ABS, q)) {
      AbsAt(q);
    }
  }
}
