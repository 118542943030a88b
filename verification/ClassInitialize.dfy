/** Class initialization: a re-entrant recursive procedure over the state bits of the classes. */
module ClassInitialize {
  import opened Wrappers

  const CS_INITIALIZING: bv8 := 0x20
  const CS_INITIALIZED: bv8 := 0x40
  const CS_ERROR: bv8 := 0x80

  /** Classes in loading order: the superclass of each (-1 for none), and for one with a class
      initializer the classes whose initialization its single run triggers, in order. */
  datatype World = World(supers: seq<int>, clinits: seq<Option<seq<nat>>>) {
    predicate Valid() {
      && |supers| == |clinits|
      && (forall c :: 0 <= c < |supers| ==> -1 <= supers[c] < c)
      && (forall c :: 0 <= c < |clinits| && clinits[c].Some? ==> forall t :: t in clinits[c].value ==> t < |supers|)
    }
  }

  /** What happened: initialization of a class began, its initializer was started, it was completed. */
  datatype Event = Enter(c: nat) | Start(c: nat) | Complete(c: nat)

  datatype State = State(bits: seq<bv8>, flags: seq<bool>, log: seq<Event>)

  predicate Fits(w: World, s: State) {
    w.Valid() && |s.bits| == |s.flags| == |w.supers|
  }

  predicate Done(s: State, c: nat) {
    c < |s.bits| && s.bits[c] & CS_INITIALIZED != 0
  }

  /** In progress or done. */
  predicate Entered(s: State, c: nat) {
    c < |s.bits| == |s.flags| && (s.flags[c] || Done(s, c))
  }

  function Fresh(s: State): set<nat> {
    set c: nat | c < |s.bits| && !Entered(s, c)
  }

  function EnterState(s: State, k: nat): State
    requires k < |s.bits| == |s.flags|
  {
    State(s.bits[k := s.bits[k] | CS_INITIALIZING], s.flags[k := true], s.log + [Enter(k)])
  }

  function CompleteState(s: State, k: nat): State
    requires k < |s.bits| == |s.flags|
  {
    State(s.bits[k := s.bits[k] | CS_INITIALIZED], s.flags[k := false], s.log + [Complete(k)])
  }

  function StartState(s: State, k: nat): State {
    s.(log := s.log + [Start(k)])
  }

  lemma EnterMarks(s: State, k: nat)
    requires k < |s.bits| == |s.flags| && !Entered(s, k)
    ensures Fresh(EnterState(s, k)) == Fresh(s) - {k} && Fresh(EnterState(s, k)) < Fresh(s)
  {
    var t := EnterState(s, k);
    assert forall c: nat :: c != k ==> (Entered(t, c) <==> Entered(s, c));
    assert k in Fresh(s) && k !in Fresh(t);
  }

  lemma CompleteMarks(s: State, k: nat)
    requires k < |s.bits| == |s.flags| && Entered(s, k)
    ensures Fresh(CompleteState(s, k)) == Fresh(s) && Done(CompleteState(s, k), k)
  {
    var t := CompleteState(s, k);
    SetBit(s.bits[k]);
    assert forall c: nat :: c != k ==> (Entered(t, c) <==> Entered(s, c));
  }

  lemma SetBit(b: bv8)
    ensures (b | CS_INITIALIZED) & CS_INITIALIZED != 0
    ensures (b | CS_INITIALIZED) & CS_ERROR == b & CS_ERROR
    ensures (b | CS_INITIALIZING) & CS_ERROR == b & CS_ERROR
    ensures (b | CS_INITIALIZING) & CS_INITIALIZED == b & CS_INITIALIZED
  {
  }

  lemma StartKeeps(s: State, k: nat)
    ensures Fresh(StartState(s, k)) == Fresh(s)
  {
  }

  /** `class_initialize`; None where it throws, which ends in an assertion. The pending exception is
      always empty, so an initializer always completes gracefully. */
  function Initialize(w: World, s: State, k: nat): (r: Option<State>)
    requires Fits(w, s) && k < |s.bits|
    ensures r.Some? ==> Fits(w, r.value) && Fresh(r.value) <= Fresh(s) - {k}
    decreases Fresh(s), 0, 0
  {
    if s.flags[k] then Some(s)
    else if s.bits[k] & CS_INITIALIZED != 0 then Some(s)
    else if s.bits[k] & CS_ERROR != 0 then None
    else
      EnterMarks(s, k);
      var t := EnterState(s, k);
      var u := InitializeSuper(w, t, k);
      if u.None? then None else RunInitializer(w, u.value, k)
  }

  /** The class's own initializer, if any, and the completion. */
  function RunInitializer(w: World, s: State, k: nat): (r: Option<State>)
    requires Fits(w, s) && k < |s.bits| && k !in Fresh(s)
    ensures r.Some? ==> Fits(w, r.value) && Fresh(r.value) <= Fresh(s)
    decreases Fresh(s), 3, 0
  {
    StartKeeps(s, k);
    var v := if w.clinits[k].None? then Some(s) else RunAll(w, StartState(s, k), w.clinits[k].value);
    if v.None? then None
    else
      assert k !in Fresh(v.value);
      CompleteMarks(v.value, k);
      Some(CompleteState(v.value, k))
  }

  /** The superclass is asked unless its state is exactly the initialized bit, which it never is: the
      loaded and prepared bits stay set. */
  function InitializeSuper(w: World, s: State, k: nat): (r: Option<State>)
    requires Fits(w, s) && k < |s.bits|
    ensures r.Some? ==> Fits(w, r.value) && Fresh(r.value) <= Fresh(s)
    decreases Fresh(s), 1, 0
  {
    var d := w.supers[k];
    if d < 0 || s.bits[d] == CS_INITIALIZED then Some(s)
    else
      var u := Initialize(w, s, d);
      if u.Some? && u.value.bits[d] & CS_ERROR != 0 then None else u
  }

  /** Running an initializer makes its calls one after the other. */
  function RunAll(w: World, s: State, calls: seq<nat>): (r: Option<State>)
    requires Fits(w, s) && forall t :: t in calls ==> t < |s.bits|
    ensures r.Some? ==> Fits(w, r.value) && Fresh(r.value) <= Fresh(s)
    decreases Fresh(s), 2, |calls|
  {
    if calls == [] then Some(s)
    else
      assert calls[0] in calls && forall t :: t in calls[1..] ==> t in calls;
      var u := Initialize(w, s, calls[0]);
      if u.None? then None else RunAll(w, u.value, calls[1..])
  }

  // ----- what every run keeps -----

  predicate IsSuper(w: World, d: nat, c: nat)
    requires w.Valid() && c < |w.supers|
    decreases c
  {
    w.supers[c] >= 0 && (d == w.supers[c] || IsSuper(w, d, w.supers[c]))
  }

  /** Class `d` is done before position `i`, or its initialization had begun before the event `e`. */
  ghost predicate Settled(log: seq<Event>, i: nat, e: Event, d: nat)
    requires i <= |log|
  {
    Complete(d) in log[..i] || exists m: nat :: m < i && log[m] == e && Enter(d) in log[..m]
  }

  /** The event at `i`, if it starts an initializer, comes after the beginning of its class's and every
      superclass's initialization, and after its direct superclass is done unless that was in progress
      already when the class's own initialization began. */
  ghost predicate StartOk(w: World, log: seq<Event>, i: nat)
    requires w.Valid() && i < |log|
  {
    log[i].Start? && log[i].c < |w.supers| ==>
      var c := log[i].c;
      && Enter(c) in log[..i]
      && (forall d: nat :: IsSuper(w, d, c) ==> Enter(d) in log[..i])
      && (w.supers[c] >= 0 ==> Settled(log, i, Enter(c), w.supers[c]))
  }

  /** The event at `i`, if it completes a class, comes after its superclass is settled, its initializer
      was started, and every class is settled whose initialization that initializer asks for. */
  ghost predicate EndOk(w: World, log: seq<Event>, i: nat)
    requires w.Valid() && i < |log|
  {
    log[i].Complete? && log[i].c < |w.supers| ==>
      var c := log[i].c;
      && Enter(c) in log[..i]
      && (w.supers[c] >= 0 ==> Settled(log, i, Enter(c), w.supers[c]))
      && (w.clinits[c].Some? ==>
            Start(c) in log[..i] && forall t :: t in w.clinits[c].value ==> Settled(log, i, Start(c), t))
  }

  /** The protocol: nothing happens twice to a class, initializers start after their superclasses, and a
      class is completed after everything its initialization asks for. */
  ghost predicate LogOk(w: World, log: seq<Event>)
    requires w.Valid()
  {
    && (forall i, j :: 0 <= i < j < |log| ==> log[i] != log[j])
    && (forall i: nat :: i < |log| ==> StartOk(w, log, i))
    && (forall i: nat :: i < |log| ==> EndOk(w, log, i))
  }

  ghost predicate ClassOk(w: World, s: State, c: nat)
    requires Fits(w, s) && c < |s.bits|
  {
    && s.bits[c] & CS_ERROR == 0
    && (Entered(s, c) <==> Enter(c) in s.log)
    && (Done(s, c) <==> Complete(c) in s.log)
    && (s.flags[c] ==> !Done(s, c))
    && (Start(c) in s.log ==> Entered(s, c) && w.clinits[c].Some?)
    && (Done(s, c) && w.clinits[c].Some? ==> Start(c) in s.log)
  }

  /** Whatever is in progress or done has its superclass so, but for the class about to be asked. */
  ghost predicate SupersEntered(w: World, s: State, hole: int)
    requires Fits(w, s)
  {
    forall c: nat :: c < |w.supers| && Entered(s, c) && w.supers[c] >= 0 && w.supers[c] != hole ==>
      Entered(s, w.supers[c])
  }

  ghost predicate Inv(w: World, s: State, hole: int) {
    Fits(w, s) && LogOk(w, s.log) && SupersEntered(w, s, hole) && forall c: nat :: c < |s.bits| ==> ClassOk(w, s, c)
  }

  /** A call adds to the log, and leaves alone whatever was in progress or done before it. */
  ghost predicate Extends(s: State, t: State) {
    && s.log <= t.log && |s.bits| == |s.flags| == |t.bits| == |t.flags|
    && forall c: nat :: c < |s.bits| && Entered(s, c) ==>
         && Entered(t, c) && t.flags[c] == s.flags[c]
         && (Start(c) in t.log ==> Start(c) in s.log) && (Complete(c) in t.log ==> Complete(c) in s.log)
  }

  lemma ExtendsTrans(s: State, t: State, u: State)
    requires Extends(s, t) && Extends(t, u)
    ensures Extends(s, u)
  {
  }

  lemma SettledStays(log: seq<Event>, more: seq<Event>, i: nat, e: Event, d: nat)
    requires i <= |log| && log <= more && Settled(log, i, e, d)
    ensures Settled(more, i, e, d)
  {
    assert more[..i] == log[..i];
    if Complete(d) !in log[..i] {
      var m: nat :| m < i && log[m] == e && Enter(d) in log[..m];
      assert more[..m] == log[..m] && more[m] == e;
    }
  }

  lemma StartStays(w: World, log: seq<Event>, more: seq<Event>, i: nat)
    requires w.Valid() && i < |log| && log <= more && StartOk(w, log, i)
    ensures StartOk(w, more, i)
  {
    hide Settled, IsSuper;
    assert more[..i] == log[..i] && more[i] == log[i];
    if log[i].Start? && log[i].c < |w.supers| && w.supers[log[i].c] >= 0 {
      SettledStays(log, more, i, Enter(log[i].c), w.supers[log[i].c]);
    }
  }

  lemma EndStays(w: World, log: seq<Event>, more: seq<Event>, i: nat)
    requires w.Valid() && i < |log| && log <= more && EndOk(w, log, i)
    ensures EndOk(w, more, i)
  {
    hide Settled;
    assert more[..i] == log[..i] && more[i] == log[i];
    if log[i].Complete? && log[i].c < |w.supers| {
      var c := log[i].c;
      if w.supers[c] >= 0 {
        SettledStays(log, more, i, Enter(c), w.supers[c]);
      }
      if w.clinits[c].Some? {
        forall t | t in w.clinits[c].value ensures Settled(more, i, Start(c), t) {
          SettledStays(log, more, i, Start(c), t);
        }
      }
    }
  }

  /** An event that has not happened can be added; a start needs its superclasses, a completion all the
      initialization asked for. */
  lemma LogAppend(w: World, log: seq<Event>, e: Event)
    requires w.Valid() && LogOk(w, log) && e !in log
    requires StartOk(w, log + [e], |log|) && EndOk(w, log + [e], |log|)
    ensures LogOk(w, log + [e])
  {
    hide StartOk, EndOk;
    forall i: nat | i < |log + [e]| ensures StartOk(w, log + [e], i) && EndOk(w, log + [e], i) {
      if i < |log| {
        StartStays(w, log, log + [e], i);
        EndStays(w, log, log + [e], i);
      }
    }
  }

  lemma EnterOk(w: World, s: State, k: nat)
    requires Inv(w, s, k) && k < |s.bits| && !Entered(s, k)
    ensures Inv(w, EnterState(s, k), w.supers[k]) && Extends(s, EnterState(s, k))
  {
    hide LogOk;
    var t := EnterState(s, k);
    assert ClassOk(w, s, k);
    SetBit(s.bits[k]);
    LogAppend(w, s.log, Enter(k)) by {
      assert StartOk(w, s.log + [Enter(k)], |s.log|) && EndOk(w, s.log + [Enter(k)], |s.log|);
    }
    forall c: nat | c < |t.bits| ensures ClassOk(w, t, c) {
      assert ClassOk(w, s, c);
    }
  }

  lemma CompleteOk(w: World, s: State, k: nat)
    requires Inv(w, s, -1) && k < |s.bits| && s.flags[k] && (w.clinits[k].Some? ==> Start(k) in s.log)
    requires EndOk(w, s.log + [Complete(k)], |s.log|)
    ensures Inv(w, CompleteState(s, k), -1)
  {
    hide LogOk, EndOk;
    var t := CompleteState(s, k);
    assert ClassOk(w, s, k);
    SetBit(s.bits[k]);
    LogAppend(w, s.log, Complete(k)) by { assert StartOk(w, s.log + [Complete(k)], |s.log|); }
    forall c: nat | c < |t.bits| ensures ClassOk(w, t, c) {
      assert ClassOk(w, s, c);
    }
  }

  lemma {:induction false} AllSupersEntered(w: World, s: State, c: nat, d: nat)
    requires Inv(w, s, -1) && c < |s.bits| && Entered(s, c) && IsSuper(w, d, c)
    ensures Enter(d) in s.log
    decreases c
  {
    hide LogOk;
    var e := w.supers[c];
    assert ClassOk(w, s, e);
    if d != e {
      AllSupersEntered(w, s, e, d);
    }
  }

  /** A class in progress when `e` happened, or done by now, is settled. */
  lemma SettledNow(w: World, before: State, s: State, e: Event, d: nat)
    requires Inv(w, s, -1) && d < |s.bits| && before.log + [e] <= s.log
    requires Enter(d) in before.log || Done(s, d)
    ensures forall x :: Settled(s.log + [x], |s.log|, e, d)
  {
    hide LogOk;
    assert ClassOk(w, s, d);
    forall x ensures Settled(s.log + [x], |s.log|, e, d) {
      var log, m := s.log + [x], |before.log|;
      assert log[..|s.log|] == s.log;
      assert log[..m] == before.log && log[m] == (before.log + [e])[m] == e;
    }
  }

  /** `before` is the state in which the initialization of `k` began. */
  lemma SuperSettled(w: World, before: State, s: State, k: nat)
    requires Inv(w, before, k) && k < |before.bits| && Inv(w, s, -1) && EnterState(before, k).log <= s.log
    requires w.supers[k] >= 0 && (before.flags[w.supers[k]] || Done(s, w.supers[k]))
    ensures forall x :: Settled(s.log + [x], |s.log|, Enter(k), w.supers[k])
  {
    hide LogOk;
    assert ClassOk(w, before, w.supers[k]);
    SettledNow(w, before, s, Enter(k), w.supers[k]);
  }

  lemma StartAllowed(w: World, before: State, s: State, k: nat)
    requires Inv(w, before, k) && k < |before.bits| && !Entered(before, k)
    requires Inv(w, s, -1) && Extends(EnterState(before, k), s) && w.clinits[k].Some?
    requires w.supers[k] >= 0 ==> before.flags[w.supers[k]] || Done(s, w.supers[k])
    ensures StartOk(w, s.log + [Start(k)], |s.log|)
  {
    hide LogOk, Settled;
    var log := s.log + [Start(k)];
    assert log[..|s.log|] == s.log && EnterState(before, k).log[|before.log|] == Enter(k);
    forall d: nat | IsSuper(w, d, k) ensures Enter(d) in log[..|s.log|] {
      AllSupersEntered(w, s, k, d);
    }
    if w.supers[k] >= 0 {
      SuperSettled(w, before, s, k);
    }
  }

  lemma StartOkNow(w: World, before: State, s: State, k: nat)
    requires Inv(w, before, k) && k < |before.bits| && !Entered(before, k)
    requires Inv(w, s, -1) && Extends(EnterState(before, k), s) && Start(k) !in s.log && w.clinits[k].Some?
    requires w.supers[k] >= 0 ==> before.flags[w.supers[k]] || Done(s, w.supers[k])
    ensures Inv(w, StartState(s, k), -1)
  {
    hide LogOk, StartOk, IsSuper;
    StartAllowed(w, before, s, k);
    LogAppend(w, s.log, Start(k)) by { assert EndOk(w, s.log + [Start(k)], |s.log|); }
    forall c: nat | c < |s.bits| ensures ClassOk(w, StartState(s, k), c) {
      assert ClassOk(w, s, c);
    }
  }

  /** The class may be completed: `started` is the state in which its initializer was started. */
  lemma EndAllowed(w: World, before: State, started: State, s: State, k: nat)
    requires Inv(w, before, k) && k < |before.bits| && Inv(w, s, -1) && EnterState(before, k).log <= s.log
    requires w.supers[k] >= 0 ==> before.flags[w.supers[k]] || Done(s, w.supers[k])
    requires w.clinits[k].Some? ==>
               && Inv(w, started, -1) && StartState(started, k).log <= s.log
               && forall t :: t in w.clinits[k].value ==> started.flags[t] || Done(s, t)
    ensures EndOk(w, s.log + [Complete(k)], |s.log|)
  {
    hide LogOk, Settled;
    var log := s.log + [Complete(k)];
    assert log[..|s.log|] == s.log && EnterState(before, k).log[|before.log|] == Enter(k);
    if w.supers[k] >= 0 {
      SuperSettled(w, before, s, k);
    }
    if w.clinits[k].Some? {
      assert s.log[|started.log|] == Start(k);
      forall t | t in w.clinits[k].value ensures Settled(log, |s.log|, Start(k), t) {
        assert ClassOk(w, started, t);
        SettledNow(w, started, s, Start(k), t);
      }
    }
  }

  /** A call never throws, keeps the invariant, and ends with the class done unless it was in progress. */
  lemma {:induction false} InitializeOk(w: World, s: State, k: nat)
    requires Inv(w, s, k) && k < |s.bits|
    ensures Initialize(w, s, k).Some?
    ensures var t := Initialize(w, s, k).value;
            Inv(w, t, -1) && Extends(s, t) && (s.flags[k] || Done(t, k)) && t.flags == s.flags
    decreases Fresh(s), 0, 0
  {
    hide LogOk, StartOk, InitializeSuper, RunInitializer, EndOk;
    assert ClassOk(w, s, k);
    if Entered(s, k) {
      return;
    }
    EnterMarks(s, k);
    EnterOk(w, s, k);
    SuperOk(w, EnterState(s, k), k);
    var u := InitializeSuper(w, EnterState(s, k), k).value;
    RunInitializerOk(w, s, u, k);
  }

  lemma {:induction false} RunInitializerOk(w: World, before: State, s: State, k: nat)
    requires Inv(w, before, k) && k < |before.bits| && !Entered(before, k)
    requires Inv(w, s, -1) && Extends(EnterState(before, k), s) && s.flags == EnterState(before, k).flags
    requires w.supers[k] >= 0 ==> before.flags[w.supers[k]] || Done(s, w.supers[k])
    ensures k !in Fresh(s) && RunInitializer(w, s, k).Some?
    ensures var t := RunInitializer(w, s, k).value;
            Inv(w, t, -1) && Extends(before, t) && Done(t, k) && t.flags == before.flags
    decreases Fresh(s), 3, 0
  {
    hide LogOk, StartOk, RunAll, EndOk, Settled, IsSuper;
    assert ClassOk(w, before, k);
    var entered := EnterState(before, k);
    assert Start(k) !in entered.log && Entered(entered, k);
    if w.clinits[k].Some? {
      StartKeeps(s, k);
      var started := StartState(s, k);
      StartOkNow(w, before, s, k);
      RunAllOk(w, started, w.clinits[k].value);
      var v := RunAll(w, started, w.clinits[k].value).value;
      assert started.log[|s.log|] == Start(k);
      StillSettled(w, before, s, v, k);
      EndAllowed(w, before, s, v, k);
      CompleteOk(w, v, k);
      CompleteExtends(w, before, v, k);
    } else {
      EndAllowed(w, before, s, s, k);
      CompleteOk(w, s, k);
      CompleteExtends(w, before, s, k);
    }
  }

  /** While the initializer runs the superclass stays done, and nothing `before` is undone. */
  lemma StillSettled(w: World, before: State, s: State, v: State, k: nat)
    requires Inv(w, before, k) && k < |before.bits| && Inv(w, s, -1) && Extends(EnterState(before, k), s)
    requires Inv(w, v, -1) && Extends(StartState(s, k), v)
    requires w.supers[k] >= 0 ==> before.flags[w.supers[k]] || Done(s, w.supers[k])
    ensures EnterState(before, k).log <= v.log
    ensures w.supers[k] >= 0 ==> before.flags[w.supers[k]] || Done(v, w.supers[k])
  {
    hide LogOk;
    assert s.log <= StartState(s, k).log;
    if w.supers[k] >= 0 {
      assert ClassOk(w, s, w.supers[k]);
    }
  }

  /** Completing a class that was fresh `before`, and whose state was left alone since. */
  lemma CompleteExtends(w: World, before: State, v: State, k: nat)
    requires Fits(w, before) && k < |before.bits| && !Entered(before, k)
    requires Fits(w, v) && v.flags == EnterState(before, k).flags
    requires EnterState(before, k).log <= v.log
    requires forall c: nat :: c < |before.bits| && c != k && Entered(before, c) ==>
               && Entered(v, c) && (Start(c) in v.log ==> Start(c) in before.log)
               && (Complete(c) in v.log ==> Complete(c) in before.log)
    ensures var t := CompleteState(v, k); Extends(before, t) && Done(t, k) && t.flags == before.flags
  {
    SetBit(v.bits[k]);
    assert before.log <= EnterState(before, k).log;
  }

  lemma {:induction false} SuperOk(w: World, s: State, k: nat)
    requires Fits(w, s) && k < |s.bits| && Inv(w, s, w.supers[k])
    ensures InitializeSuper(w, s, k).Some?
    ensures var t := InitializeSuper(w, s, k).value; var d := w.supers[k];
            Inv(w, t, -1) && Extends(s, t) && (d >= 0 ==> s.flags[d] || Done(t, d)) && t.flags == s.flags
    decreases Fresh(s), 1, 0
  {
    hide LogOk, StartOk;
    var d := w.supers[k];
    if d >= 0 {
      InitializeOk(w, s, d);
      assert ClassOk(w, Initialize(w, s, d).value, d);
      assert ClassOk(w, s, d);
    }
  }

  lemma {:induction false} RunAllOk(w: World, s: State, calls: seq<nat>)
    requires Inv(w, s, -1) && forall t :: t in calls ==> t < |s.bits|
    ensures RunAll(w, s, calls).Some?
    ensures var t := RunAll(w, s, calls).value; Inv(w, t, -1) && Extends(s, t) && t.flags == s.flags
    ensures forall c :: c in calls ==> s.flags[c] || Done(RunAll(w, s, calls).value, c)
    decreases Fresh(s), 2, |calls|
  {
    hide LogOk, StartOk;
    if calls != [] {
      assert calls[0] in calls && forall t :: t in calls[1..] ==> t in calls;
      InitializeOk(w, s, calls[0]);
      RunAllOk(w, Initialize(w, s, calls[0]).value, calls[1..]);
    }
  }

  // ----- the calls of an initializer, one after the other -----

  /** Calls made in two parts: the second part starts where the first one ends. */
  lemma {:induction false} CallsInOrder(w: World, s: State, a: seq<nat>, b: seq<nat>)
    requires Fits(w, s) && (forall t :: t in a ==> t < |s.bits|) && forall t :: t in b ==> t < |s.bits|
    ensures forall t :: t in a + b ==> t < |s.bits|
    ensures RunAll(w, s, a + b) == match RunAll(w, s, a) case None => None case Some(u) => RunAll(w, u, b)
    ensures forall t: nat :: t < |s.bits| ==> RunAll(w, s, [t]) == Initialize(w, s, t)
    ensures RunAll(w, s, []) == Some(s)
    decreases |a|
  {
    hide Initialize;
    forall t: nat | t < |s.bits| ensures RunAll(w, s, [t]) == Initialize(w, s, t) {
      assert [t][1..] == [];
    }
    if a == [] {
      assert a + b == b;
    } else {
      assert (a + b)[1..] == a[1..] + b;
      assert a[0] in a && forall t :: t in a[1..] ==> t in a;
      var u := Initialize(w, s, a[0]);
      if u.Some? {
        CallsInOrder(w, u.value, a[1..], b);
      }
    }
  }

  /** When the call behind `a` is made, every class asked for in `a` is done or still in progress. */
  lemma EarlierCallsSettled(w: World, s: State, a: seq<nat>, t: nat)
    requires Inv(w, s, -1) && t < |s.bits| && forall c :: c in a ==> c < |s.bits|
    ensures RunAll(w, s, a).Some? && forall c :: c in a + [t] ==> c < |s.bits|
    ensures RunAll(w, s, a + [t]) == Initialize(w, RunAll(w, s, a).value, t)
    ensures forall c :: c in a ==> s.flags[c] || Done(RunAll(w, s, a).value, c)
  {
    hide RunAll, Initialize, LogOk;
    RunAllOk(w, s, a);
    CallsInOrder(w, s, a, [t]);
    CallsInOrder(w, RunAll(w, s, a).value, [], [t]);
  }

  // ----- what is initialized -----

  /** The classes the initialization of `c` asks for: its superclass and those its initializer uses. */
  predicate Uses(w: World, c: nat, d: nat)
    requires w.Valid() && c < |w.supers|
  {
    d == w.supers[c] || (w.clinits[c].Some? && d in w.clinits[c].value)
  }

  ghost predicate Closed(w: World, n: set<nat>)
    requires w.Valid()
  {
    forall c, d: nat :: c in n && c < |w.supers| && d < |w.supers| && Uses(w, c, d) ==> d in n
  }

  /** In every closed set that holds the classes asked for. */
  ghost predicate Needed(w: World, calls: seq<nat>, c: nat)
    requires w.Valid()
  {
    forall n :: Closed(w, n) && (forall t :: t in calls ==> t in n) ==> c in n
  }

  /** Only classes of `n` were begun between two states. */
  ghost predicate Within(s: State, t: State, n: set<nat>) {
    forall c: nat :: Entered(t, c) && !Entered(s, c) ==> c in n
  }

  lemma {:induction false} InitializeWithin(w: World, s: State, k: nat, n: set<nat>)
    requires Fits(w, s) && k < |s.bits| && Closed(w, n) && k in n
    ensures Initialize(w, s, k).Some? ==> Within(s, Initialize(w, s, k).value, n)
    decreases Fresh(s), 0, 0
  {
    hide InitializeSuper, RunInitializer, Closed;
    if Entered(s, k) || s.bits[k] & CS_ERROR != 0 {
      return;
    }
    EnterMarks(s, k);
    var t := EnterState(s, k);
    SetBit(s.bits[k]);
    assert Within(s, t, n);
    SuperWithin(w, t, k, n);
    if InitializeSuper(w, t, k).Some? {
      RunInitializerWithin(w, InitializeSuper(w, t, k).value, k, n);
    }
  }

  lemma {:induction false} SuperWithin(w: World, s: State, k: nat, n: set<nat>)
    requires Fits(w, s) && k < |s.bits| && Closed(w, n) && k in n
    ensures InitializeSuper(w, s, k).Some? ==> Within(s, InitializeSuper(w, s, k).value, n)
    decreases Fresh(s), 1, 0
  {
    hide Initialize;
    var d := w.supers[k];
    if d >= 0 {
      assert Uses(w, k, d);
      InitializeWithin(w, s, d, n);
    }
  }

  lemma {:induction false} RunInitializerWithin(w: World, s: State, k: nat, n: set<nat>)
    requires Fits(w, s) && k < |s.bits| && k !in Fresh(s) && Closed(w, n) && k in n
    ensures RunInitializer(w, s, k).Some? ==> Within(s, RunInitializer(w, s, k).value, n)
    decreases Fresh(s), 3, 0
  {
    hide RunAll;
    if w.clinits[k].Some? {
      forall t | t in w.clinits[k].value ensures t in n {
        assert Uses(w, k, t);
      }
      StartKeeps(s, k);
      RunAllWithin(w, StartState(s, k), w.clinits[k].value, n);
    }
  }

  lemma {:induction false} RunAllWithin(w: World, s: State, calls: seq<nat>, n: set<nat>)
    requires Fits(w, s) && Closed(w, n) && forall t :: t in calls ==> t < |s.bits| && t in n
    ensures RunAll(w, s, calls).Some? ==> Within(s, RunAll(w, s, calls).value, n)
    decreases Fresh(s), 2, |calls|
  {
    hide Initialize, Closed;
    if calls != [] {
      assert calls[0] in calls && forall t :: t in calls[1..] ==> t in calls;
      InitializeWithin(w, s, calls[0], n);
      if Initialize(w, s, calls[0]).Some? {
        RunAllWithin(w, Initialize(w, s, calls[0]).value, calls[1..], n);
      }
    }
  }

  /** All classes are loaded and none has been initialized. */
  ghost predicate Untouched(w: World, s: State) {
    && Fits(w, s) && s.log == []
    && forall c :: 0 <= c < |s.bits| ==> !s.flags[c] && s.bits[c] & (CS_INITIALIZED | CS_ERROR) == 0
  }

  lemma UntouchedInv(w: World, s: State)
    requires Untouched(w, s)
    ensures Inv(w, s, -1) && forall c: nat :: !Entered(s, c)
  {
    hide StartOk, EndOk;
    forall c: nat | c < |s.bits| ensures ClassOk(w, s, c) && !Entered(s, c) {
      NoBits(s.bits[c]);
    }
  }

  /** A class done has everything done that its initialization asks for. */
  lemma DoneClosed(w: World, t: State, c: nat, d: nat)
    requires Inv(w, t, -1) && (forall e :: 0 <= e < |t.flags| ==> !t.flags[e])
    requires c < |w.supers| && d < |w.supers| && Done(t, c) && Uses(w, c, d)
    ensures Done(t, d)
  {
    hide StartOk;
    assert ClassOk(w, t, c) && ClassOk(w, t, d);
    var i :| 0 <= i < |t.log| && t.log[i] == Complete(c);
    assert EndOk(w, t.log, i);
    if Complete(d) !in t.log[..i] {
      var e := if d == w.supers[c] then Enter(c) else Start(c);
      assert Settled(t.log, i, e, d);
    }
  }

  /** Every run of any calls from the start: no call throws, the log keeps the protocol, and at the end
      exactly the classes needed are done: those asked for, their superclasses, and what the
      initializers of those use; each has begun, had its initializer run if any, and is completed. */
  lemma EveryRun(w: World, s: State, calls: seq<nat>)
    requires Untouched(w, s) && forall t :: t in calls ==> t < |s.bits|
    ensures RunAll(w, s, calls).Some?
    ensures var t := RunAll(w, s, calls).value;
            && LogOk(w, t.log)
            && (forall c :: c in calls ==> Done(t, c))
            && forall c: nat :: c < |w.supers| ==>
                 && !t.flags[c] && t.bits[c] & CS_ERROR == 0
                 && (Done(t, c) <==> Needed(w, calls, c))
                 && (Done(t, c) <==> Enter(c) in t.log) && (Done(t, c) <==> Complete(c) in t.log)
                 && (Start(c) in t.log <==> Done(t, c) && w.clinits[c].Some?)
  {
    hide StartOk, EndOk, RunAll, LogOk, Needed;
    UntouchedInv(w, s);
    RunAllOk(w, s, calls);
    var t := RunAll(w, s, calls).value;
    forall c: nat | c < |w.supers|
      ensures !t.flags[c] && t.bits[c] & CS_ERROR == 0 && (Done(t, c) <==> Needed(w, calls, c))
      ensures (Done(t, c) <==> Enter(c) in t.log) && (Done(t, c) <==> Complete(c) in t.log)
      ensures Start(c) in t.log <==> Done(t, c) && w.clinits[c].Some?
    {
      assert ClassOk(w, t, c);
      NeededIff(w, s, calls, t, c);
    }
  }

  lemma NeededIff(w: World, s: State, calls: seq<nat>, t: State, c: nat)
    requires Untouched(w, s) && (forall k :: k in calls ==> k < |s.bits|) && RunAll(w, s, calls) == Some(t)
    requires Inv(w, t, -1) && t.flags == s.flags && (forall k :: k in calls ==> Done(t, k)) && c < |w.supers|
    ensures Done(t, c) <==> Needed(w, calls, c)
  {
    hide RunAll, LogOk, Closed;
    UntouchedInv(w, s);
    if Done(t, c) {
      forall n | Closed(w, n) && (forall k :: k in calls ==> k in n) ensures c in n {
        RunAllWithin(w, s, calls, n);
      }
    } else {
      var n := set d: nat | d < |t.bits| && Done(t, d);
      assert Closed(w, n) by { DoneSetClosed(w, t, n); }
    }
  }

  lemma DoneSetClosed(w: World, t: State, n: set<nat>)
    requires Inv(w, t, -1) && (forall e :: 0 <= e < |t.flags| ==> !t.flags[e])
    requires n == set d: nat | d < |t.bits| && Done(t, d)
    ensures Closed(w, n)
  {
    hide LogOk;
    forall c, d: nat | c in n && c < |w.supers| && d < |w.supers| && Uses(w, c, d) ensures d in n {
      DoneClosed(w, t, c, d);
    }
  }

  lemma NoBits(b: bv8)
    requires b & (CS_INITIALIZED | CS_ERROR) == 0
    ensures b & CS_INITIALIZED == 0 && b & CS_ERROR == 0
  {
  }

  // ----- the procedure -----

  class Initializer {
    const w: World
    var bits: seq<bv8>
    var flags: seq<bool>
    var log: seq<Event>

    constructor (w: World, bits: seq<bv8>)
      requires w.Valid() && |bits| == |w.supers|
      ensures this.w == w && Snapshot() == State(bits, seq(|bits|, _ => false), [])
    {
      this.w := w;
      this.bits := bits;
      flags := seq(|bits|, _ => false);
      log := [];
    }

    function Snapshot(): State
      reads this
    {
      State(bits, flags, log)
    }

    method ClassInitialize(k: nat) returns (ok: bool)
      requires Fits(w, Snapshot()) && k < |bits|
      modifies this
      ensures (if ok then Some(Snapshot()) else None) == Initialize(w, old(Snapshot()), k)
      decreases Fresh(Snapshot()), 0, 0
    {
      hide Fresh, InitializeSuper, RunInitializer;
      if flags[k] || bits[k] & CS_INITIALIZED != 0 {
        return true;
      }
      if bits[k] & CS_ERROR != 0 {
        return false;
      }
      EnterMarks(Snapshot(), k);
      bits := bits[k := bits[k] | CS_INITIALIZING];
      flags := flags[k := true];
      log := log + [Enter(k)];
      assert Snapshot() == EnterState(old(Snapshot()), k);
      ok := InitializeSuperclass(k);
      if ok {
        ok := RunAndComplete(k);
      }
    }

    method RunAndComplete(k: nat) returns (ok: bool)
      requires Fits(w, Snapshot()) && k < |bits| && k !in Fresh(Snapshot())
      modifies this
      ensures (if ok then Some(Snapshot()) else None) == RunInitializer(w, old(Snapshot()), k)
      decreases Fresh(Snapshot()), 3, 0
    {
      hide Fresh, RunAll;
      StartKeeps(Snapshot(), k);
      ok := true;
      if w.clinits[k].Some? {
        log := log + [Start(k)];
        ok := ExecuteClassInitializer(w.clinits[k].value);
      }
      if ok {
        bits := bits[k := bits[k] | CS_INITIALIZED];
        flags := flags[k := false];
        log := log + [Complete(k)];
      }
    }

    method InitializeSuperclass(k: nat) returns (ok: bool)
      requires Fits(w, Snapshot()) && k < |bits|
      modifies this
      ensures (if ok then Some(Snapshot()) else None) == InitializeSuper(w, old(Snapshot()), k)
      decreases Fresh(Snapshot()), 1, 0
    {
      hide Fresh, Initialize;
      var d := w.supers[k];
      ok := true;
      if d >= 0 && bits[d] != CS_INITIALIZED {
        ok := ClassInitialize(d);
        ok := ok && bits[d] & CS_ERROR == 0;
      }
    }

    method ExecuteClassInitializer(calls: seq<nat>) returns (ok: bool)
      requires Fits(w, Snapshot()) && forall t :: t in calls ==> t < |bits|
      modifies this
      ensures (if ok then Some(Snapshot()) else None) == RunAll(w, old(Snapshot()), calls)
      decreases Fresh(Snapshot()), 2, |calls|
    {
      hide Fresh, Initialize;
      if calls == [] {
        return true;
      }
      assert calls[0] in calls && forall t :: t in calls[1..] ==> t in calls;
      ok := ClassInitialize(calls[0]);
      if ok {
        ok := ExecuteClassInitializer(calls[1..]);
      }
    }
  }
}
