/** Lazy compilation: every slot starts with a stub, and a compile overwrites one slot of one class. */
module LazyJit {
  import opened Wrappers
  import opened Hierarchy
  import opened ClassPrepare

  /** A class object with its table packed behind it; `header` is what was written over its first word. */
  datatype Packed = Packed(header: Option<CodeEntry>, vtable: seq<CodeEntry>)

  /** `versions` counts the codes compiled for a method, `protos` are the tables subclasses copy from. */
  datatype State = State(versions: map<Member, nat>, protos: map<Class, seq<CodeEntry>>, packed: map<Class, Packed>)

  /** The steps of class preparation and of `jit_a_method`, which other steps may come between. */
  datatype Event =
    | Prepare(c: Class)   // class_prepare, then the class is packed with a copy of its table
    | Compile(m: Member)  // the method's code is replaced
    | Publish(m: Member)  // the method's current code is written at its offset from its owner

  const Initial := State(map[], map[], map[])

  /** The method's current code: its stub until it is compiled. */
  function CurrentCode(st: State, m: Member): CodeEntry {
    if m in st.versions then Jitted(m, st.versions[m]) else Stub(m)
  }

  predicate Known(m: Member) {
    m.owner.Class? && m.index < |m.owner.methods| && m == MemberOf(m.owner, m.index)
  }

  /** A class is prepared once, after its superclass; methods run only in classes already packed. */
  predicate Enabled(st: State, e: Event) {
    match e
    case Prepare(c) =>
      && c.Class? && WellFormed(c) && OffsetsFit(c) && c !in st.packed
      && (c.superClass.Class? ==> c.superClass in st.packed)
    case Compile(m) => Known(m) && m.owner in st.packed
    case Publish(m) => Known(m) && m.owner in st.packed && m in st.versions
  }

  function ProtoOf(st: State, c: Class): seq<CodeEntry> {
    if c in st.protos then st.protos[c] else []
  }

  /** Each slot copied from the superclass unless a method of the class itself has it. */
  function NewTable(st: State, c: Class): seq<CodeEntry>
    requires c.Class?
  {
    seq(|Vtable(c)|, s requires 0 <= s < |Vtable(c)| =>
      var m := Vtable(c)[s];
      if m.owner != c && s < |ProtoOf(st, c.superClass)| then ProtoOf(st, c.superClass)[s] else CurrentCode(st, m))
  }

  /** A static method never got an offset: it is 0. */
  function OffsetOf(m: Member): nat
    requires Known(m)
  {
    if m.decl.isStatic then 0 else MethodOffset(m.owner, m.index)
  }

  /** `method_update_vtable`: one word, at the method's offset from the class object. */
  function WriteWord(p: Packed, offset: nat, code: CodeEntry): Packed {
    if offset == 0 then p.(header := Some(code))
    else if offset < ByteOffset(0) then p
    else
      var s := (offset - ByteOffset(0)) / 4;
      if s < |p.vtable| then p.(vtable := p.vtable[s := code]) else p
  }

  function Next(st: State, e: Event): State
    requires Enabled(st, e)
  {
    match e
    case Prepare(c) =>
      var t := NewTable(st, c);
      st.(protos := st.protos[c := t], packed := st.packed[c := Packed(None, t)])
    case Compile(m) =>
      st.(versions := st.versions[m := if m in st.versions then st.versions[m] + 1 else 0])
    case Publish(m) =>
      st.(packed := st.packed[m.owner := WriteWord(st.packed[m.owner], OffsetOf(m), CurrentCode(st, m))])
  }

  ghost predicate IsRun(st: State, es: seq<Event>, end: State)
    decreases |es|
  {
    if es == [] then end == st else Enabled(st, es[0]) && IsRun(Next(st, es[0]), es[1..], end)
  }

  /** What calling an entry runs: a stub hands its method to `jit_a_method` and jumps to the result. */
  function Runs(st: State, code: CodeEntry): Member {
    match code
    case Jitted(m, _) => m
    case Stub(m) => CurrentCode(st, m).of
  }

  // ----- the invariant -----

  ghost predicate Coherent(st: State) {
    && st.protos.Keys == st.packed.Keys
    && (forall m :: m in st.versions ==> Known(m) && m.owner in st.packed)
    && forall c :: c in st.packed ==> ClassCoherent(st, c)
  }

  /** The table kept for subclasses holds stubs only. A packed slot holds the stub or a code of its
      method, and a code only if the class declares the method itself. */
  ghost predicate ClassCoherent(st: State, c: Class)
    requires c in st.packed && c in st.protos
  {
    && c.Class? && WellFormed(c) && (c.superClass.Class? ==> c.superClass in st.packed)
    && |st.protos[c]| == |st.packed[c].vtable| == |Vtable(c)|
    && (forall s :: 0 <= s < |Vtable(c)| ==> st.protos[c][s] == Stub(Vtable(c)[s]))
    && (forall s :: 0 <= s < |Vtable(c)| ==> SlotCoherent(st, st.packed[c].vtable[s], Vtable(c)[s], c))
  }

  ghost predicate SlotCoherent(st: State, code: CodeEntry, m: Member, c: Class) {
    code == Stub(m) || (m.owner == c && m in st.versions && exists v :: v <= st.versions[m] && code == Jitted(m, v))
  }

  lemma NewTableStubs(st: State, c: Class)
    requires Coherent(st) && Enabled(st, Prepare(c))
    ensures |NewTable(st, c)| == |Vtable(c)|
    ensures forall s :: 0 <= s < |Vtable(c)| ==> NewTable(st, c)[s] == Stub(Vtable(c)[s])
  {
    hide Vtable, WellFormed;
    forall s: nat | s < |Vtable(c)| ensures NewTable(st, c)[s] == Stub(Vtable(c)[s]) {
      var m := Vtable(c)[s];
      SlotsHold(c, s);
      var k := VtableAt(c, s);
      if m.owner != c {
        NullTable(c.superClass);
        assert st.protos[c.superClass][s] == Stub(m);
      }
    }
  }

  lemma PrepareCoherent(st: State, c: Class)
    requires Coherent(st) && Enabled(st, Prepare(c))
    ensures Coherent(Next(st, Prepare(c)))
  {
    hide Vtable, WellFormed, NewTable;
    var st' := Next(st, Prepare(c));
    NewTableStubs(st, c);
    forall d | d in st'.packed ensures ClassCoherent(st', d) {
      if d != c {
        assert ClassCoherent(st, d);
      }
    }
  }

  lemma CompileCoherent(st: State, m: Member)
    requires Coherent(st) && Enabled(st, Compile(m))
    ensures Coherent(Next(st, Compile(m)))
  {
    hide Vtable, WellFormed;
    var st' := Next(st, Compile(m));
    forall c | c in st'.packed ensures ClassCoherent(st', c) {
      assert ClassCoherent(st, c);
      forall s | 0 <= s < |Vtable(c)| ensures SlotCoherent(st', st'.packed[c].vtable[s], Vtable(c)[s], c) {
        assert SlotCoherent(st, st.packed[c].vtable[s], Vtable(c)[s], c);
      }
    }
  }

  /** The word written is the method's own slot, or for a static method the first word of the class. */
  lemma WriteHits(st: State, m: Member)
    requires Coherent(st) && Enabled(st, Publish(m))
    ensures var p, p' := st.packed[m.owner], WriteWord(st.packed[m.owner], OffsetOf(m), CurrentCode(st, m));
            if m.decl.isStatic then p'.vtable == p.vtable && p'.header == Some(CurrentCode(st, m))
            else && Slot(m.owner, m.index) < |p.vtable| && Vtable(m.owner)[Slot(m.owner, m.index)] == m
                 && p' == p.(vtable := p.vtable[Slot(m.owner, m.index) := CurrentCode(st, m)])
  {
    hide Vtable, Slot;
    assert ClassCoherent(st, m.owner);
    if !m.decl.isStatic {
      OwnSlot(m.owner, m.index);
    }
  }

  lemma PublishCoherent(st: State, m: Member)
    requires Coherent(st) && Enabled(st, Publish(m))
    ensures Coherent(Next(st, Publish(m)))
  {
    hide Vtable, WellFormed, WriteWord, Slot;
    var st' := Next(st, Publish(m));
    WriteHits(st, m);
    forall c | c in st'.packed ensures ClassCoherent(st', c) {
      assert ClassCoherent(st, c);
      forall s | 0 <= s < |Vtable(c)| ensures SlotCoherent(st', st'.packed[c].vtable[s], Vtable(c)[s], c) {
        assert SlotCoherent(st, st.packed[c].vtable[s], Vtable(c)[s], c);
      }
    }
  }

  lemma StepCoherent(st: State, e: Event)
    requires Coherent(st) && Enabled(st, e)
    ensures Coherent(Next(st, e))
  {
    hide Coherent, Next, Enabled;
    match e
    case Prepare(c) => PrepareCoherent(st, c);
    case Compile(m) => CompileCoherent(st, m);
    case Publish(m) => PublishCoherent(st, m);
  }

  lemma {:induction false} RunCoherent(st: State, es: seq<Event>, end: State)
    requires Coherent(st) && IsRun(st, es, end)
    ensures Coherent(end)
    decreases |es|
  {
    hide Coherent, Next, Enabled;
    if es != [] {
      StepCoherent(st, es[0]);
      RunCoherent(Next(st, es[0]), es[1..], end);
    }
  }

  /** After any interleaving of preparations and compilations, a call through slot `s` of a class runs
      the method its table names, and an inherited method is still called through its stub. */
  lemma SlotRunsItsMethod(es: seq<Event>, st: State, c: Class, s: nat)
    requires IsRun(Initial, es, st) && c in st.packed && s < |Vtable(c)|
    ensures s < |st.packed[c].vtable| && Runs(st, st.packed[c].vtable[s]) == Vtable(c)[s]
    ensures Vtable(c)[s].owner != c ==> st.packed[c].vtable[s] == Stub(Vtable(c)[s])
  {
    hide Vtable, IsRun;
    RunCoherent(Initial, es, st);
    assert ClassCoherent(st, c);
    assert SlotCoherent(st, st.packed[c].vtable[s], Vtable(c)[s], c);
  }

  /** A virtual call of an ancestor's method, after any run, runs what the lookup finds, exactly when no
      class below that ancestor clashes on the signature. */
  lemma VirtualCallRunsLookup(es: seq<Event>, st: State, a: Class, k: nat, c: Class)
    requires IsRun(Initial, es, st) && c in st.packed && IsAncestor(a, c) && Declares(a, k)
    ensures Slot(a, k) < |st.packed[c].vtable|
    ensures Lookup(c, a.methods[k].sig) == Some(Runs(st, st.packed[c].vtable[Slot(a, k)])) <==>
            !ClashBelow(a, c, a.methods[k].sig)
  {
    hide Vtable, IsRun, WellFormed, Slot, Lookup, ClashBelow, Runs;
    RunCoherent(Initial, es, st);
    assert ClassCoherent(st, c);
    CallIff(a, k, c);
    SlotKeepsSignature(a, k, c);
    SlotRunsItsMethod(es, st, c, Slot(a, k));
  }

  // ----- what a compile changes -----

  /** How often the method was compiled. */
  function Compiled(st: State, m: Member): nat {
    if m in st.versions then st.versions[m] + 1 else 0
  }

  function Compiles(es: seq<Event>, m: Member): nat {
    if es == [] then 0 else (if es[0] == Compile(m) then 1 else 0) + Compiles(es[1..], m)
  }

  /** The slot of an instance method in its own class holds the code of its latest compile. */
  ghost predicate UpToDate(st: State, m: Member) {
    && Known(m) && !m.decl.isStatic && m.owner in st.packed && m in st.versions
    && Slot(m.owner, m.index) < |st.packed[m.owner].vtable|
    && st.packed[m.owner].vtable[Slot(m.owner, m.index)] == Jitted(m, st.versions[m])
  }

  lemma PublishUpdates(st: State, m: Member)
    requires Coherent(st) && Enabled(st, Publish(m)) && !m.decl.isStatic
    ensures UpToDate(Next(st, Publish(m)), m)
  {
    hide Vtable, WellFormed, WriteWord, Slot;
    WriteHits(st, m);
  }

  /** Publishing another method of the class writes another slot. */
  lemma OtherSlot(st: State, m: Member, other: Member)
    requires Coherent(st) && Enabled(st, Publish(other)) && UpToDate(st, m)
    ensures UpToDate(Next(st, Publish(other)), m)
  {
    hide Vtable, WellFormed, WriteWord, Slot;
    WriteHits(st, other);
    if m.owner == other.owner && m != other && !other.decl.isStatic {
      assert ClassCoherent(st, m.owner);
      SlotInjective(m.owner, if m.index < other.index then m.index else other.index,
                    if m.index < other.index then other.index else m.index);
    }
  }

  lemma StepUpToDate(st: State, e: Event, m: Member)
    requires Coherent(st) && Enabled(st, e) && UpToDate(st, m) && e != Compile(m)
    ensures UpToDate(Next(st, e), m)
  {
    hide Vtable, WellFormed, Coherent, NewTable, WriteWord, Slot;
    match e
    case Publish(other) => OtherSlot(st, m, other);
    case _ =>
  }

  lemma StepCompiled(st: State, e: Event, m: Member)
    requires Enabled(st, e)
    ensures Compiled(Next(st, e), m) == Compiled(st, m) + if e == Compile(m) then 1 else 0
  {
    hide NewTable, WriteWord;
  }

  lemma {:induction false} RunCompiled(st: State, es: seq<Event>, end: State, m: Member)
    requires IsRun(st, es, end)
    ensures Compiled(end, m) == Compiled(st, m) + Compiles(es, m)
    decreases |es|
  {
    hide Next, Enabled, Compiled;
    if es != [] {
      StepCompiled(st, es[0], m);
      RunCompiled(Next(st, es[0]), es[1..], end, m);
    }
  }

  lemma {:induction false} RunUpToDate(st: State, es: seq<Event>, end: State, m: Member)
    requires Coherent(st) && IsRun(st, es, end) && UpToDate(st, m) && Compile(m) !in es
    ensures UpToDate(end, m)
    decreases |es|
  {
    hide Coherent, Next, Enabled, UpToDate;
    if es != [] {
      StepCoherent(st, es[0]);
      StepUpToDate(st, es[0], m);
      RunUpToDate(Next(st, es[0]), es[1..], end, m);
    }
  }

  lemma {:induction false} RunPublishes(st: State, es: seq<Event>, end: State, m: Member, i: nat)
    requires Coherent(st) && IsRun(st, es, end) && i < |es| && es[i] == Publish(m) && Compile(m) !in es[i..]
    requires !m.decl.isStatic
    ensures UpToDate(end, m)
    decreases |es|
  {
    hide Coherent, Next, Enabled, UpToDate;
    StepCoherent(st, es[0]);
    if i == 0 {
      PublishUpdates(st, m);
      RunUpToDate(Next(st, es[0]), es[1..], end, m);
    } else {
      assert es[1..][i - 1..] == es[i..];
      RunPublishes(Next(st, es[0]), es[1..], end, m, i - 1);
    }
  }

  lemma NothingCoherent()
    ensures Coherent(Initial)
  {
  }

  /** Once an instance method's code has been published, and until it is compiled again, the slot of its
      class holds the code of its last compile in the whole run, whatever else is prepared, compiled and
      published meanwhile. */
  lemma PublishedCodeStays(es: seq<Event>, st: State, m: Member, i: nat)
    requires IsRun(Initial, es, st) && i < |es| && es[i] == Publish(m) && Compile(m) !in es[i..] && !m.decl.isStatic
    ensures Known(m) && m.owner in st.packed && Compiles(es, m) > 0
    ensures var table, s := st.packed[m.owner].vtable, Slot(m.owner, m.index);
            s < |table| && table[s] == Jitted(m, Compiles(es, m) - 1)
  {
    hide Coherent, Next, Enabled, Slot, IsRun;
    NothingCoherent();
    RunPublishes(Initial, es, st, m, i);
    RunCompiled(Initial, es, st, m);
  }
}
