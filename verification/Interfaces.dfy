/** Which interfaces the table of a class holds, calls through it, and the type test. */
module Interfaces {
  import opened Wrappers
  import opened Hierarchy
  import opened ClassPrepare
  import opened InterfaceTable

  // ----- the simple form -----

  /** `t` is `c`, or reachable from it through superclasses and superinterfaces. */
  predicate Reaches(c: Class, t: Class) {
    && c.Class?
    && (c == t || Reaches(c.superClass, t) || exists n :: 0 <= n < |c.interfaces| && Reaches(c.interfaces[n], t))
  }

  predicate IsInterface(c: Class) {
    c.Class? && c.isInterface
  }

  // ----- the table -----

  /** The entries of the superclass and of the first `n` interfaces; None if one of those has no table. */
  function Collected(c: Class, n: nat): Option<seq<Class>>
    requires c.Class? && n <= |c.interfaces|
    decreases c, 0, n
  {
    if n == 0 then Table(c.superClass)
    else if Collected(c, n - 1).None? || Table(c.interfaces[n - 1]).None? then None
    else Some(Collected(c, n - 1).value + Table(c.interfaces[n - 1]).value)
  }

  /** The entries before duplicates are eliminated: an interface includes itself. */
  function Entries(c: Class): Option<seq<Class>>
    requires c.Class?
    decreases c, 1
  {
    var e := Collected(c, |c.interfaces|);
    if e.Some? && c.isInterface then Some(e.value + [c]) else e
  }

  /** `prepare_interfaces`; None when the duplicate elimination of a part reads before its table. */
  function Table(c: Class): Option<seq<Class>>
    decreases c, 2
  {
    if c.Null? then Some([])
    else if Entries(c).None? then None
    else Dedup(Entries(c).value, 0, 1)
  }

  /** The table has no duplicates and holds exactly the interfaces reached. */
  ghost predicate TableExact(c: Class) {
    && Table(c).Some? && NoDuplicates(Table(c).value)
    && forall t: Class :: t in Table(c).value <==> IsInterface(t) && Reaches(c, t)
  }

  /** The same of everything reached from `c`, and that no elimination on the way goes wrong. */
  ghost predicate AllExact(c: Class) {
    TableExact(c) &&
    (c.Class? ==> AllExact(c.superClass) && forall n :: 0 <= n < |c.interfaces| ==> AllExact(c.interfaces[n]))
  }

  ghost predicate AllKeep(c: Class) {
    c.Class? ==>
      && Entries(c).Some? && Keeps(Entries(c).value, 0, 1)
      && AllKeep(c.superClass) && forall n :: 0 <= n < |c.interfaces| ==> AllKeep(c.interfaces[n])
  }

  /** Reached as an interface through the superclass or one of the first `n` interfaces. */
  ghost predicate ReachedBy(c: Class, n: nat, t: Class)
    requires c.Class? && n <= |c.interfaces|
  {
    IsInterface(t) && (Reaches(c.superClass, t) || exists k :: 0 <= k < n && Reaches(c.interfaces[k], t))
  }

  lemma {:induction false} CollectedHolds(c: Class, n: nat)
    requires c.Class? && n <= |c.interfaces| && TableExact(c.superClass)
    requires forall k :: 0 <= k < |c.interfaces| ==> TableExact(c.interfaces[k])
    ensures Collected(c, n).Some?
    ensures forall t: Class :: t in Collected(c, n).value <==> ReachedBy(c, n, t)
  {
    hide Table;
    if n > 0 {
      CollectedHolds(c, n - 1);
      assert TableExact(c.interfaces[n - 1]);
      forall t: Class
        ensures ReachedBy(c, n, t) <==> ReachedBy(c, n - 1, t) || (IsInterface(t) && Reaches(c.interfaces[n - 1], t))
      {
      }
    }
  }

  lemma EntriesHold(c: Class)
    requires c.Class? && TableExact(c.superClass)
    requires forall k :: 0 <= k < |c.interfaces| ==> TableExact(c.interfaces[k])
    ensures Entries(c).Some?
    ensures forall t: Class :: t in Entries(c).value <==> IsInterface(t) && Reaches(c, t)
  {
    hide Table;
    CollectedHolds(c, |c.interfaces|);
    forall t: Class
      ensures (IsInterface(t) && Reaches(c, t)) <==> ReachedBy(c, |c.interfaces|, t) || (t == c && c.isInterface)
    {
    }
  }

  lemma TableExactIff(c: Class)
    requires c.Class? && TableExact(c.superClass)
    requires forall k :: 0 <= k < |c.interfaces| ==> TableExact(c.interfaces[k])
    ensures Entries(c).Some? && (TableExact(c) <==> Keeps(Entries(c).value, 0, 1))
  {
    hide Reaches, Keeps, NoDuplicates;
    EntriesHold(c);
    var e := Entries(c).value;
    DedupExactIff(e);
    assert Table(c) == Dedup(e, 0, 1);
    if Table(c).Some? {
      var r := Table(c).value;
      assert Elems(r) == Elems(e) <==> forall t: Class :: t in r <==> t in e by {
        if forall t: Class :: t in r <==> t in e {
          assert Elems(r) == Elems(e);
        } else {
          var t: Class :| !(t in r <==> t in e);
          assert t in Elems(r) <==> t in r;
          assert t in Elems(e) <==> t in e;
        }
      }
    }
  }

  /** The interface tables of a class and of everything it reaches are exact exactly when no duplicate
      elimination among them loses an entry. */
  lemma {:induction false} AllExactIff(c: Class)
    ensures AllExact(c) <==> AllKeep(c)
  {
    hide Keeps, TableExact, Entries;
    if c.Null? {
      assert TableExact(c) by { NullExact(c); }
      return;
    }
    AllExactIff(c.superClass);
    forall n | 0 <= n < |c.interfaces| ensures AllExact(c.interfaces[n]) <==> AllKeep(c.interfaces[n]) {
      AllExactIff(c.interfaces[n]);
    }
    if AllExact(c.superClass) && forall n :: 0 <= n < |c.interfaces| ==> AllExact(c.interfaces[n]) {
      forall n | 0 <= n < |c.interfaces| ensures TableExact(c.interfaces[n]) {
        assert AllExact(c.interfaces[n]);
      }
      EntriesHold(c);
      TableExactIff(c);
    }
  }

  lemma NullExact(c: Class)
    requires c.Null?
    ensures TableExact(c)
  {
  }

  /** `prepare_interfaces` on the finished tables of the parts: count, copy, eliminate. */
  method PrepareInterfaces(c: Class, superTable: seq<Class>, parts: seq<seq<Class>>)
    returns (ok: bool, table: seq<Class>)
    requires c.Class? && Table(c.superClass) == Some(superTable) && |parts| == |c.interfaces|
    requires forall n :: 0 <= n < |parts| ==> Table(c.interfaces[n]) == Some(parts[n])
    ensures (if ok then Some(table) else None) == Table(c)
  {
    hide Table, Dedup;
    var slots := |superTable|;
    for n := 0 to |parts|
      invariant Collected(c, n).Some? && slots == |Collected(c, n).value|
    {
      slots := slots + |parts[n]|;
    }
    if c.isInterface {
      slots := slots + 1;
    }
    TableOf(c);
    if slots == 0 {
      return true, [];
    }
    var temp := new Class[slots];
    CopyParts(c, superTable, parts, temp);
    if c.isInterface {
      temp[slots - 1] := c;
    }
    assert temp[..] == Entries(c).value;
    var last;
    ok, last := EliminateDuplicates(temp);
    table := if ok then temp[..last] else [];
  }

  lemma TableOf(c: Class)
    requires c.Class? && Entries(c).Some?
    ensures Table(c) == Dedup(Entries(c).value, 0, 1)
    ensures Entries(c).value == [] ==> Table(c) == Some([])
  {
  }

  method CopyParts(c: Class, superTable: seq<Class>, parts: seq<seq<Class>>, temp: array<Class>)
    requires c.Class? && Table(c.superClass) == Some(superTable) && |parts| == |c.interfaces|
    requires forall n :: 0 <= n < |parts| ==> Table(c.interfaces[n]) == Some(parts[n])
    requires Collected(c, |parts|).Some? && |Collected(c, |parts|).value| <= temp.Length
    modifies temp
    ensures temp[..|Collected(c, |parts|).value|] == Collected(c, |parts|).value
  {
    hide Table;
    CollectedMono(c, 0);
    var index := 0;
    while index < |superTable|
      invariant index <= |superTable| <= temp.Length && temp[..index] == superTable[..index]
    {
      temp[index] := superTable[index];
      index := index + 1;
    }
    for n := 0 to |parts|
      invariant Collected(c, n).Some? && index == |Collected(c, n).value| <= temp.Length
      invariant temp[..index] == Collected(c, n).value
    {
      CollectedMono(c, n + 1);
      ghost var before := Collected(c, n).value;
      for j := 0 to |parts[n]|
        invariant index == |before| + j && index <= temp.Length
        invariant temp[..index] == before + parts[n][..j]
      {
        temp[index] := parts[n][j];
        index := index + 1;
      }
      assert Collected(c, n + 1).value == before + parts[n][..|parts[n]|];
    }
  }

  lemma {:induction false} CollectedMono(c: Class, n: nat)
    requires c.Class? && n <= |c.interfaces| && Collected(c, |c.interfaces|).Some?
    ensures Collected(c, n).Some? && |Collected(c, n).value| <= |Collected(c, |c.interfaces|).value|
    decreases |c.interfaces| - n
  {
    if n < |c.interfaces| {
      CollectedMono(c, n + 1);
    }
  }

  // ----- calls through the table -----

  /** Interfaces declare no static method but their class initializer. */
  predicate OnlyClinitStatic(f: Class) {
    f.Class? && f.isInterface && forall j :: 0 <= j < |f.methods| ==> (f.methods[j].isStatic <==> f.methods[j].isClinit)
  }

  /** The class initializer, if there is one, is declared last. */
  predicate ClinitLast(f: Class) {
    f.Class? && forall i, j :: 0 <= i < j < |f.methods| && f.methods[i].isClinit ==> f.methods[j].isClinit
  }

  predicate Implemented(c: Class, f: Class) {
    f.Class? && forall j :: 0 <= j < |f.methods| && !f.methods[j].isClinit ==> Lookup(c, f.methods[j].sig).Some?
  }

  /** What the assertions of `prepare_interface_table` demand of method `j` of an interface: some slot
      has its signature unless the class is abstract, and its offset is that of position `j`. */
  ghost predicate EntryOk(v: seq<Member>, f: Class, j: nat, isAbstract: bool)
    requires f.Class? && j < |f.methods|
  {
    f.methods[j].isClinit ||
    ((FirstMatch(v, f.methods[j].sig) < |v| || isAbstract) && j == NewSlots([], f.methods, j))
  }

  ghost predicate AllOk(v: seq<Member>, f: Class, isAbstract: bool) {
    f.Class? && forall j :: 0 <= j < |f.methods| ==> EntryOk(v, f, j, isAbstract)
  }

  ghost predicate NoClinitBefore(f: Class, n: nat)
    requires f.Class? && n <= |f.methods|
  {
    forall i :: 0 <= i < n ==> !f.methods[i].isClinit
  }

  lemma {:induction false} PositionAt(f: Class, n: nat)
    requires OnlyClinitStatic(f) && n <= |f.methods|
    ensures NewSlots([], f.methods, n) == n <==> NoClinitBefore(f, n)
  {
    if n > 0 {
      PositionAt(f, n - 1);
    }
  }

  /** Every method's offset is that of its position exactly when a class initializer is declared last. */
  lemma PositionsIff(f: Class)
    requires OnlyClinitStatic(f)
    ensures (forall j :: 0 <= j < |f.methods| && !f.methods[j].isClinit ==> NewSlots([], f.methods, j) == j) <==>
            ClinitLast(f)
  {
    hide NewSlots;
    forall j | 0 <= j < |f.methods| ensures NewSlots([], f.methods, j) == j <==> NoClinitBefore(f, j) {
      PositionAt(f, j);
    }
  }

  /** The assertions hold for an interface of a concrete class exactly when its class initializer comes
      last and the lookup finds a method for each of its methods. */
  lemma AllOkIff(c: Class, f: Class)
    requires WellFormed(c) && OnlyClinitStatic(f)
    ensures AllOk(Vtable(c), f, false) <==> ClinitLast(f) && Implemented(c, f)
  {
    hide WellFormed, Vtable, Lookup, FirstMatch, NewSlots, ClinitLast;
    PositionsIff(f);
    forall j | 0 <= j < |f.methods|
      ensures FirstMatch(Vtable(c), f.methods[j].sig) < |Vtable(c)| <==> Lookup(c, f.methods[j].sig).Some?
    {
      ImplementedIff(c, f.methods[j].sig);
    }
    if AllOk(Vtable(c), f, false) {
      forall j | 0 <= j < |f.methods| && !f.methods[j].isClinit
        ensures NewSlots([], f.methods, j) == j && Lookup(c, f.methods[j].sig).Some?
      {
        assert EntryOk(Vtable(c), f, j, false);
      }
    }
  }

  /** The entry of method `j`: the object in the first slot with its signature. */
  ghost predicate EntryHolds(info: seq<KMethod?>, v: seq<Member>, f: Class, j: nat, entry: KMethod?)
    requires f.Class? && j < |f.methods|
  {
    var k := FirstMatch(v, f.methods[j].sig);
    !f.methods[j].isClinit && k < |v| ==> k < |info| && entry == info[k]
  }

  ghost predicate TableHolds(info: seq<KMethod?>, v: seq<Member>, f: Class, table: seq<KMethod?>) {
    f.Class? && |table| == |f.methods| && forall j :: 0 <= j < |f.methods| ==> EntryHolds(info, v, f, j, table[j])
  }

  /** The innermost loop: the first slot with the signature. */
  method FindSlot(kc: KClass, sig: Sig) returns (k: nat)
    requires kc.Prepared()
    ensures k == FirstMatch(Vtable(kc.decl), sig)
  {
    hide Vtable;
    k := 0;
    while k < |kc.vtableInfo|
      invariant k <= |kc.vtableInfo|
      invariant FirstMatch(Vtable(kc.decl), sig) == FirstMatch(Vtable(kc.decl), sig, k)
    {
      assert SlotReady(kc.vtableInfo[k], Vtable(kc.decl)[k], k);
      if kc.vtableInfo[k].decl.sig == sig {
        return;
      }
      k := k + 1;
    }
  }

  /** An interface whose methods have their offsets. */
  ghost predicate InterfaceReady(kf: KClass)
    reads kf.methodInfo
  {
    kf.Described() && OnlyClinitStatic(kf.decl) && OffsetsSet(kf, |kf.methodInfo|)
  }

  /** The method table of one interface; `ok` is false where the source stops at an assertion. A class
      initializer's entry stays empty, and an abstract class keeps the last slot looked at. */
  method InterfaceMethodTable(kc: KClass, kf: KClass) returns (ok: bool, table: seq<KMethod?>)
    requires kc.Prepared() && InterfaceReady(kf)
    ensures ok <==> AllOk(Vtable(kc.decl), kf.decl, kc.isAbstract)
    ensures ok ==> TableHolds(kc.vtableInfo, Vtable(kc.decl), kf.decl, table)
  {
    hide FirstMatch, NewSlots, Vtable;
    ghost var v, f := Vtable(kc.decl), kf.decl;
    table := [];
    for j := 0 to |kf.methodInfo|
      invariant |table| == j
      invariant forall n :: 0 <= n < j ==>
                  EntryOk(v, f, n, kc.isAbstract) && EntryHolds(kc.vtableInfo, v, f, n, table[n])
    {
      var m := kf.methodInfo[j];
      if m.decl.isClinit {
        table := table + [null];
      } else {
        var k := FindSlot(kc, m.decl.sig);
        var n := |kc.vtableInfo|;
        assert Declares(f, j) && m.offset == MethodOffset(f, j);
        if (k == n && !kc.isAbstract) || (m.offset - ARRAY_OVERHEAD) / 4 != j {
          assert !EntryOk(v, f, j, kc.isAbstract);
          return false, [];
        }
        table := table + [if k < n then kc.vtableInfo[k] else if n > 0 then kc.vtableInfo[n - 1] else null];
      }
    }
    ok := true;
  }

  ghost predicate TablesHold(kc: KClass)
    reads kc
  {
    && |kc.interfaceTable| == |kc.interfaceTableInfo|
    && forall i :: 0 <= i < |kc.interfaceTable| ==>
         TableHolds(kc.vtableInfo, Vtable(kc.decl), kc.interfaceTableInfo[i].decl, kc.interfaceTable[i])
  }

  /** The tables of a concrete class are built, and the table of interfaces holds what is reached. */
  ghost predicate Callable(kc: KClass)
    reads kc, kc.vtableInfo
  {
    && kc.Prepared() && WellFormed(kc.decl) && kc.decl.Class? && !kc.isAbstract
    && TableExact(kc.decl) && InfoHolds(kc)
    && (forall f :: f in kc.interfaceTableInfo ==> AllOk(Vtable(kc.decl), f.decl, false))
    && TablesHold(kc)
  }

  /** One class object for each interface of the table. */
  ghost predicate InfoHolds(kc: KClass)
    reads kc`interfaceTableInfo
  {
    && Table(kc.decl).Some? && |kc.interfaceTableInfo| == |Table(kc.decl).value|
    && forall i :: 0 <= i < |kc.interfaceTableInfo| ==> kc.interfaceTableInfo[i].decl == Table(kc.decl).value[i]
  }

  /** The tables of all interfaces of a class are built exactly when the assertions hold for each; in a
      concrete class, when each has its class initializer last and all its methods implemented. */
  method PrepareInterfaceTable(kc: KClass) returns (ok: bool)
    requires kc.Described() && kc.Prepared() && WellFormed(kc.decl)
    requires forall i :: 0 <= i < |kc.interfaceTableInfo| ==> InterfaceReady(kc.interfaceTableInfo[i])
    modifies kc`interfaceTable
    ensures ok <==> forall i :: 0 <= i < |kc.interfaceTableInfo| ==>
                      AllOk(Vtable(kc.decl), kc.interfaceTableInfo[i].decl, kc.isAbstract)
    ensures !kc.isAbstract ==>
              (ok <==> forall i :: 0 <= i < |kc.interfaceTableInfo| ==>
                         && ClinitLast(kc.interfaceTableInfo[i].decl)
                         && Implemented(kc.decl, kc.interfaceTableInfo[i].decl))
    ensures ok && !kc.isAbstract && TableExact(kc.decl) && InfoHolds(kc) ==> Callable(kc)
    ensures kc.Prepared() && if ok then TablesHold(kc) else kc.interfaceTable == old(kc.interfaceTable)
  {
    hide Vtable, FirstMatch, NewSlots, WellFormed, AllOk, TableHolds, Implemented, ClinitLast;
    var tables := [];
    forall i | 0 <= i < |kc.interfaceTableInfo| && !kc.isAbstract
      ensures AllOk(Vtable(kc.decl), kc.interfaceTableInfo[i].decl, kc.isAbstract) <==>
              ClinitLast(kc.interfaceTableInfo[i].decl) && Implemented(kc.decl, kc.interfaceTableInfo[i].decl)
    {
      assert InterfaceReady(kc.interfaceTableInfo[i]);
      AllOkIff(kc.decl, kc.interfaceTableInfo[i].decl);
    }
    for i := 0 to |kc.interfaceTableInfo|
      invariant |tables| == i && kc.interfaceTable == old(kc.interfaceTable)
      invariant forall n :: 0 <= n < i ==>
                  && AllOk(Vtable(kc.decl), kc.interfaceTableInfo[n].decl, kc.isAbstract)
                  && TableHolds(kc.vtableInfo, Vtable(kc.decl), kc.interfaceTableInfo[n].decl, tables[n])
    {
      var one;
      ok, one := InterfaceMethodTable(kc, kc.interfaceTableInfo[i]);
      if !ok {
        return;
      }
      tables := tables + [one];
    }
    kc.interfaceTable := tables;
    ok := true;
  }

  /** A method an interface call can name. */
  ghost predicate InterfaceMethod(m: KMethod)
    reads m, if m.owner == null then [] else m.owner.methodInfo
  {
    m.owner != null && InterfaceReady(m.owner) && m in m.owner.methodInfo && !m.decl.isStatic
  }

  /** `class_get_interface_method_offset`: position of the interface, then the entry at the method's
      offset, then that method's offset, which is the one of the first slot with the signature. */
  method GetInterfaceMethodOffset(kc: KClass, m: KMethod) returns (offset: nat)
    requires Callable(kc) && InterfaceMethod(m) && m.owner in kc.interfaceTableInfo
    ensures var s := FirstMatch(Vtable(kc.decl), m.decl.sig); s < |Vtable(kc.decl)| && offset == ByteOffset(s)
  {
    hide Vtable, FirstMatch, NewSlots, WellFormed, TableExact, InfoHolds;
    var i := 0;
    while kc.interfaceTableInfo[i] != m.owner
      invariant 0 <= i < |kc.interfaceTableInfo| && m.owner in kc.interfaceTableInfo[i..]
      decreases |kc.interfaceTableInfo| - i
    {
      i := i + 1;
    }
    ghost var f := m.owner.decl;
    ghost var j :| 0 <= j < |m.owner.methodInfo| && m.owner.methodInfo[j] == m;
    assert Declares(f, j) && EntryOk(Vtable(kc.decl), f, j, false) && m.offset == MethodOffset(f, j);
    assert EntryHolds(kc.vtableInfo, Vtable(kc.decl), f, j, kc.interfaceTable[i][j]);
    offset := kc.interfaceTable[i][(m.offset - ARRAY_OVERHEAD) / 4].offset;
  }

  /** The code an interface call ends in, through the offset and the receiver's table: the code of the
      method the lookup finds, exactly when no class of the chain clashes on the signature. */
  method InvokeInterface(kc: KClass, m: KMethod) returns (code: CodeEntry)
    requires Callable(kc) && InterfaceMethod(m) && Reaches(kc.decl, m.owner.decl)
    requires forall f :: f in kc.interfaceTableInfo && f.decl == m.owner.decl ==> f == m.owner
    ensures Lookup(kc.decl, m.decl.sig).Some?
    ensures Lookup(kc.decl, m.decl.sig) == Some(code.of) <==> !ClashesOn(kc.decl, m.decl.sig)
  {
    hide Vtable, FirstMatch, WellFormed, Reaches, Lookup, ClashesOn;
    InfoReached(kc, m.owner);
    var offset := GetInterfaceMethodOffset(kc, m);
    ImplementedIff(kc.decl, m.decl.sig);
    FirstMatchIff(kc.decl, m.decl.sig);
    code := kc.vtable[(offset - ByteOffset(0)) / 4];
  }

  lemma InfoReached(kc: KClass, kf: KClass)
    requires TableExact(kc.decl) && InfoHolds(kc) && IsInterface(kf.decl) && Reaches(kc.decl, kf.decl)
    requires forall f :: f in kc.interfaceTableInfo && f.decl == kf.decl ==> f == kf
    ensures kf in kc.interfaceTableInfo
  {
    hide Reaches, NoDuplicates;
    var n :| 0 <= n < |Table(kc.decl).value| && Table(kc.decl).value[n] == kf.decl;
    assert kc.interfaceTableInfo[n] == kf;
  }

  /** Interface calls on a concrete class with an exact table, every interface in it with its class
      initializer last and all its methods implemented: all tables are built, and the entry at a
      method's offset names a method whose own offset leads to what the lookup finds, exactly when no
      class of the chain clashes on the signature. */
  lemma InterfaceCallRunsLookup(c: Class, f: Class, j: nat)
    requires WellFormed(c) && c.Class? && TableExact(c) && Reaches(c, f) && Declares(f, j) && IsInterface(f)
    requires forall t :: t in Table(c).value ==> OnlyClinitStatic(t) && ClinitLast(t) && Implemented(c, t)
    ensures forall t :: t in Table(c).value ==> AllOk(Vtable(c), t, false)
    ensures f in Table(c).value && (MethodOffset(f, j) - ARRAY_OVERHEAD) / 4 == j
    ensures var s := FirstMatch(Vtable(c), f.methods[j].sig);
            && s < |Vtable(c)|
            && var m := Vtable(c)[s];
               && Declares(m.owner, m.index) && MethodOffset(m.owner, m.index) == ByteOffset(s)
               && (Lookup(c, f.methods[j].sig) == Some(m) <==> !ClashesOn(c, f.methods[j].sig))
  {
    hide WellFormed, Vtable, Slot, Lookup, FirstMatch, NewSlots, ClashesOn, Reaches, NoDuplicates, ClinitLast,
         Implemented, Table;
    forall t | t in Table(c).value ensures AllOk(Vtable(c), t, false) {
      AllOkIff(c, t);
    }
    assert EntryOk(Vtable(c), f, j, false);
    ImplementedIff(c, f.methods[j].sig);
    FirstMatchIff(c, f.methods[j].sig);
    OwnerIsClass(c, FirstMatch(Vtable(c), f.methods[j].sig));
  }

  lemma OwnerIsClass(c: Class, s: nat)
    requires WellFormed(c) && s < |Vtable(c)|
    ensures var m := Vtable(c)[s]; Declares(m.owner, m.index) && MethodOffset(m.owner, m.index) == ByteOffset(s)
  {
    hide Vtable, Slot;
    SlotsHold(c, s);
  }

  /** A package-private method of the superclass with the signature of a public one that implements an
      interface: the interface call runs the superclass's. */
  lemma InterfaceCallRunsOld(sig: Sig)
    ensures var i := Class(1, true, true, [MethodDecl(sig, Public, false, false)], Null, []);
            var a := Class(2, false, false, [MethodDecl(sig, PackagePrivate, false, false)], Null, []);
            var b := Class(3, false, false, [MethodDecl(sig, Public, false, false)], a, [i]);
            && WellFormed(b) && Table(b) == Some([i]) && AllOk(Vtable(b), i, false)
            && Vtable(b) == [MemberOf(a, 0), MemberOf(b, 0)] && FirstMatch(Vtable(b), sig) == 0
            && Lookup(b, sig) == Some(MemberOf(b, 0)) && ClashesOn(b, sig)
  {
    var i := Class(1, true, true, [MethodDecl(sig, Public, false, false)], Null, []);
    var a := Class(2, false, false, [MethodDecl(sig, PackagePrivate, false, false)], Null, []);
    var b := Class(3, false, false, [MethodDecl(sig, Public, false, false)], a, [i]);
    hide Table;
    assert WellFormed(a) && WellFormed(b);
    TwoSlots(a, b);
    assert Clash(b, 0);
    assert NewSlots([], i.methods, 0) == 0;
    OneInterface(a, b, i);
  }

  lemma OneInterface(a: Class, b: Class, i: Class)
    requires a.Class? && b.Class? && i.Class? && a.superClass.Null? && i.superClass.Null? && b.superClass == a
    requires a.interfaces == [] && i.interfaces == [] && b.interfaces == [i]
    requires !a.isInterface && !b.isInterface && i.isInterface
    ensures Table(b) == Some([i])
  {
    hide Table, Entries;
    RootInterface(i);
    NoInterfaces(a);
    OneMore(b, i, []);
    assert [] + [i] == [i];
    DedupIdentity([i], 0, 1);
  }

  lemma NoInterfaces(a: Class)
    requires a.Class? && !a.isInterface && a.superClass.Null? && a.interfaces == []
    ensures Table(a) == Some([])
  {
    assert Collected(a, 0) == Some([]);
    DedupIdentity<Class>([], 0, 1);
  }

  lemma TwoSlots(a: Class, b: Class)
    requires a.Class? && b.Class? && a.superClass.Null? && b.superClass == a && |a.methods| == |b.methods| == 1
    requires !a.methods[0].isStatic && !b.methods[0].isStatic && a.methods[0].sig == b.methods[0].sig
    requires a.methods[0].access.PackagePrivate?
    ensures Vtable(a) == [MemberOf(a, 0)] && Vtable(b) == [MemberOf(a, 0), MemberOf(b, 0)]
  {
    assert Fill([], a, 0) == [] && Vtable(a) == Fill([], a, 1) == [MemberOf(a, 0)];
    assert Vtable(b) == Fill(Vtable(a), b, 1) == [MemberOf(a, 0), MemberOf(b, 0)];
  }

  /** A class that names an interface its superclass implements already: the elimination reads before the
      table. */
  lemma InterfaceNamedAgain()
    ensures var i := Class(1, true, true, [], Null, []);
            var a := Class(2, false, false, [], Null, [i]);
            var b := Class(3, false, false, [], a, [i]);
            && Shaped(b) && Entries(b) == Some([i, i]) && Table(b) == None && Reaches(b, i)
  {
    var i := Class(1, true, true, [], Null, []);
    var a := Class(2, false, false, [], Null, [i]);
    var b := Class(3, false, false, [], a, [i]);
    hide Table, Entries, Dedup, Reaches;
    NamedAgain(a, b, i);
  }

  lemma ShapedOf(c: Class)
    requires c.Class? && (c.superClass.Null? || (Shaped(c.superClass) && !IsInterface(c.superClass)))
    requires forall n :: 0 <= n < |c.interfaces| ==> IsInterface(c.interfaces[n]) && Shaped(c.interfaces[n])
    ensures Shaped(c)
  {
    assert c.superClass.Null? ==> Shaped(c.superClass);
  }

  lemma PartReached(c: Class, n: nat)
    requires c.Class? && n < |c.interfaces| && c.interfaces[n].Class?
    ensures Reaches(c, c.interfaces[n])
  {
    assert Reaches(c.interfaces[n], c.interfaces[n]);
  }

  lemma SuperReached(c: Class, t: Class)
    requires c.Class? && Reaches(c.superClass, t)
    ensures Reaches(c, t)
  {
  }

  lemma NamedAgain(a: Class, b: Class, i: Class)
    requires a.Class? && b.Class? && i.Class? && a.superClass.Null? && i.superClass.Null? && b.superClass == a
    requires a.interfaces == [i] && i.interfaces == [] && b.interfaces == [i]
    requires !a.isInterface && !b.isInterface && i.isInterface
    ensures Shaped(b) && Entries(b) == Some([i, i]) && Table(b) == None && Reaches(b, i)
  {
    hide Table, Entries, Dedup, Reaches, Shaped;
    ShapedOf(i);
    ShapedOf(a);
    ShapedOf(b);
    PartReached(b, 0);
    RootInterface(i);
    assert Table(Null) == Some([]) by { NoTable(); }
    OneMore(a, i, []);
    assert [] + [i] == [i];
    DedupIdentity([i], 0, 1);
    OneMore(b, i, [i]);
    assert [i] + [i] == [i, i];
    DedupPair(i);
  }

  lemma NoTable()
    ensures Table(Null) == Some([])
  {
  }

  /** The same with another interface in front: the class loses both. */
  lemma InterfacesLost()
    ensures var i := Class(1, true, true, [], Null, []);
            var j := Class(2, true, true, [], Null, []);
            var a := Class(3, false, false, [], Null, [i, j]);
            var b := Class(4, false, false, [], a, [j]);
            && Shaped(b) && Entries(b) == Some([i, j, j]) && Table(b) == Some([]) && Reaches(b, i) && Reaches(b, j)
  {
    var i := Class(1, true, true, [], Null, []);
    var j := Class(2, true, true, [], Null, []);
    var a := Class(3, false, false, [], Null, [i, j]);
    var b := Class(4, false, false, [], a, [j]);
    hide Table, Entries, Dedup, Reaches;
    LostAll(a, b, i, j);
  }

  lemma LostAll(a: Class, b: Class, i: Class, j: Class)
    requires a.Class? && b.Class? && i.Class? && j.Class? && i != j
    requires a.superClass.Null? && i.superClass.Null? && j.superClass.Null? && b.superClass == a
    requires a.interfaces == [i, j] && b.interfaces == [j] && i.interfaces == [] && j.interfaces == []
    requires !a.isInterface && !b.isInterface && i.isInterface && j.isInterface
    ensures Shaped(b) && Entries(b) == Some([i, j, j]) && Table(b) == Some([]) && Reaches(b, i) && Reaches(b, j)
  {
    hide Table, Entries, Dedup, Reaches, Shaped;
    ShapedOf(i);
    ShapedOf(j);
    ShapedOf(a);
    ShapedOf(b);
    PartReached(a, 0);
    PartReached(b, 0);
    SuperReached(b, i);
    RootInterface(i);
    RootInterface(j);
    TwoMore(a, i, j);
    DedupIdentity([i, j], 0, 1);
    OneMore(b, j, [i, j]);
    assert [i, j] + [j] == [i, j, j];
    DedupSpoils(i, j);
  }

  lemma RootInterface(i: Class)
    requires i.Class? && i.isInterface && i.superClass.Null? && i.interfaces == []
    ensures Table(i) == Some([i])
  {
    assert Collected(i, 0) == Some([]);
    var none: seq<Class> := [];
    assert none + [i] == [i];
    assert Entries(i) == Some([i]);
    DedupIdentity([i], 0, 1);
  }

  lemma OneMore(c: Class, i: Class, t: seq<Class>)
    requires c.Class? && !c.isInterface && Table(c.superClass) == Some(t)
    requires c.interfaces == [i] && Table(i) == Some([i])
    ensures Entries(c) == Some(t + [i]) && Table(c) == Dedup(t + [i], 0, 1)
  {
    hide Table, Dedup;
    assert Collected(c, 0) == Some(t) && Collected(c, 1) == Some(t + [i]);
    TableOf(c);
  }

  lemma TwoMore(c: Class, i: Class, j: Class)
    requires c.Class? && !c.isInterface && c.superClass.Null? && c.interfaces == [i, j]
    requires Table(i) == Some([i]) && Table(j) == Some([j])
    ensures Entries(c) == Some([i, j]) && Table(c) == Dedup([i, j], 0, 1)
  {
    hide Table, Dedup;
    NoTable();
    var none: seq<Class> := [];
    assert Collected(c, 0) == Some(none);
    assert none + [i] == [i];
    assert Collected(c, 1) == Some([i]);
    assert [i] + [j] == [i, j];
    assert Collected(c, 2) == Some([i, j]);
    TableOf(c);
  }

  lemma DedupPair(i: Class)
    requires i.Class?
    ensures Dedup([i, i], 0, 1) == None
  {
    DedupSpoils(i, Null);
  }

  // ----- parts that have no interface in common -----

  function Parts(c: Class): seq<Class>
    requires c.Class?
  {
    [c.superClass] + c.interfaces
  }

  ghost predicate NoneShared(c: Class, d: Class) {
    forall t: Class :: IsInterface(t) && Reaches(c, t) ==> !Reaches(d, t)
  }

  /** No interface is reached through two parts of a class, here or in anything reached. */
  ghost predicate DisjointParts(c: Class) {
    c.Class? ==>
      && (forall m, n :: 0 <= m < n < |Parts(c)| ==> NoneShared(Parts(c)[m], Parts(c)[n]))
      && DisjointParts(c.superClass) && forall n :: 0 <= n < |c.interfaces| ==> DisjointParts(c.interfaces[n])
  }

  lemma {:induction false} ReachedInside(c: Class, t: Class)
    requires Reaches(c, t)
    ensures t == c || t < c
  {
    if t != c {
      if Reaches(c.superClass, t) {
        ReachedInside(c.superClass, t);
      } else {
        var n :| 0 <= n < |c.interfaces| && Reaches(c.interfaces[n], t);
        ReachedInside(c.interfaces[n], t);
      }
    }
  }

  lemma ConcatOnce<T>(s: seq<T>, t: seq<T>)
    requires NoDuplicates(s) && NoDuplicates(t) && forall x :: x in s ==> x !in t
    ensures NoDuplicates(s + t)
  {
    forall a, b | 0 <= a < b < |s + t| ensures (s + t)[a] != (s + t)[b] {
      assert b >= |s| ==> (s + t)[b] == t[b - |s|];
      assert a < |s| ==> (s + t)[a] in s;
    }
  }

  lemma {:induction false} CollectedOnce(c: Class, n: nat)
    requires c.Class? && n <= |c.interfaces| && TableExact(c.superClass)
    requires forall k :: 0 <= k < |c.interfaces| ==> TableExact(c.interfaces[k])
    requires forall a, b :: 0 <= a < b < |Parts(c)| ==> NoneShared(Parts(c)[a], Parts(c)[b])
    ensures Collected(c, n).Some? && NoDuplicates(Collected(c, n).value)
  {
    hide Table, Reaches;
    if n > 0 {
      CollectedOnce(c, n - 1);
      CollectedHolds(c, n - 1);
      assert TableExact(c.interfaces[n - 1]);
      var before, part := Collected(c, n - 1).value, Table(c.interfaces[n - 1]).value;
      forall t | t in before ensures t !in part {
        assert ReachedBy(c, n - 1, t);
        var a :| 0 <= a < n && Reaches(Parts(c)[a], t) by {
          if Reaches(c.superClass, t) {
            assert Parts(c)[0] == c.superClass;
          } else {
            var k :| 0 <= k < n - 1 && Reaches(c.interfaces[k], t);
            assert Parts(c)[k + 1] == c.interfaces[k];
          }
        }
        assert NoneShared(Parts(c)[a], Parts(c)[n]) && Parts(c)[n] == c.interfaces[n - 1];
      }
      ConcatOnce(before, part);
    }
  }

  lemma EntriesOnce(c: Class)
    requires c.Class? && TableExact(c.superClass)
    requires forall k :: 0 <= k < |c.interfaces| ==> TableExact(c.interfaces[k])
    requires forall a, b :: 0 <= a < b < |Parts(c)| ==> NoneShared(Parts(c)[a], Parts(c)[b])
    ensures Entries(c).Some? && NoDuplicates(Entries(c).value)
  {
    hide Table, Reaches;
    CollectedOnce(c, |c.interfaces|);
    CollectedHolds(c, |c.interfaces|);
    if c in Collected(c, |c.interfaces|).value {
      if Reaches(c.superClass, c) {
        ReachedInside(c.superClass, c);
      } else {
        var k :| 0 <= k < |c.interfaces| && Reaches(c.interfaces[k], c);
        ReachedInside(c.interfaces[k], c);
      }
      assert false;
    }
  }

  /** Without an interface reached twice no elimination loses anything, so all tables are exact. */
  lemma {:induction false} DisjointKeep(c: Class)
    requires DisjointParts(c)
    ensures AllKeep(c) && AllExact(c)
  {
    hide TableExact, NoneShared;
    if c.Class? {
      DisjointKeep(c.superClass);
      forall n | 0 <= n < |c.interfaces| ensures AllKeep(c.interfaces[n]) && AllExact(c.interfaces[n]) {
        DisjointKeep(c.interfaces[n]);
      }
      forall n | 0 <= n < |c.interfaces| ensures TableExact(c.interfaces[n]) {
        assert AllExact(c.interfaces[n]);
      }
      EntriesOnce(c);
      DedupIdentity(Entries(c).value, 0, 1);
    }
    AllExactIff(c);
  }

  // ----- the type test -----

  method IsSubclass(super: Class, sub: Class) returns (r: bool)
    requires super.Class? && sub.Class?
    ensures r == IsAncestor(super, sub)
  {
    var c := sub;
    while super != c
      invariant c.Class? && IsAncestor(super, sub) == IsAncestor(super, c)
      decreases c
    {
      if c.superClass.Null? {
        return false;
      }
      c := c.superClass;
    }
    r := true;
  }

  /** Superclasses are not interfaces, superinterfaces are; so for everything reached. */
  predicate Shaped(c: Class) {
    c.Class? ==>
      && Shaped(c.superClass) && !IsInterface(c.superClass)
      && forall n :: 0 <= n < |c.interfaces| ==> IsInterface(c.interfaces[n]) && Shaped(c.interfaces[n])
  }

  /** `java_instanceof_class` on classes that are not arrays: the superclass chain for a class, and for
      an interface what is reached, which is what the interface table holds when it is exact. */
  method JavaInstanceofClass(self: Class, target: Class) returns (r: bool)
    requires self.Class? && target.Class? && Shaped(self)
    ensures r == if target.isInterface then Reaches(self, target) else IsAncestor(target, self)
    ensures AllKeep(self) && target.isInterface ==> Table(self).Some? && (r <==> target in Table(self).value)
    decreases self
  {
    hide Table, AllKeep, Keeps;
    AllExactIff(self);
    if self == target {
      return true;
    }
    if !target.isInterface {
      r := IsSubclass(target, self);
      return;
    }
    var c := self;
    while c.Class?
      invariant (c == self || (c < self && !IsInterface(c))) && Shaped(c)
      invariant Reaches(self, target) == Reaches(c, target)
      decreases c
    {
      for i := 0 to |c.interfaces|
        invariant forall k :: 0 <= k < i ==> !Reaches(c.interfaces[k], target)
      {
        var found := JavaInstanceofClass(c.interfaces[i], target);
        if found {
          return true;
        }
      }
      c := c.superClass;
    }
    r := false;
  }
}
