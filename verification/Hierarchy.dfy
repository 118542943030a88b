/** Classes as the loader hands them to the preparation, and what their virtual method tables hold. */
module Hierarchy {
  import opened Wrappers

  datatype Access = Public | Protected | Private | PackagePrivate

  /** Name and descriptor are interned strings, so comparing signatures compares two references. */
  datatype Sig = Sig(name: nat, descriptor: nat)

  datatype MethodDecl = MethodDecl(sig: Sig, access: Access, isStatic: bool, isClinit: bool)

  datatype Class =
    | Null
    | Class(name: nat, isInterface: bool, isAbstract: bool, methods: seq<MethodDecl>, superClass: Class,
            interfaces: seq<Class>)

  /** A method object: its declaration and where it is declared. */
  datatype Member = Member(owner: Class, index: nat, decl: MethodDecl)

  predicate IsAncestor(a: Class, c: Class) {
    c.Class? && (a == c || IsAncestor(a, c.superClass))
  }

  function Depth(c: Class): nat {
    if c.Null? then 0 else 1 + Depth(c.superClass)
  }

  lemma {:induction false} AncestorDepth(a: Class, c: Class)
    requires IsAncestor(a, c)
    ensures a.Class? && Depth(a) <= Depth(c) && (a != c ==> Depth(a) < Depth(c))
  {
    if a != c {
      AncestorDepth(a, c.superClass);
    }
  }

  /** No class of the chain declares a signature twice, and none of them is an interface. */
  predicate WellFormed(c: Class) {
    c.Class? ==>
      && !c.isInterface
      && (forall i, j :: 0 <= i < j < |c.methods| ==> c.methods[i].sig != c.methods[j].sig)
      && WellFormed(c.superClass)
  }

  // ----- the simple form: walk up the chain -----

  predicate Declares(c: Class, k: nat) {
    c.Class? && k < |c.methods| && !c.methods[k].isStatic
  }

  function MemberOf(c: Class, k: nat): Member
    requires c.Class? && k < |c.methods|
  {
    Member(c, k, c.methods[k])
  }

  /** The index of the first non-static method from `k` on that has the signature. */
  function OwnIndex(ms: seq<MethodDecl>, sig: Sig, k: nat): (r: nat)
    requires k <= |ms|
    ensures k <= r <= |ms|
    ensures r < |ms| ==> !ms[r].isStatic && ms[r].sig == sig
    ensures forall j :: k <= j < r ==> ms[j].isStatic || ms[j].sig != sig
    decreases |ms| - k
  {
    if k == |ms| || (!ms[k].isStatic && ms[k].sig == sig) then k else OwnIndex(ms, sig, k + 1)
  }

  /** The most derived non-static method with this signature. */
  function Lookup(c: Class, sig: Sig): Option<Member> {
    if c.Null? then None
    else
      var k := OwnIndex(c.methods, sig, 0);
      if k < |c.methods| then Some(MemberOf(c, k)) else Lookup(c.superClass, sig)
  }

  // ----- the fast form: tables -----

  /** The first slot that holds a method with this signature. */
  function FirstMatch(v: seq<Member>, sig: Sig, from: nat := 0): (r: nat)
    requires from <= |v|
    ensures from <= r <= |v|
    ensures r < |v| ==> v[r].decl.sig == sig
    ensures forall j :: from <= j < r ==> v[j].decl.sig != sig
    decreases |v| - from
  {
    if from == |v| || v[from].decl.sig == sig then from else FirstMatch(v, sig, from + 1)
  }

  /** `override_superclass_method`: the package of the class being prepared is not set yet, so it
      always differs from its superclass's, and a package-private method is never overridden. */
  predicate Overrides(base: seq<Member>, sig: Sig) {
    var s := FirstMatch(base, sig);
    s < |base| && !base[s].decl.access.PackagePrivate?
  }

  /** How many of the first `k` methods get a slot of their own. */
  function NewSlots(base: seq<Member>, ms: seq<MethodDecl>, k: nat): (n: nat)
    requires k <= |ms|
    ensures n <= k
  {
    if k == 0 then 0
    else NewSlots(base, ms, k - 1) + if !ms[k - 1].isStatic && !Overrides(base, ms[k - 1].sig) then 1 else 0
  }

  /** The slot of the non-static method `k`. */
  function Slot(c: Class, k: nat): nat
    requires Declares(c, k)
  {
    var base := Vtable(c.superClass);
    if Overrides(base, c.methods[k].sig) then FirstMatch(base, c.methods[k].sig)
    else |base| + NewSlots(base, c.methods, k)
  }

  /** The table of a class: its superclass's with the class's own methods written over it or behind it. */
  function Vtable(c: Class): (v: seq<Member>)
    decreases c, 2
  {
    if c.Null? then [] else Fill(Vtable(c.superClass), c, |c.methods|)
  }

  function Fill(base: seq<Member>, c: Class, n: nat): (v: seq<Member>)
    requires c.Class? && n <= |c.methods|
    ensures |v| == |base| + NewSlots(base, c.methods, n)
    decreases c, 1, n
  {
    if n == 0 then base
    else
      var v := Fill(base, c, n - 1);
      var m := c.methods[n - 1];
      if m.isStatic then v
      else if Overrides(base, m.sig) then v[FirstMatch(base, m.sig) := MemberOf(c, n - 1)]
      else v + [MemberOf(c, n - 1)]
  }

  // ----- what the slots of one class hold -----

  lemma {:induction false} NewSlotsMono(base: seq<Member>, ms: seq<MethodDecl>, j: nat, k: nat)
    requires j <= k <= |ms|
    ensures NewSlots(base, ms, j) <= NewSlots(base, ms, k)
    ensures j < k && !ms[j].isStatic && !Overrides(base, ms[j].sig) ==> NewSlots(base, ms, j) < NewSlots(base, ms, k)
  {
    if j < k {
      NewSlotsMono(base, ms, j, k - 1);
    }
  }

  /** Different methods of a class have different slots. */
  lemma SlotInjective(c: Class, j: nat, k: nat)
    requires WellFormed(c) && Declares(c, j) && Declares(c, k) && j < k
    ensures Slot(c, j) != Slot(c, k)
  {
    hide WellFormed, Overrides;
    var base := Vtable(c.superClass);
    assert c.methods[j].sig != c.methods[k].sig by { Distinct(c, j, k); }
    NewSlotsMono(base, c.methods, j, k);
    OverridesFinds(base, c.methods[j].sig);
    OverridesFinds(base, c.methods[k].sig);
  }

  lemma Distinct(c: Class, j: nat, k: nat)
    requires WellFormed(c) && c.Class? && j < k < |c.methods|
    ensures c.methods[j].sig != c.methods[k].sig
  {
  }

  lemma OverridesFinds(base: seq<Member>, sig: Sig)
    ensures Overrides(base, sig) ==> FirstMatch(base, sig) < |base|
  {
  }

  /** None of the first `n` methods has slot `s`. */
  ghost predicate Untouched(c: Class, n: nat, s: int)
    requires c.Class? && n <= |c.methods|
  {
    forall k: nat :: k < n && Declares(c, k) ==> Slot(c, k) != s
  }

  /** After `n` methods: the slots of those methods hold them, every other slot what the base holds. */
  lemma {:induction false} FillAt(c: Class, n: nat)
    requires WellFormed(c) && c.Class? && n <= |c.methods|
    ensures var base := Vtable(c.superClass);
            var v := Fill(base, c, n);
            && (forall k: nat :: k < n && Declares(c, k) ==> Slot(c, k) < |v| && v[Slot(c, k)] == MemberOf(c, k))
            && (forall s :: 0 <= s < |v| && Untouched(c, n, s) ==> s < |base| && v[s] == base[s])
  {
    hide WellFormed, Overrides, FirstMatch;
    if n == 0 {
      return;
    }
    FillAt(c, n - 1);
    var base := Vtable(c.superClass);
    OverridesFinds(base, c.methods[n - 1].sig);
    if Declares(c, n - 1) {
      forall k: nat | k < n - 1 && Declares(c, k) ensures Slot(c, k) != Slot(c, n - 1) {
        SlotInjective(c, k, n - 1);
      }
    }
    forall s | 0 <= s < |Fill(base, c, n)| && Untouched(c, n, s)
      ensures s < |base| && Fill(base, c, n)[s] == base[s]
    {
      assert Untouched(c, n - 1, s);
      assert Declares(c, n - 1) ==> Slot(c, n - 1) != s;
    }
  }

  /** Slot `s` of a class is either its superclass's or the slot of exactly one method of its own. */
  lemma VtableAt(c: Class, s: nat) returns (k: nat)
    requires WellFormed(c) && c.Class? && s < |Vtable(c)|
    ensures var base := Vtable(c.superClass);
            if k < |c.methods| then Declares(c, k) && Slot(c, k) == s && Vtable(c)[s] == MemberOf(c, k)
            else Untouched(c, |c.methods|, s) && s < |base| && Vtable(c)[s] == base[s]
  {
    hide WellFormed, Overrides, FirstMatch, Slot;
    FillAt(c, |c.methods|);
    k := |c.methods|;
    if !Untouched(c, |c.methods|, s) {
      k :| k < |c.methods| && Declares(c, k) && Slot(c, k) == s;
    }
  }

  lemma OwnSlot(c: Class, k: nat)
    requires WellFormed(c) && Declares(c, k)
    ensures Slot(c, k) < |Vtable(c)| && Vtable(c)[Slot(c, k)] == MemberOf(c, k)
  {
    FillAt(c, |c.methods|);
  }

  lemma InheritedSlot(c: Class, s: nat)
    requires WellFormed(c) && c.Class? && s < |Vtable(c.superClass)|
    ensures s < |Vtable(c)| && Vtable(c)[s].decl.sig == Vtable(c.superClass)[s].decl.sig
    ensures Untouched(c, |c.methods|, s) ==> Vtable(c)[s] == Vtable(c.superClass)[s]
  {
    hide WellFormed, Slot;
    var k := VtableAt(c, s);
    if k < |c.methods| {
      assert c.methods[k].sig == Vtable(c.superClass)[s].decl.sig by { SlotSig(c, k); }
    }
  }

  lemma SlotSig(c: Class, k: nat)
    requires Declares(c, k) && Slot(c, k) < |Vtable(c.superClass)|
    ensures Overrides(Vtable(c.superClass), c.methods[k].sig)
    ensures Vtable(c.superClass)[Slot(c, k)].decl.sig == c.methods[k].sig
  {
  }

  // ----- slots over the whole chain -----

  /** No slot is empty: each holds a non-static method of the class or an ancestor, whose own slot it is. */
  ghost predicate Holds(c: Class, s: nat)
    requires s < |Vtable(c)|
  {
    var e := Vtable(c)[s];
    && IsAncestor(e.owner, c) && WellFormed(e.owner) && Declares(e.owner, e.index)
    && e == MemberOf(e.owner, e.index) && Slot(e.owner, e.index) == s
  }

  lemma {:induction false} SlotsHold(c: Class, s: nat)
    requires WellFormed(c) && s < |Vtable(c)|
    ensures Holds(c, s)
  {
    hide Slot, Vtable;
    assert c.Class? by { NullTable(c); }
    var k := VtableAt(c, s);
    if k == |c.methods| || k > |c.methods| {
      SlotsHold(c.superClass, s);
    }
  }

  lemma NullTable(c: Class)
    ensures c.Null? ==> Vtable(c) == []
  {
  }

  /** The slot an ancestor gave a method keeps that method's signature down the whole chain. */
  lemma {:induction false} SlotKeepsSignature(a: Class, k: nat, c: Class)
    requires WellFormed(c) && IsAncestor(a, c) && Declares(a, k)
    ensures Slot(a, k) < |Vtable(c)| && Vtable(c)[Slot(a, k)].decl.sig == a.methods[k].sig
  {
    hide Slot, Vtable;
    if a == c {
      OwnSlot(c, k);
    } else {
      SlotKeepsSignature(a, k, c.superClass);
      InheritedSlot(c, Slot(a, k));
    }
  }

  // ----- dispatch through a slot against the lookup -----

  /** Class `c` redeclares a signature whose first slot in its superclass's table is package-private. */
  ghost predicate Clash(c: Class, k: nat)
    requires Declares(c, k)
  {
    var base := Vtable(c.superClass);
    var s := FirstMatch(base, c.methods[k].sig);
    s < |base| && base[s].decl.access.PackagePrivate?
  }

  /** No class of the chain redeclares a package-private method it inherits. */
  ghost predicate NoClash(c: Class) {
    c.Class? ==> (forall k: nat :: Declares(c, k) ==> !Clash(c, k)) && NoClash(c.superClass)
  }

  ghost predicate Unique(v: seq<Member>) {
    forall s, t :: 0 <= s < t < |v| ==> v[s].decl.sig != v[t].decl.sig
  }

  ghost predicate SlotIsLookup(c: Class, s: nat)
    requires s < |Vtable(c)|
  {
    Lookup(c, Vtable(c)[s].decl.sig) == Some(Vtable(c)[s])
  }

  /** An own method: the lookup finds it. */
  lemma LookupOwn(c: Class, k: nat)
    requires WellFormed(c) && Declares(c, k)
    ensures Lookup(c, c.methods[k].sig) == Some(MemberOf(c, k))
  {
    var j := OwnIndex(c.methods, c.methods[k].sig, 0);
    assert j == k;
  }

  /** No own method with the signature: the lookup goes on in the superclass. */
  lemma LookupInherited(c: Class, sig: Sig)
    requires c.Class? && forall k: nat :: Declares(c, k) ==> c.methods[k].sig != sig
    ensures Lookup(c, sig) == Lookup(c.superClass, sig)
  {
    var j := OwnIndex(c.methods, sig, 0);
    assert j < |c.methods| ==> Declares(c, j);
  }

  lemma MatchUnique(v: seq<Member>, s: nat)
    requires Unique(v) && s < |v|
    ensures FirstMatch(v, v[s].decl.sig) == s
  {
  }

  /** Without a clash an own method whose signature is in the superclass's table overrides that slot. */
  lemma OverridesAt(c: Class, k: nat, s: nat)
    requires Declares(c, k) && !Clash(c, k) && Unique(Vtable(c.superClass))
    requires s < |Vtable(c.superClass)| && Vtable(c.superClass)[s].decl.sig == c.methods[k].sig
    ensures Slot(c, k) == s
  {
    MatchUnique(Vtable(c.superClass), s);
  }

  lemma UniqueDown(c: Class)
    requires WellFormed(c) && c.Class? && NoClash(c) && Unique(Vtable(c.superClass))
    ensures Unique(Vtable(c))
  {
    hide WellFormed, Slot, Vtable, Clash;
    var v, base := Vtable(c), Vtable(c.superClass);
    forall s, t | 0 <= s < t < |v| ensures v[s].decl.sig != v[t].decl.sig {
      var j := VtableAt(c, s);
      var k := VtableAt(c, t);
      if j < |c.methods| && k < |c.methods| {
        if j < k {
          Distinct(c, j, k);
        } else {
          Distinct(c, k, j);
        }
      } else if j < |c.methods| {
        if v[s].decl.sig == v[t].decl.sig {
          OverridesAt(c, j, t);
        }
      } else if k < |c.methods| {
        if v[s].decl.sig == v[t].decl.sig {
          OverridesAt(c, k, s);
        }
      }
    }
  }

  lemma {:induction false} NoClashUnique(c: Class)
    requires WellFormed(c) && NoClash(c)
    ensures Unique(Vtable(c))
  {
    if c.Class? {
      NoClashUnique(c.superClass);
      UniqueDown(c);
    }
  }

  lemma {:induction false} NoClashLookup(c: Class, s: nat)
    requires WellFormed(c) && NoClash(c) && s < |Vtable(c)|
    ensures SlotIsLookup(c, s)
  {
    hide WellFormed, Slot, Vtable, Clash, Lookup;
    assert c.Class? by { NullTable(c); }
    var k := VtableAt(c, s);
    if k < |c.methods| {
      LookupOwn(c, k);
      return;
    }
    var sig := Vtable(c)[s].decl.sig;
    WellFormedSuper(c);
    NoClashUnique(c.superClass);
    NoClashLookup(c.superClass, s);
    forall j: nat | Declares(c, j) ensures c.methods[j].sig != sig {
      if c.methods[j].sig == sig {
        OverridesAt(c, j, s);
      }
    }
    LookupInherited(c, sig);
  }

  /** A clash in an ancestor leaves a slot behind that no class below ever writes again. */
  ghost predicate Stuck(c: Class, s: nat, e: Member) {
    && s < |Vtable(c)| && Vtable(c)[s] == e && e.decl.access.PackagePrivate?
    && FirstMatch(Vtable(c), e.decl.sig) == s
  }

  lemma SignaturesDown(c: Class, s: nat, sig: Sig)
    requires WellFormed(c) && c.Class? && s < |Vtable(c.superClass)|
    requires FirstMatch(Vtable(c.superClass), sig) == s
    ensures s < |Vtable(c)| && FirstMatch(Vtable(c), sig) == s
  {
    hide WellFormed, Slot, Vtable;
    forall t: nat | t <= s ensures t < |Vtable(c)| && Vtable(c)[t].decl.sig == Vtable(c.superClass)[t].decl.sig {
      InheritedSlot(c, t);
    }
  }

  lemma StuckDown(c: Class, s: nat, e: Member)
    requires WellFormed(c) && c.Class? && Stuck(c.superClass, s, e)
    ensures Stuck(c, s, e)
  {
    hide WellFormed, Vtable;
    SignaturesDown(c, s, e.decl.sig);
    InheritedSlot(c, s);
    forall k: nat | k < |c.methods| && Declares(c, k) ensures Slot(c, k) != s {
      if Slot(c, k) == s {
        SlotSig(c, k);
      }
    }
    assert Untouched(c, |c.methods|, s);
  }

  /** Below a clash the slot still holds the inherited method while the lookup finds a newer one. */
  lemma {:induction false} ClashMismatch(d: Class, k: nat, c: Class) returns (s: nat)
    requires WellFormed(c) && IsAncestor(d, c) && Declares(d, k) && Clash(d, k)
    ensures s < |Vtable(c)| && !SlotIsLookup(c, s)
    ensures Stuck(c, s, Vtable(c)[s]) && Vtable(c)[s].decl.sig == d.methods[k].sig
    ensures Depth(Vtable(c)[s].owner) < Depth(d)
    ensures var f := Lookup(c, d.methods[k].sig); f.Some? && Depth(f.value.owner) >= Depth(d)
  {
    hide WellFormed, Slot, Vtable;
    var sig := d.methods[k].sig;
    if d == c {
      s := FirstMatch(Vtable(c.superClass), sig);
      StuckDown(c, s, Vtable(c.superClass)[s]);
      SlotsHold(c.superClass, s) by { WellFormedSuper(c); }
      AncestorDepth(Vtable(c)[s].owner, c.superClass);
      LookupOwn(c, k);
    } else {
      WellFormedSuper(c);
      s := ClashMismatch(d, k, c.superClass);
      StuckDown(c, s, Vtable(c.superClass)[s]);
      AncestorDepth(d, c);
    }
  }

  lemma WellFormedSuper(c: Class)
    requires WellFormed(c) && c.Class?
    ensures WellFormed(c.superClass)
  {
  }

  lemma {:induction false} ClashSomewhere(c: Class) returns (d: Class, k: nat)
    requires WellFormed(c) && !NoClash(c)
    ensures IsAncestor(d, c) && Declares(d, k) && Clash(d, k)
  {
    if k' : nat :| Declares(c, k') && Clash(c, k') {
      d, k := c, k';
    } else {
      d, k := ClashSomewhere(c.superClass);
    }
  }

  /** Virtual dispatch agrees with the lookup: calling any ancestor's method through its slot in the
      table of `c` runs the most derived method with its signature, exactly when no class of the
      chain redeclares an inherited package-private method. */
  lemma DispatchIff(c: Class)
    requires WellFormed(c)
    ensures (forall a: Class, k: nat :: IsAncestor(a, c) && Declares(a, k) ==> DispatchesRight(a, k, c)) <==> NoClash(c)
  {
    hide WellFormed, Slot, Vtable, Clash, Lookup;
    if NoClash(c) {
      forall a: Class, k: nat | IsAncestor(a, c) && Declares(a, k) ensures DispatchesRight(a, k, c) {
        SlotKeepsSignature(a, k, c);
        NoClashLookup(c, Slot(a, k));
      }
    } else {
      var d, k := ClashSomewhere(c);
      var s := ClashMismatch(d, k, c);
      SlotsHold(c, s);
      assert !DispatchesRight(Vtable(c)[s].owner, Vtable(c)[s].index, c);
    }
  }

  ghost predicate DispatchesRight(a: Class, k: nat, c: Class)
    requires Declares(a, k)
  {
    Slot(a, k) < |Vtable(c)| && Lookup(c, a.methods[k].sig) == Some(Vtable(c)[Slot(a, k)])
  }

  // ----- dispatch by signature: the first slot that matches -----

  /** A slot with the signature exists exactly when the lookup finds a method. */
  lemma ImplementedIff(c: Class, sig: Sig)
    requires WellFormed(c)
    ensures FirstMatch(Vtable(c), sig) < |Vtable(c)| <==> Lookup(c, sig).Some?
  {
    hide WellFormed, Vtable, Slot;
    var s := FirstMatch(Vtable(c), sig);
    if s < |Vtable(c)| {
      SlotsHold(c, s);
      var e := Vtable(c)[s];
      AncestorDeclares(e.owner, e.index, c);
    }
    if Lookup(c, sig).Some? {
      var m := Lookup(c, sig).value;
      LookupIsDeclared(c, sig);
      SlotKeepsSignature(m.owner, m.index, c);
    }
  }

  lemma {:induction false} AncestorDeclares(a: Class, k: nat, c: Class)
    requires IsAncestor(a, c) && Declares(a, k)
    ensures Lookup(c, a.methods[k].sig).Some?
  {
    if a != c {
      AncestorDeclares(a, k, c.superClass);
    }
  }

  lemma {:induction false} LookupIsDeclared(c: Class, sig: Sig)
    requires Lookup(c, sig).Some?
    ensures var m := Lookup(c, sig).value;
            IsAncestor(m.owner, c) && Declares(m.owner, m.index) && m == MemberOf(m.owner, m.index) && m.decl.sig == sig
  {
    if OwnIndex(c.methods, sig, 0) == |c.methods| {
      LookupIsDeclared(c.superClass, sig);
    }
  }

  /** A class of the chain redeclares `sig` while the first slot its superclass has for it is package-private. */
  ghost predicate ClashesOn(c: Class, sig: Sig) {
    && c.Class?
    && ((exists k: nat :: Declares(c, k) && c.methods[k].sig == sig && Clash(c, k)) || ClashesOn(c.superClass, sig))
  }

  lemma {:induction false} ClashOn(c: Class, sig: Sig) returns (d: Class, k: nat)
    requires ClashesOn(c, sig)
    ensures IsAncestor(d, c) && Declares(d, k) && d.methods[k].sig == sig && Clash(d, k)
  {
    if k' : nat :| Declares(c, k') && c.methods[k'].sig == sig && Clash(c, k') {
      d, k := c, k';
    } else {
      d, k := ClashOn(c.superClass, sig);
    }
  }

  /** A signature no slot of the superclass has: the first slot with it is the own method's. */
  lemma NewSlotFirst(c: Class, k: nat)
    requires WellFormed(c) && Declares(c, k)
    requires FirstMatch(Vtable(c.superClass), c.methods[k].sig) == |Vtable(c.superClass)|
    ensures FirstMatch(Vtable(c), c.methods[k].sig) == Slot(c, k)
  {
    hide WellFormed, Vtable, Slot;
    var v, base, sig := Vtable(c), Vtable(c.superClass), c.methods[k].sig;
    OwnSlot(c, k);
    forall s: nat | s < |v| && v[s].decl.sig == sig ensures s == Slot(c, k) {
      var j := VtableAt(c, s);
      if j < k {
        Distinct(c, j, k);
      } else if k < j < |c.methods| {
        Distinct(c, k, j);
      }
    }
  }

  /** An own method without a clash is what the first slot with its signature holds. */
  lemma FirstMatchOwn(c: Class, k: nat)
    requires WellFormed(c) && Declares(c, k) && !Clash(c, k)
    ensures var s := FirstMatch(Vtable(c), c.methods[k].sig); s < |Vtable(c)| && Vtable(c)[s] == MemberOf(c, k)
  {
    hide WellFormed, Vtable, FirstMatch;
    var base, sig := Vtable(c.superClass), c.methods[k].sig;
    OwnSlot(c, k);
    if FirstMatch(base, sig) < |base| {
      SignaturesDown(c, FirstMatch(base, sig), sig);
    } else {
      NewSlotFirst(c, k);
    }
  }

  /** A signature the class does not declare keeps its first slot and what is in it. */
  lemma FirstMatchInherited(c: Class, sig: Sig)
    requires WellFormed(c) && c.Class? && FirstMatch(Vtable(c.superClass), sig) < |Vtable(c.superClass)|
    requires forall k: nat :: Declares(c, k) ==> c.methods[k].sig != sig
    ensures var s := FirstMatch(Vtable(c.superClass), sig);
            FirstMatch(Vtable(c), sig) == s < |Vtable(c)| && Vtable(c)[s] == Vtable(c.superClass)[s]
  {
    hide WellFormed, Vtable, Slot;
    var s := FirstMatch(Vtable(c.superClass), sig);
    SignaturesDown(c, s, sig);
    var k := VtableAt(c, s);
  }

  /** Without a clash on the signature the first slot with it holds what the lookup finds. */
  lemma {:induction false} FirstMatchLookup(c: Class, sig: Sig)
    requires WellFormed(c) && Lookup(c, sig).Some? && !ClashesOn(c, sig)
    ensures var s := FirstMatch(Vtable(c), sig); s < |Vtable(c)| && Lookup(c, sig) == Some(Vtable(c)[s])
  {
    hide WellFormed, Vtable, Slot, FirstMatch, Clash;
    var k := OwnIndex(c.methods, sig, 0);
    if k < |c.methods| {
      FirstMatchOwn(c, k);
    } else {
      WellFormedSuper(c);
      FirstMatchLookup(c.superClass, sig);
      FirstMatchInherited(c, sig);
    }
  }

  /** Dispatch by signature, as interface calls do it, agrees with the lookup exactly when no class of
      the chain clashes on that signature. */
  lemma FirstMatchIff(c: Class, sig: Sig)
    requires WellFormed(c) && Lookup(c, sig).Some?
    ensures FirstMatch(Vtable(c), sig) < |Vtable(c)|
    ensures Lookup(c, sig) == Some(Vtable(c)[FirstMatch(Vtable(c), sig)]) <==> !ClashesOn(c, sig)
  {
    hide WellFormed, Vtable, Lookup, ClashesOn, FirstMatch;
    ImplementedIff(c, sig);
    if ClashesOn(c, sig) {
      var d, k := ClashOn(c, sig);
      var s := ClashMismatch(d, k, c);
    } else {
      FirstMatchLookup(c, sig);
    }
  }

  // ----- one virtual call -----

  /** A class below `a` redeclares `sig` while the first slot its superclass has for it is package-private. */
  ghost predicate ClashBelow(a: Class, c: Class, sig: Sig) {
    && c.Class? && c != a
    && ((exists j: nat :: Declares(c, j) && c.methods[j].sig == sig && Clash(c, j)) || ClashBelow(a, c.superClass, sig))
  }

  /** While the first slot with a signature is package-private no slot with it is written again. */
  lemma SlotFrozen(c: Class, s: nat, t: nat, e: Member)
    requires WellFormed(c) && c.Class? && Stuck(c.superClass, t, e)
    requires s < |Vtable(c.superClass)| && Vtable(c.superClass)[s].decl.sig == e.decl.sig
    ensures s < |Vtable(c)| && Vtable(c)[s] == Vtable(c.superClass)[s]
  {
    hide WellFormed, Vtable, Slot, FirstMatch;
    InheritedSlot(c, s);
    forall k: nat | k < |c.methods| && Declares(c, k) ensures Slot(c, k) != s {
      if Slot(c, k) == s {
        SlotSig(c, k);
      }
    }
    assert Untouched(c, |c.methods|, s);
  }

  /** A clashing method's own slot is not the first one with its signature, which stays package-private. */
  lemma ClashLasts(a: Class, k: nat, c: Class, j: nat)
    requires WellFormed(c) && c.Class? && IsAncestor(a, c.superClass) && Declares(a, k) && Clash(a, k)
    requires Declares(c, j) && c.methods[j].sig == a.methods[k].sig
    ensures Clash(c, j)
  {
    hide WellFormed, Vtable, Slot, FirstMatch, Lookup;
    WellFormedSuper(c);
    var s := ClashMismatch(a, k, c.superClass);
  }

  /** Without a clash a method's slot is the first one with its signature, down the whole chain. */
  lemma {:induction false} SlotIsFirst(a: Class, k: nat, c: Class)
    requires WellFormed(c) && IsAncestor(a, c) && Declares(a, k) && !Clash(a, k)
    ensures FirstMatch(Vtable(c), a.methods[k].sig) == Slot(a, k)
  {
    hide WellFormed, Vtable;
    var sig := a.methods[k].sig;
    if a == c {
      if FirstMatch(Vtable(c.superClass), sig) < |Vtable(c.superClass)| {
        SignaturesDown(c, FirstMatch(Vtable(c.superClass), sig), sig);
      } else {
        NewSlotFirst(c, k);
      }
    } else {
      WellFormedSuper(c);
      SlotIsFirst(a, k, c.superClass);
      SlotKeepsSignature(a, k, c.superClass);
      SignaturesDown(c, Slot(a, k), sig);
    }
  }

  /** A class that redeclares an ancestor's method without a clash overrides it in that method's slot. */
  lemma RedeclaredAt(a: Class, k: nat, c: Class, j: nat)
    requires WellFormed(c) && c.Class? && IsAncestor(a, c.superClass) && Declares(a, k)
    requires Declares(c, j) && c.methods[j].sig == a.methods[k].sig && !Clash(c, j)
    ensures Slot(c, j) == Slot(a, k)
  {
    hide WellFormed, Vtable;
    WellFormedSuper(c);
    if Clash(a, k) {
      ClashLasts(a, k, c, j);
    }
    SlotIsFirst(a, k, c.superClass);
    SlotKeepsSignature(a, k, c.superClass);
  }

  /** A slot of an undeclared signature is inherited. */
  lemma SlotInherited(c: Class, s: nat)
    requires WellFormed(c) && c.Class? && s < |Vtable(c.superClass)|
    requires forall j: nat :: Declares(c, j) ==> c.methods[j].sig != Vtable(c.superClass)[s].decl.sig
    ensures s < |Vtable(c)| && Vtable(c)[s] == Vtable(c.superClass)[s]
  {
    hide WellFormed, Vtable, Slot;
    InheritedSlot(c, s);
    forall k: nat | k < |c.methods| && Declares(c, k) ensures Slot(c, k) != s {
      if Slot(c, k) == s {
        SlotSig(c, k);
      }
    }
    assert Untouched(c, |c.methods|, s);
  }

  lemma {:induction false} CallRunsLookup(a: Class, k: nat, c: Class)
    requires WellFormed(c) && IsAncestor(a, c) && Declares(a, k) && !ClashBelow(a, c, a.methods[k].sig)
    ensures DispatchesRight(a, k, c)
  {
    hide WellFormed, Vtable, Slot, Lookup, Clash;
    var sig := a.methods[k].sig;
    if a == c {
      OwnSlot(c, k);
      LookupOwn(c, k);
      return;
    }
    WellFormedSuper(c);
    CallRunsLookup(a, k, c.superClass);
    if j: nat :| Declares(c, j) && c.methods[j].sig == sig {
      RedeclaredAt(a, k, c, j);
      OwnSlot(c, j);
      LookupOwn(c, j);
    } else {
      SlotKeepsSignature(a, k, c.superClass);
      SlotInherited(c, Slot(a, k));
      LookupInherited(c, sig);
    }
  }

  /** Below a clash the slot of a method declared above it still holds a method from above it. */
  lemma {:induction false} CallRunsOld(a: Class, k: nat, c: Class) returns (d: Class, j: nat)
    requires WellFormed(c) && IsAncestor(a, c) && Declares(a, k) && ClashBelow(a, c, a.methods[k].sig)
    ensures IsAncestor(d, c) && Declares(d, j) && d.methods[j].sig == a.methods[k].sig && Clash(d, j)
    ensures Slot(a, k) < |Vtable(c)| && Depth(Vtable(c)[Slot(a, k)].owner) < Depth(d)
  {
    hide WellFormed, Vtable, Slot, Clash, Lookup, FirstMatch;
    var sig := a.methods[k].sig;
    WellFormedSuper(c);
    SlotKeepsSignature(a, k, c);
    SlotKeepsSignature(a, k, c.superClass);
    if ClashBelow(a, c.superClass, sig) {
      d, j := CallRunsOld(a, k, c.superClass);
      var t := ClashMismatch(d, j, c.superClass);
      SlotFrozen(c, Slot(a, k), t, Vtable(c.superClass)[t]);
    } else {
      j :| Declares(c, j) && c.methods[j].sig == sig && Clash(c, j);
      d := c;
      ClashStuck(c, j);
      SlotFrozen(c, Slot(a, k), FirstMatch(Vtable(c.superClass), sig),
                 Vtable(c.superClass)[FirstMatch(Vtable(c.superClass), sig)]);
      SlotsHold(c.superClass, Slot(a, k));
      AncestorDepth(Vtable(c)[Slot(a, k)].owner, c.superClass);
    }
  }

  lemma ClashStuck(c: Class, j: nat)
    requires Declares(c, j) && Clash(c, j)
    ensures var s := FirstMatch(Vtable(c.superClass), c.methods[j].sig);
            s < |Vtable(c.superClass)| && Stuck(c.superClass, s, Vtable(c.superClass)[s])
            && Vtable(c.superClass)[s].decl.sig == c.methods[j].sig
  {
    hide Vtable;
  }

  /** One virtual call: through the slot of an ancestor's method the most derived method with its
      signature runs, exactly when no class below that ancestor clashes on the signature. What else the
      classes of the chain redeclare does not matter. */
  lemma CallIff(a: Class, k: nat, c: Class)
    requires WellFormed(c) && IsAncestor(a, c) && Declares(a, k)
    ensures DispatchesRight(a, k, c) <==> !ClashBelow(a, c, a.methods[k].sig)
  {
    hide WellFormed, Vtable, Slot, Clash, Lookup, ClashBelow;
    if ClashBelow(a, c, a.methods[k].sig) {
      var d, j := CallRunsOld(a, k, c);
      var s := ClashMismatch(d, j, c);
    } else {
      CallRunsLookup(a, k, c);
    }
  }

  /** A package-private method and a class that redeclares it: the call through the inherited slot still
      runs the old method, and the new one gets a slot of its own. */
  lemma PackagePrivateNotOverridden(sig: Sig)
    ensures var m := MethodDecl(sig, PackagePrivate, false, false);
            var a := Class(1, false, false, [m], Null, []);
            var b := Class(2, false, false, [m], a, []);
            && WellFormed(b) && Lookup(b, sig) == Some(MemberOf(b, 0))
            && Vtable(b) == [MemberOf(a, 0), MemberOf(b, 0)] && !DispatchesRight(a, 0, b)
  {
    var m := MethodDecl(sig, PackagePrivate, false, false);
    var a := Class(1, false, false, [m], Null, []);
    var b := Class(2, false, false, [m], a, []);
    assert Fill([], a, 0) == [] && Vtable(a) == Fill([], a, 1) == [MemberOf(a, 0)];
    assert Vtable(b) == Fill(Vtable(a), b, 1) == [MemberOf(a, 0), MemberOf(b, 0)];
    assert Slot(a, 0) == 0;
  }

  /** Constructors are methods with slots. A package-private one that a subclass's constructor has the
      descriptor of makes the chain clash, and a call of any other method is right all the same. */
  lemma ConstructorsClash(init: Sig, foo: Sig)
    requires init != foo
    ensures var ms := [MethodDecl(init, PackagePrivate, false, false), MethodDecl(foo, Public, false, false)];
            var a := Class(1, false, false, ms, Null, []);
            var b := Class(2, false, false, ms, a, []);
            && WellFormed(b) && !NoClash(b) && ClashBelow(a, b, init) && !DispatchesRight(a, 0, b)
            && !ClashBelow(a, b, foo) && DispatchesRight(a, 1, b) && Lookup(b, foo) == Some(MemberOf(b, 1))
  {
    var ms := [MethodDecl(init, PackagePrivate, false, false), MethodDecl(foo, Public, false, false)];
    var a := Class(1, false, false, ms, Null, []);
    var b := Class(2, false, false, ms, a, []);
    SameMethods(a, b);
  }

  lemma SameMethods(a: Class, b: Class)
    requires a.Class? && b.Class? && a != b && a.superClass.Null? && b.superClass == a && a.methods == b.methods
    requires !a.isInterface && !b.isInterface && |a.methods| == 2 && a.methods[0].sig != a.methods[1].sig
    requires !a.methods[0].isStatic && !a.methods[1].isStatic
    requires a.methods[0].access.PackagePrivate? && !a.methods[1].access.PackagePrivate?
    ensures WellFormed(b) && !NoClash(b) && IsAncestor(a, b) && Declares(a, 0) && Declares(a, 1) && Declares(b, 1)
    ensures ClashBelow(a, b, a.methods[0].sig) && !DispatchesRight(a, 0, b)
    ensures !ClashBelow(a, b, a.methods[1].sig) && DispatchesRight(a, 1, b)
    ensures Lookup(b, a.methods[1].sig) == Some(MemberOf(b, 1))
  {
    hide Slot, Lookup, Vtable;
    assert WellFormed(a);
    ParentIsAncestor(a, b);
    TwoMethods(a);
    assert Declares(b, 0) && Clash(b, 0);
    assert Declares(b, 1) && !Clash(b, 1);
    CallIff(a, 0, b);
    CallIff(a, 1, b);
    LookupOwn(b, 1);
  }

  lemma ParentIsAncestor(a: Class, b: Class)
    requires a.Class? && b.Class? && b.superClass == a
    ensures IsAncestor(a, b)
  {
    assert IsAncestor(a, a);
  }

  lemma TwoMethods(a: Class)
    requires a.Class? && a.superClass.Null? && |a.methods| == 2
    requires !a.methods[0].isStatic && !a.methods[1].isStatic
    ensures Vtable(a) == [MemberOf(a, 0), MemberOf(a, 1)]
  {
    assert Fill([], a, 0) == [] && Fill([], a, 1) == [MemberOf(a, 0)];
    assert Vtable(a) == Fill([], a, 2);
  }
}
