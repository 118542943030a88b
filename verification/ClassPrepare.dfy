/** The preparation of a class's methods: offsets, then the table of method objects and code entries. */
module ClassPrepare {
  import opened Hierarchy

  const ARRAY_OVERHEAD: nat := 8
  const CLASS_SIZE: nat := 96  // sizeof(korp_class) with 32-bit pointers

  /** A code address: a method's compile-me stub, or one of the codes compiled for it. */
  datatype CodeEntry = Stub(of: Member) | Jitted(of: Member, version: nat)

  class KMethod {
    const decl: MethodDecl
    ghost const member: Member
    var owner: KClass?
    var offset: nat
    var entry: CodeEntry

    constructor (member: Member)
      ensures this.member == member && decl == member.decl && owner == null && offset == 0 && entry == Stub(member)
    {
      this.decl := member.decl;
      this.member := member;
      owner := null;
      offset := 0;
      entry := Stub(member);
    }
  }

  /** Byte offset of slot `s` from the class object the table is packed behind. */
  function ByteOffset(s: nat): nat {
    ARRAY_OVERHEAD + CLASS_SIZE + 4 * s
  }

  class KClass {
    ghost const decl: Class
    const isInterface: bool
    const isAbstract: bool
    const superClass: KClass?
    const methodInfo: seq<KMethod>
    var package: nat  // 0 until the class is loaded
    var vtableInfo: seq<KMethod?>
    var vtable: seq<CodeEntry>
    var interfaceTableInfo: seq<KClass>
    var interfaceTable: seq<seq<KMethod?>>  // per interface of the info, the method objects to call

    constructor (decl: Class, superClass: KClass?, methodInfo: seq<KMethod>)
      requires decl.Class?
      ensures this.decl == decl && this.isInterface == decl.isInterface && this.isAbstract == decl.isAbstract
      ensures this.superClass == superClass && this.methodInfo == methodInfo && package == 0
      ensures vtableInfo == [] && vtable == [] && interfaceTableInfo == [] && interfaceTable == []
    {
      this.decl := decl;
      this.isInterface := decl.isInterface;
      this.isAbstract := decl.isAbstract;
      this.superClass := superClass;
      this.methodInfo := methodInfo;
      package := 0;
      vtableInfo := [];
      vtable := [];
      interfaceTableInfo := [];
      interfaceTable := [];
    }

    /** The objects are those of the declaration. */
    ghost predicate Described()
      reads methodInfo
    {
      && decl.Class? && isInterface == decl.isInterface && isAbstract == decl.isAbstract
      && |methodInfo| == |decl.methods|
      && (forall k :: 0 <= k < |methodInfo| ==>
            && methodInfo[k].member == MemberOf(decl, k) && methodInfo[k].decl == decl.methods[k]
            && methodInfo[k].entry.of == methodInfo[k].member && methodInfo[k].owner == this)
      && (if superClass == null then decl.superClass.Null? else superClass.decl == decl.superClass)
    }

    /** Every slot holds the method object the table of the declaration names, with the offset of that
        slot, and a code entry of that method. */
    ghost predicate Prepared()
      reads this`vtableInfo, this`vtable, vtableInfo
    {
      && |vtableInfo| == |vtable| == |Vtable(decl)|
      && forall s :: 0 <= s < |vtableInfo| ==>
           SlotReady(vtableInfo[s], Vtable(decl)[s], s) && vtable[s].of == Vtable(decl)[s]
    }
  }

  ghost predicate SlotReady(m: KMethod?, e: Member, s: nat)
    reads m
  {
    m != null && m.member == e && m.decl == e.decl && m.offset == ByteOffset(s)
  }

  /** The tables the superclass hands on; none for the root of the hierarchy. */
  ghost predicate SuperReady(kc: KClass)
    reads kc.superClass
    reads if kc.superClass == null then [] else kc.superClass.vtableInfo
  {
    kc.superClass != null ==> kc.superClass.Prepared() && kc.superClass.package != 0
  }

  ghost function Base(kc: KClass): seq<Member> {
    if kc.decl.Class? then Vtable(kc.decl.superClass) else []
  }

  /** Methods of a class are not in the tables of its superclass. */
  lemma OwnNotInherited(c: Class, k: nat, s: nat)
    requires WellFormed(c) && Declares(c, k) && s < |Vtable(c.superClass)|
    ensures Vtable(c.superClass)[s] != MemberOf(c, k)
  {
    WellFormedSuper(c);
    SlotsHold(c.superClass, s);
    AncestorDepth(Vtable(c.superClass)[s].owner, c.superClass);
  }

  /** The number of slots and the offset a class starts its own methods with. */
  method FirstOffset(kc: KClass) returns (slots: nat, offset: nat)
    requires kc.Described() && SuperReady(kc) && OffsetsFit(kc.decl)
    ensures offset == NextOffset(kc.decl, 0)
    ensures !kc.isInterface ==> offset == ByteOffset(slots)
  {
    OffsetsMono(kc.decl);
    slots, offset := 0, ARRAY_OVERHEAD;
    if !kc.isInterface {
      offset := offset + CLASS_SIZE;
      if kc.superClass != null {
        slots := |kc.superClass.vtable|;
        offset := (offset + slots * 4) % 0x1_0000;
      }
    }
  }

  lemma OffsetsMono(c: Class)
    requires c.Class?
    ensures NextOffset(c, 0) <= NextOffset(c, |c.methods|)
  {
    NewSlotsMono(Vtable(c.superClass), c.methods, 0, |c.methods|);
    NewSlotsMono([], c.methods, 0, |c.methods|);
  }

  method OverrideSuperclassMethod(kc: KClass, m: KMethod) returns (found: bool)
    requires kc.Described() && SuperReady(kc) && kc.package == 0
    requires kc.superClass != null ==> m !in kc.superClass.vtableInfo
    modifies m`offset
    ensures found == (!kc.isInterface && Overrides(Base(kc), m.decl.sig))
    ensures m.offset == if found then ByteOffset(FirstMatch(Base(kc), m.decl.sig)) else old(m.offset)
  {
    if kc.isInterface || kc.superClass == null {
      return false;
    }
    var inherited := kc.superClass.vtableInfo;
    var samePackage := kc.package == kc.superClass.package;
    var i := 0;
    while i < |inherited|
      invariant 0 <= i <= |inherited|
      invariant FirstMatch(Base(kc), m.decl.sig) == FirstMatch(Base(kc), m.decl.sig, i)
    {
      var e := inherited[i];
      assert SlotReady(e, Base(kc)[i], i);
      if e.decl.sig == m.decl.sig {
        if !samePackage && e.decl.access.PackagePrivate? {
          return false;
        }
        m.offset := e.offset;
        return true;
      }
      i := i + 1;
    }
    return false;
  }

  /** The offset of method `k`: its slot's distance from the packed class object, or for an interface
      its position in the method tables of the classes that implement it. */
  function MethodOffset(c: Class, k: nat): nat
    requires Declares(c, k)
  {
    if c.isInterface then ARRAY_OVERHEAD + 4 * NewSlots([], c.methods, k) else ByteOffset(Slot(c, k))
  }

  /** The offset the next method with a slot of its own would get after the first `n`. */
  function NextOffset(c: Class, n: nat): nat
    requires c.Class? && n <= |c.methods|
  {
    if c.isInterface then ARRAY_OVERHEAD + 4 * NewSlots([], c.methods, n)
    else ByteOffset(|Vtable(c.superClass)| + NewSlots(Vtable(c.superClass), c.methods, n))
  }

  /** All offsets of the class are below 2^16. */
  predicate OffsetsFit(c: Class)
    requires c.Class?
  {
    NextOffset(c, |c.methods|) < 0x1_0000
  }

  ghost predicate OverridesSuper(c: Class, k: nat)
    requires Declares(c, k)
  {
    !c.isInterface && Overrides(Vtable(c.superClass), c.methods[k].sig)
  }

  lemma OffsetStep(c: Class, n: nat)
    requires c.Class? && n < |c.methods|
    ensures NextOffset(c, n + 1) == NextOffset(c, n) + if Declares(c, n) && !OverridesSuper(c, n) then 4 else 0
    ensures Declares(c, n) ==>
              MethodOffset(c, n) ==
                if OverridesSuper(c, n) then ByteOffset(FirstMatch(Vtable(c.superClass), c.methods[n].sig))
                                    else NextOffset(c, n)
    ensures NextOffset(c, n + 1) <= NextOffset(c, |c.methods|)
  {
    NewSlotsMono(Vtable(c.superClass), c.methods, n + 1, |c.methods|);
    NewSlotsMono([], c.methods, n + 1, |c.methods|);
  }

  /** The offsets of the first `n` methods are set. */
  ghost predicate OffsetsSet(kc: KClass, n: nat)
    requires kc.decl.Class? && |kc.methodInfo| == |kc.decl.methods| && n <= |kc.methodInfo|
    reads kc.methodInfo
  {
    forall k: nat :: k < n && Declares(kc.decl, k) ==> kc.methodInfo[k].offset == MethodOffset(kc.decl, k)
  }

  /** The table of the superclass does not share its method objects with the class. */
  lemma NotInherited(kc: KClass, k: nat)
    requires kc.Described() && SuperReady(kc) && kc.superClass != null && Declares(kc.decl, k) && WellFormed(kc.decl)
    ensures kc.methodInfo[k] !in kc.superClass.vtableInfo
  {
    hide WellFormed, Vtable;
    forall s: nat | s < |kc.superClass.vtableInfo| ensures kc.superClass.vtableInfo[s] != kc.methodInfo[k] {
      OwnNotInherited(kc.decl, k, s);
      assert SlotReady(kc.superClass.vtableInfo[s], Base(kc)[s], s);
    }
  }

  lemma MethodsDistinct(kc: KClass, j: nat, k: nat)
    requires kc.Described() && j < |kc.methodInfo| && k < |kc.methodInfo| && j != k
    ensures kc.methodInfo[j] != kc.methodInfo[k]
  {
    assert kc.methodInfo[j].member == MemberOf(kc.decl, j);
  }

  /** One turn of the loop of `prepare_methods`: a method that overrides none takes the next slot. */
  method PlaceMethod(kc: KClass, i: nat, m: KMethod, slots: nat, offset: nat) returns (slots': nat, offset': nat)
    requires kc.Described() && i < |kc.methodInfo| && m == kc.methodInfo[i] && kc.package == 0 && OffsetsFit(kc.decl)
    requires !kc.isInterface ==> WellFormed(kc.decl) && SuperReady(kc) && offset == ByteOffset(slots)
    requires offset == NextOffset(kc.decl, i)
    modifies m`offset
    ensures Declares(kc.decl, i) ==> m.offset == MethodOffset(kc.decl, i)
    ensures offset' == NextOffset(kc.decl, i + 1)
    ensures !kc.isInterface ==> SuperReady(kc) && offset' == ByteOffset(slots')
  {
    hide WellFormed, Vtable, Slot, Overrides, MethodOffset, NextOffset, NewSlots, FirstMatch;
    OffsetStep(kc.decl, i);
    slots', offset' := slots, offset;
    if !m.decl.isStatic {
      var done := false;
      if !kc.isInterface && kc.superClass != null {
        NotInherited(kc, i);
        done := OverrideSuperclassMethod(kc, m);
      } else {
        NoSuper(kc, i);
      }
      if !done {
        m.offset := offset;
        offset' := (offset + 4) % 0x1_0000;
        slots' := (slots + 1) % 0x1_0000;
      }
    }
  }

  lemma NoSuper(kc: KClass, k: nat)
    requires kc.Described() && Declares(kc.decl, k) && (kc.isInterface || kc.superClass == null)
    ensures !OverridesSuper(kc.decl, k)
  {
  }

  lemma AllPlaced(c: Class, slots: nat)
    requires c.Class? && !c.isInterface && ByteOffset(slots) == NextOffset(c, |c.methods|)
    ensures slots == |Vtable(c)|
  {
  }

  method PrepareMethods(kc: KClass)
    requires kc.Described() && SuperReady(kc) && kc.package == 0 && OffsetsFit(kc.decl)
    requires !kc.isInterface ==> WellFormed(kc.decl)
    modifies kc`vtableInfo, kc`vtable, kc.methodInfo
    ensures kc.Described() && OffsetsSet(kc, |kc.methodInfo|)
    ensures !kc.isInterface ==> kc.Prepared() && SuperReady(kc)
  {
    hide WellFormed, Vtable, MethodOffset, NextOffset, NewSlots, SuperReady, ByteOffset, KClass.Prepared;
    var slots, offset := FirstOffset(kc);
    for i := 0 to |kc.methodInfo|
      invariant OffsetsSet(kc, i) && kc.Described()
      invariant !kc.isInterface ==> SuperReady(kc) && offset == ByteOffset(slots)
      invariant offset == NextOffset(kc.decl, i)
    {
      forall k: nat | k < i ensures kc.methodInfo[k] != kc.methodInfo[i] {
        MethodsDistinct(kc, k, i);
      }
      slots, offset := PlaceMethod(kc, i, kc.methodInfo[i], slots, offset);
    }
    if !kc.isInterface {
      AllPlaced(kc.decl, slots);
      PrepareInstanceVtable(kc, slots);
    }
  }

  // ----- filling the tables -----

  lemma FillStep(c: Class, i: nat)
    requires c.Class? && i < |c.methods|
    ensures var v := Fill(Vtable(c.superClass), c, i);
            Fill(Vtable(c.superClass), c, i + 1) ==
            if !Declares(c, i) then v
            else if Slot(c, i) < |v| then v[Slot(c, i) := MemberOf(c, i)]
            else v + [MemberOf(c, i)]
    ensures Declares(c, i) ==> Slot(c, i) <= |Fill(Vtable(c.superClass), c, i)|
  {
  }

  lemma FillBounds(c: Class, i: nat)
    requires c.Class? && i <= |c.methods|
    ensures |Fill(Vtable(c.superClass), c, i)| <= |Vtable(c)|
    ensures Fill(Vtable(c.superClass), c, 0) == Vtable(c.superClass)
    ensures Fill(Vtable(c.superClass), c, |c.methods|) == Vtable(c)
  {
    NewSlotsMono(Vtable(c.superClass), c.methods, i, |c.methods|);
  }

  /** The first `n` slots are those of `v`. */
  ghost predicate TablesHold(info: seq<KMethod?>, codes: seq<CodeEntry>, v: seq<Member>, n: nat)
    reads info
  {
    && n <= |info| == |codes| && n <= |v|
    && forall s :: 0 <= s < n ==> SlotReady(info[s], v[s], s) && codes[s].of == v[s]
  }

  method CopyInherited(kc: KClass, info: array<KMethod?>, codes: array<CodeEntry>)
    requires kc.Described() && SuperReady(kc)
    requires info.Length == codes.Length >= |Base(kc)|
    modifies info, codes
    ensures TablesHold(info[..], codes[..], Base(kc), |Base(kc)|)
  {
    hide Vtable;
    if kc.superClass == null {
      NullTable(kc.decl.superClass);
      return;
    }
    var inherited, inheritedCodes := kc.superClass.vtableInfo, kc.superClass.vtable;
    for i := 0 to |inherited|
      invariant TablesHold(info[..], codes[..], Base(kc), i)
    {
      info[i] := inherited[i];
      codes[i] := inheritedCodes[i];
    }
  }

  method WriteSlot(kc: KClass, i: nat, info: array<KMethod?>, codes: array<CodeEntry>)
    requires kc.Described() && !kc.isInterface && i < |kc.methodInfo| && OffsetsSet(kc, |kc.methodInfo|)
    requires info.Length == codes.Length == |Vtable(kc.decl)|
    requires var v := Fill(Base(kc), kc.decl, i); TablesHold(info[..], codes[..], v, |v|)
    modifies info, codes
    ensures var v := Fill(Base(kc), kc.decl, i + 1); TablesHold(info[..], codes[..], v, |v|)
  {
    hide Vtable, Fill, Slot, WellFormed, NewSlots, FirstMatch, Overrides;
    FillStep(kc.decl, i);
    FillBounds(kc.decl, i + 1);
    var m := kc.methodInfo[i];
    if !m.decl.isStatic {
      var j := (m.offset - ARRAY_OVERHEAD - CLASS_SIZE) / 4;
      assert j == Slot(kc.decl, i);
      info[j] := m;
      codes[j] := m.entry;
    }
  }

  method WriteOwn(kc: KClass, info: array<KMethod?>, codes: array<CodeEntry>)
    requires kc.Described() && !kc.isInterface && OffsetsSet(kc, |kc.methodInfo|)
    requires info.Length == codes.Length == |Vtable(kc.decl)|
    requires TablesHold(info[..], codes[..], Base(kc), |Base(kc)|)
    modifies info, codes
    ensures TablesHold(info[..], codes[..], Vtable(kc.decl), |Vtable(kc.decl)|)
  {
    hide Vtable, Fill, TablesHold, OffsetsSet;
    FillBounds(kc.decl, |kc.methodInfo|);
    for i := 0 to |kc.methodInfo|
      invariant var v := Fill(Base(kc), kc.decl, i); TablesHold(info[..], codes[..], v, |v|)
    {
      WriteSlot(kc, i, info, codes);
    }
  }

  method PrepareInstanceVtable(kc: KClass, slots: nat)
    requires kc.Described() && SuperReady(kc) && !kc.isInterface && WellFormed(kc.decl)
    requires OffsetsSet(kc, |kc.methodInfo|) && slots == |Vtable(kc.decl)|
    modifies kc`vtableInfo, kc`vtable
    ensures kc.Prepared() && SuperReady(kc)
  {
    hide Vtable, Fill, WellFormed, OffsetsSet, ByteOffset;
    var info := new KMethod?[slots](_ => null);
    var codes := new CodeEntry[slots];
    FillBounds(kc.decl, 0);
    CopyInherited(kc, info, codes);
    WriteOwn(kc, info, codes);
    SuperDiffers(kc);
    kc.vtableInfo, kc.vtable := info[..], codes[..];
  }

  lemma SuperDiffers(kc: KClass)
    requires kc.Described()
    ensures kc.superClass != kc
  {
    assert kc.superClass != null ==> kc.superClass.decl == kc.decl.superClass;
  }
}
