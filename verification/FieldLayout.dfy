/** Field offsets: the instance fields of a whole superclass chain and the static fields of a class. */
module FieldLayout {
  /** The first character of the descriptor tells the type. */
  datatype FieldDecl = FieldDecl(kind: char, isStatic: bool)

  const OBJECT_OVERHEAD: nat := 4
  const REF_SIZE: nat := 4

  predicate IsRef(kind: char) {
    kind == 'L' || kind == '['
  }

  function TypeSize(kind: char): nat {
    match kind
    case 'B' => 1
    case 'Z' => 1
    case 'C' => 2
    case 'S' => 2
    case 'F' => 4
    case 'I' => 4
    case 'D' => 8
    case 'J' => 8
    case 'L' => 4
    case '[' => 4
    case _ => 0
  }

  /** How many values a field of the type can have; a reference is the address of a word. */
  function Values(kind: char): nat {
    if kind == 'Z' then 2
    else if kind == 'B' then 0x100
    else if kind == 'C' || kind == 'S' then 0x1_0000
    else if kind == 'J' || kind == 'D' then 0x1_0000_0000_0000_0000
    else if kind == 'I' || kind == 'F' || IsRef(kind) then 0x1_0000_0000
    else 0
  }

  function Patterns(bytes: nat): nat {
    if bytes == 0 then 1 else 0x100 * Patterns(bytes - 1)
  }

  /** A field has the fewest bytes that tell the values of its type apart, and none exactly when no
      descriptor starts with the character. */
  lemma SizeHoldsValues(kind: char)
    ensures TypeSize(kind) == 0 <==> Values(kind) == 0
    ensures Values(kind) <= Patterns(TypeSize(kind))
    ensures TypeSize(kind) > 0 ==> Patterns(TypeSize(kind) - 1) < Values(kind)
  {
    assert Patterns(1) == 0x100 && Patterns(2) == 0x1_0000 && Patterns(3) == 0x100_0000;
    assert Patterns(4) == 0x1_0000_0000 && Patterns(5) == 0x100_0000_0000 && Patterns(6) == 0x1_0000_0000_0000;
    assert Patterns(7) == 0x100_0000_0000_0000 && Patterns(8) == 0x1_0000_0000_0000_0000;
  }

  /** The fields one pass over the class places. */
  predicate Chosen(f: FieldDecl, isStatic: bool, ref: bool) {
    f.isStatic == isStatic && IsRef(f.kind) == ref
  }

  /** The bytes one pass over the first `n` fields takes. */
  function PassBytes(fields: seq<FieldDecl>, n: nat, isStatic: bool, ref: bool): nat
    requires n <= |fields|
  {
    if n == 0 then 0
    else
      var size := if Chosen(fields[n - 1], isStatic, ref) then TypeSize(fields[n - 1].kind) else 0;
      PassBytes(fields, n - 1, isStatic, ref) + size
  }

  function PassCount(fields: seq<FieldDecl>, n: nat, isStatic: bool, ref: bool): (r: nat)
    requires n <= |fields|
    ensures r <= n
  {
    if n == 0 then 0
    else PassCount(fields, n - 1, isStatic, ref) + if Chosen(fields[n - 1], isStatic, ref) then 1 else 0
  }

  /** The count of static references as the loops leave it. */
  function StaticRefs(fields: seq<FieldDecl>): nat {
    (PassCount(fields, |fields|, true, true) + PassCount(fields, |fields|, true, false)) % 0x100
  }

  function AllBytes(fields: seq<FieldDecl>, isStatic: bool): nat {
    PassBytes(fields, |fields|, isStatic, true) + PassBytes(fields, |fields|, isStatic, false)
  }

  lemma {:induction false} PassMono(fields: seq<FieldDecl>, i: nat, n: nat, isStatic: bool, ref: bool)
    requires i <= n <= |fields|
    ensures PassBytes(fields, i, isStatic, ref) <= PassBytes(fields, n, isStatic, ref)
    ensures PassCount(fields, i, isStatic, ref) <= PassCount(fields, n, isStatic, ref)
  {
    if i < n {
      PassMono(fields, i, n - 1, isStatic, ref);
    }
  }

  // ----- what a layout promises -----

  predicate Occupies(f: FieldDecl, offset: nat, b: nat) {
    offset <= b < offset + TypeSize(f.kind)
  }

  ghost predicate Covered(fields: seq<FieldDecl>, offsets: seq<nat>, placed: set<nat>, b: nat)
    requires |offsets| == |fields|
  {
    exists k :: k in placed && k < |fields| && Occupies(fields[k], offsets[k], b)
  }

  predicate Apart(f: FieldDecl, o: nat, g: FieldDecl, p: nat) {
    o + TypeSize(f.kind) <= p || p + TypeSize(g.kind) <= o
  }

  /** The placed fields tile the bytes from `lo` to `hi`: they lie there, apart from each other, and
      leave no byte out. */
  ghost predicate Tiles(fields: seq<FieldDecl>, offsets: seq<nat>, placed: set<nat>, lo: nat, hi: nat)
    requires |offsets| == |fields|
  {
    && (forall k :: k in placed ==> k < |fields| && lo <= offsets[k] && offsets[k] + TypeSize(fields[k].kind) <= hi)
    && (forall k :: k in placed ==> TypeSize(fields[k].kind) > 0)
    && (forall j, k :: j in placed && k in placed && j != k ==> Apart(fields[j], offsets[j], fields[k], offsets[k]))
    && (forall b: nat :: lo <= b < hi ==> Covered(fields, offsets, placed, b))
  }

  function Members(fields: seq<FieldDecl>, isStatic: bool): set<nat> {
    set k: nat | k < |fields| && fields[k].isStatic == isStatic
  }

  function Pass(fields: seq<FieldDecl>, n: nat, isStatic: bool, ref: bool): set<nat>
    requires n <= |fields|
  {
    set k: nat | k < n && Chosen(fields[k], isStatic, ref)
  }

  lemma PlaceNext(fields: seq<FieldDecl>, offsets: seq<nat>, placed: set<nat>, lo: nat, hi: nat, i: nat)
    requires |offsets| == |fields| && Tiles(fields, offsets, placed, lo, hi) && i < |fields| && i !in placed && lo <= hi
    requires TypeSize(fields[i].kind) > 0
    ensures Tiles(fields, offsets[i := hi], placed + {i}, lo, hi + TypeSize(fields[i].kind))
  {
    var o, p := offsets[i := hi], placed + {i};
    forall b: nat | lo <= b < hi + TypeSize(fields[i].kind) ensures Covered(fields, o, p, b) {
      if b < hi {
        assert Covered(fields, offsets, placed, b);
        var k :| k in placed && Occupies(fields[k], offsets[k], b);
        assert k in p && Occupies(fields[k], o[k], b);
      } else {
        assert i in p && Occupies(fields[i], o[i], b);
      }
    }
  }

  lemma PassNext(fields: seq<FieldDecl>, i: nat, isStatic: bool, ref: bool, placed: set<nat>)
    requires i < |fields|
    ensures placed + Pass(fields, i + 1, isStatic, ref) ==
            var p := placed + Pass(fields, i, isStatic, ref); if Chosen(fields[i], isStatic, ref) then p + {i} else p
    ensures i !in Pass(fields, i, isStatic, ref)
    ensures Chosen(fields[i], isStatic, ref) ==> i in Pass(fields, |fields|, isStatic, ref)
  {
  }

  // ----- the passes -----

  ghost predicate Sized(fields: seq<FieldDecl>, n: nat, isStatic: bool, ref: bool)
    requires n <= |fields|
  {
    forall k :: 0 <= k < n && Chosen(fields[k], isStatic, ref) ==> TypeSize(fields[k].kind) > 0
  }

  /** Only chosen fields changed. */
  ghost predicate OthersKept(fields: seq<FieldDecl>, before: seq<nat>, after: seq<nat>, isStatic: bool, ref: bool) {
    |before| == |after| == |fields| &&
    forall k :: 0 <= k < |fields| && !Chosen(fields[k], isStatic, ref) ==> after[k] == before[k]
  }

  /** One field of a pass: it gets the running offset, which its size moves on. */
  method LayOne(fields: seq<FieldDecl>, offsets: array<nat>, i: nat, ref: bool, start: nat, ghost placed: set<nat>,
                ghost lo: nat)
    returns (ok: bool, end: nat)
    requires offsets.Length == |fields| && lo <= start && i < |fields| && i !in placed && IsRef(fields[i].kind) == ref
    requires Tiles(fields, offsets[..], placed, lo, start) && start + TypeSize(fields[i].kind) < 0x1_0000
    modifies offsets
    ensures offsets[..] == old(offsets[..])[i := start]
    ensures ok <==> TypeSize(fields[i].kind) > 0
    ensures ok ==> end == start + TypeSize(fields[i].kind) && Tiles(fields, offsets[..], placed + {i}, lo, end)
  {
    hide Tiles, TypeSize;
    ghost var before := offsets[..];
    RefSize(fields[i].kind);
    offsets[i] := start;
    assert offsets[..] == before[i := start];
    var size := if ref then REF_SIZE else TypeSize(fields[i].kind);
    if size == 0 {
      return false, 0;
    }
    PlaceNext(fields, before, placed, lo, start, i);
    end := (start + size) % 0x1_0000;
    ok := true;
  }

  /** The fields of a pass among the first `n` lie one behind the other from `start` on, in the order of the
      class file. */
  ghost predicate PassLaid(fields: seq<FieldDecl>, n: nat, offsets: seq<nat>, isStatic: bool, ref: bool, start: nat)
    requires n <= |fields| == |offsets|
  {
    forall k :: 0 <= k < n && Chosen(fields[k], isStatic, ref) ==>
                  offsets[k] == start + PassBytes(fields, k, isStatic, ref)
  }

  /** References from `lo` on, the other fields behind them. */
  ghost predicate RefsThenOthers(fields: seq<FieldDecl>, offsets: seq<nat>, isStatic: bool, lo: nat)
    requires |fields| == |offsets|
  {
    && PassLaid(fields, |fields|, offsets, isStatic, true, lo)
    && PassLaid(fields, |fields|, offsets, isStatic, false, lo + PassBytes(fields, |fields|, isStatic, true))
  }

  lemma PassLaidKept(fields: seq<FieldDecl>, before: seq<nat>, after: seq<nat>, isStatic: bool, ref: bool, start: nat)
    requires |fields| == |before| && PassLaid(fields, |fields|, before, isStatic, ref, start)
    requires OthersKept(fields, before, after, isStatic, !ref)
    ensures PassLaid(fields, |fields|, after, isStatic, ref, start)
  {
  }

  lemma PassLaidNext(fields: seq<FieldDecl>, before: seq<nat>, i: nat, isStatic: bool, ref: bool, start: nat)
    requires i < |fields| == |before| && PassLaid(fields, i, before, isStatic, ref, start)
    ensures var after := before[i := start + PassBytes(fields, i, isStatic, ref)];
            PassLaid(fields, i + 1, if Chosen(fields[i], isStatic, ref) then after else before, isStatic, ref, start)
  {
  }

  lemma PassStep(fields: seq<FieldDecl>, first: seq<nat>, before: seq<nat>, i: nat, v: nat, isStatic: bool, ref: bool)
    requires i < |fields| && OthersKept(fields, first, before, isStatic, ref) && Sized(fields, i, isStatic, ref)
    ensures Chosen(fields[i], isStatic, ref) ==> OthersKept(fields, first, before[i := v], isStatic, ref)
    ensures Sized(fields, i + 1, isStatic, ref) <==> (Chosen(fields[i], isStatic, ref) ==> TypeSize(fields[i].kind) > 0)
    ensures Sized(fields, |fields|, isStatic, ref) ==> Sized(fields, i + 1, isStatic, ref)
    ensures PassBytes(fields, i + 1, isStatic, ref) ==
            PassBytes(fields, i, isStatic, ref)
            + if Chosen(fields[i], isStatic, ref) then TypeSize(fields[i].kind) else 0
    ensures PassCount(fields, i + 1, isStatic, ref) ==
            PassCount(fields, i, isStatic, ref) + if Chosen(fields[i], isStatic, ref) then 1 else 0
  {
  }

  /** One pass: every chosen field gets the running offset. A pass over non-references stops at a
      descriptor whose type has no size. */
  method LayPass(fields: seq<FieldDecl>, offsets: array<nat>, isStatic: bool, ref: bool, start: nat, count: nat,
                 ghost placed: set<nat>, ghost lo: nat)
    returns (ok: bool, end: nat, total: nat)
    requires offsets.Length == |fields| && count < 0x100 && lo <= start
    requires placed !! Pass(fields, |fields|, isStatic, ref)
    requires Tiles(fields, offsets[..], placed, lo, start)
    requires start + PassBytes(fields, |fields|, isStatic, ref) < 0x1_0000
    modifies offsets
    ensures ok <==> Sized(fields, |fields|, isStatic, ref)
    ensures ok ==> end == start + PassBytes(fields, |fields|, isStatic, ref)
    ensures ok ==> total == (count + PassCount(fields, |fields|, isStatic, ref)) % 0x100
    ensures ok ==> Tiles(fields, offsets[..], placed + Pass(fields, |fields|, isStatic, ref), lo, end)
    ensures ok ==> PassLaid(fields, |fields|, offsets[..], isStatic, ref, start)
    ensures OthersKept(fields, old(offsets[..]), offsets[..], isStatic, ref)
  {
    hide Tiles, Pass, TypeSize, OthersKept, Sized, PassBytes, PassCount, PassLaid;
    end, total := start, count;
    PassStart(fields, offsets[..], isStatic, ref, start);
    ghost var done := placed;
    assert placed + Pass(fields, 0, isStatic, ref) == placed by { PassNone(fields, isStatic, ref); }
    for i := 0 to |fields|
      invariant Sized(fields, i, isStatic, ref)
      invariant end == start + PassBytes(fields, i, isStatic, ref)
      invariant total == (count + PassCount(fields, i, isStatic, ref)) % 0x100
      invariant done == placed + Pass(fields, i, isStatic, ref) && Tiles(fields, offsets[..], done, lo, end)
      invariant PassLaid(fields, i, offsets[..], isStatic, ref, start)
      invariant OthersKept(fields, old(offsets[..]), offsets[..], isStatic, ref)
    {
      PassLaidNext(fields, offsets[..], i, isStatic, ref, start);
      PassMono(fields, i + 1, |fields|, isStatic, ref);
      PassNext(fields, i, isStatic, ref, placed);
      PassStep(fields, old(offsets[..]), offsets[..], i, end, isStatic, ref);
      if Chosen(fields[i], isStatic, ref) {
        total := (total + 1) % 0x100;
        ok, end := LayOne(fields, offsets, i, ref, end, done, lo);
        if !ok {
          return false, 0, 0;
        }
        done := done + {i};
      }
    }
    ok := true;
  }

  lemma PassStart(fields: seq<FieldDecl>, offsets: seq<nat>, isStatic: bool, ref: bool, start: nat)
    requires |offsets| == |fields|
    ensures OthersKept(fields, offsets, offsets, isStatic, ref) && Sized(fields, 0, isStatic, ref)
    ensures PassBytes(fields, 0, isStatic, ref) == PassCount(fields, 0, isStatic, ref) == 0
    ensures PassLaid(fields, 0, offsets, isStatic, ref, start)
  {
  }

  lemma PassNone(fields: seq<FieldDecl>, isStatic: bool, ref: bool)
    ensures Pass(fields, 0, isStatic, ref) == {}
  {
  }

  lemma RefSize(kind: char)
    ensures IsRef(kind) ==> TypeSize(kind) == REF_SIZE
  {
  }

  // ----- all passes -----

  lemma TwoPasses(fields: seq<FieldDecl>, isStatic: bool)
    ensures {} + Pass(fields, |fields|, isStatic, true) + Pass(fields, |fields|, isStatic, false) ==
            Members(fields, isStatic)
    ensures {} !! Pass(fields, |fields|, isStatic, true)
    ensures ({} + Pass(fields, |fields|, isStatic, true)) !! Pass(fields, |fields|, isStatic, false)
  {
  }

  lemma NothingTiles(fields: seq<FieldDecl>, offsets: seq<nat>, lo: nat)
    requires |offsets| == |fields|
    ensures Tiles(fields, offsets, {}, lo, lo)
  {
  }

  /** References first, then the other fields; static or instance fields. */
  method LayTwice(fields: seq<FieldDecl>, offsets: array<nat>, isStatic: bool, start: nat, count: nat)
    returns (ok: bool, end: nat, refs: nat, total: nat)
    requires offsets.Length == |fields| && count < 0x100 && start + AllBytes(fields, isStatic) < 0x1_0000
    modifies offsets
    ensures ok <==> Sized(fields, |fields|, isStatic, false)
    ensures ok ==> end == start + AllBytes(fields, isStatic)
    ensures ok ==> Tiles(fields, offsets[..], Members(fields, isStatic), start, end)
    ensures ok ==> RefsThenOthers(fields, offsets[..], isStatic, start)
    ensures ok ==> refs == (count + PassCount(fields, |fields|, isStatic, true)) % 0x100
    ensures ok ==> total == (refs + PassCount(fields, |fields|, isStatic, false)) % 0x100
    ensures KindKept(fields, old(offsets[..]), offsets[..], !isStatic)
  {
    hide Tiles, Pass, TypeSize, Sized, PassLaid;
    TwoPasses(fields, isStatic);
    NothingTiles(fields, offsets[..], start);
    RefsSized(fields, isStatic);
    ghost var none: set<nat> := {};
    ok, end, refs := LayPass(fields, offsets, isStatic, true, start, count, none, start);
    ghost var placed := none + Pass(fields, |fields|, isStatic, true);
    ghost var before := offsets[..];
    ok, end, total := LayPass(fields, offsets, isStatic, false, end, refs, placed, start);
    PassLaidKept(fields, before, offsets[..], isStatic, true, start);
  }

  lemma RefsSized(fields: seq<FieldDecl>, isStatic: bool)
    ensures Sized(fields, |fields|, isStatic, true)
  {
  }

  ghost predicate KindKept(fields: seq<FieldDecl>, before: seq<nat>, after: seq<nat>, isStatic: bool) {
    |before| == |after| == |fields| &&
    forall k :: 0 <= k < |fields| && fields[k].isStatic == isStatic ==> after[k] == before[k]
  }

  lemma TilesKept(fields: seq<FieldDecl>, before: seq<nat>, after: seq<nat>, isStatic: bool, lo: nat, hi: nat)
    requires KindKept(fields, before, after, isStatic) && Tiles(fields, before, Members(fields, isStatic), lo, hi)
    requires RefsThenOthers(fields, before, isStatic, lo)
    ensures Tiles(fields, after, Members(fields, isStatic), lo, hi) && RefsThenOthers(fields, after, isStatic, lo)
  {
    forall b: nat | lo <= b < hi ensures Covered(fields, after, Members(fields, isStatic), b) {
      assert Covered(fields, before, Members(fields, isStatic), b);
    }
  }

  // ----- the order of the fields -----

  /** References lie in front of other fields, and fields alike in that in the order of the class file. */
  ghost predicate Ordered(fields: seq<FieldDecl>, offsets: seq<nat>, isStatic: bool)
    requires |fields| == |offsets|
  {
    forall j, k :: (0 <= j < |fields| && 0 <= k < |fields| && fields[j].isStatic == fields[k].isStatic == isStatic
                    && Before(fields[j].kind, j, fields[k].kind, k)) ==> offsets[j] < offsets[k]
  }

  predicate Before(f: char, j: int, g: char, k: int) {
    if IsRef(f) == IsRef(g) then j < k else IsRef(f)
  }

  /** Byte `b` belongs to a reference. */
  ghost predicate RefOn(fields: seq<FieldDecl>, offsets: seq<nat>, isStatic: bool, b: nat)
    requires |fields| == |offsets|
  {
    exists k :: 0 <= k < |fields| && Chosen(fields[k], isStatic, true) && Occupies(fields[k], offsets[k], b)
  }

  function RefCount(fields: seq<FieldDecl>, isStatic: bool): nat {
    PassCount(fields, |fields|, isStatic, true)
  }

  /** The references are exactly the first words from `lo` on. */
  ghost predicate RefsFirst(fields: seq<FieldDecl>, offsets: seq<nat>, isStatic: bool, lo: nat)
    requires |fields| == |offsets|
  {
    forall b: nat :: RefOn(fields, offsets, isStatic, b) <==> lo <= b < lo + REF_SIZE * RefCount(fields, isStatic)
  }

  lemma {:induction false} RefBytes(fields: seq<FieldDecl>, n: nat, isStatic: bool)
    requires n <= |fields|
    ensures PassBytes(fields, n, isStatic, true) == REF_SIZE * PassCount(fields, n, isStatic, true)
  {
    if n > 0 {
      RefBytes(fields, n - 1, isStatic);
      RefSize(fields[n - 1].kind);
    }
  }

  lemma {:induction false} RefWithByte(fields: seq<FieldDecl>, n: nat, offsets: seq<nat>, isStatic: bool, lo: nat,
                                       b: nat)
    returns (k: nat)
    requires n <= |fields| == |offsets| && PassLaid(fields, n, offsets, isStatic, true, lo)
    requires lo <= b < lo + PassBytes(fields, n, isStatic, true)
    ensures k < n && Chosen(fields[k], isStatic, true) && Occupies(fields[k], offsets[k], b)
  {
    if b < lo + PassBytes(fields, n - 1, isStatic, true) {
      k := RefWithByte(fields, n - 1, offsets, isStatic, lo, b);
    } else {
      k := n - 1;
    }
  }

  lemma FieldBehind(fields: seq<FieldDecl>, j: nat, n: nat, isStatic: bool, ref: bool)
    requires j < n <= |fields| && Chosen(fields[j], isStatic, ref)
    ensures PassBytes(fields, j, isStatic, ref) + TypeSize(fields[j].kind) <= PassBytes(fields, n, isStatic, ref)
  {
    PassMono(fields, j + 1, n, isStatic, ref);
  }

  lemma RefsAreFirst(fields: seq<FieldDecl>, offsets: seq<nat>, isStatic: bool, lo: nat)
    requires |fields| == |offsets| && RefsThenOthers(fields, offsets, isStatic, lo)
    ensures RefsFirst(fields, offsets, isStatic, lo)
  {
    RefBytes(fields, |fields|, isStatic);
    var hi := lo + PassBytes(fields, |fields|, isStatic, true);
    forall b: nat ensures RefOn(fields, offsets, isStatic, b) <==> lo <= b < hi {
      if lo <= b < hi {
        var k := RefWithByte(fields, |fields|, offsets, isStatic, lo, b);
      }
      if RefOn(fields, offsets, isStatic, b) {
        var k :| 0 <= k < |fields| && Chosen(fields[k], isStatic, true) && Occupies(fields[k], offsets[k], b);
        FieldBehind(fields, k, |fields|, isStatic, true);
      }
    }
  }

  lemma FieldsOrdered(fields: seq<FieldDecl>, offsets: seq<nat>, isStatic: bool, lo: nat)
    requires |fields| == |offsets| && RefsThenOthers(fields, offsets, isStatic, lo)
    requires Sized(fields, |fields|, isStatic, false)
    ensures Ordered(fields, offsets, isStatic)
  {
    hide TypeSize;
    forall j, k | 0 <= j < |fields| && 0 <= k < |fields| && fields[j].isStatic == fields[k].isStatic == isStatic
                  && Before(fields[j].kind, j, fields[k].kind, k)
      ensures offsets[j] < offsets[k]
    {
      RefSize(fields[j].kind);
      FieldBehind(fields, j, if IsRef(fields[j].kind) == IsRef(fields[k].kind) then k else |fields|, isStatic,
                  IsRef(fields[j].kind));
    }
  }

  /** `prepare_fields`: the static fields tile the static data, the instance fields the bytes behind
      the superclass's. The reference count kept for the static data counts all static fields. */
  method PrepareFields(fields: seq<FieldDecl>, isInterface: bool, superSize: nat, superRefs: nat, offsets: array<nat>)
    returns (ok: bool, staticSize: nat, staticRefs: nat, instanceSize: nat, instanceRefs: nat)
    requires offsets.Length == |fields| && superRefs < 0x100
    requires AllBytes(fields, true) < 0x1_0000 && superSize + AllBytes(fields, false) < 0x1_0000
    modifies offsets
    ensures ok <==> Sized(fields, |fields|, true, false) && (isInterface || Sized(fields, |fields|, false, false))
    ensures ok ==> Tiles(fields, offsets[..], Members(fields, true), 0, staticSize)
    ensures ok ==> Ordered(fields, offsets[..], true) && RefsFirst(fields, offsets[..], true, 0)
    ensures ok ==> staticRefs == StaticRefs(fields)
    ensures ok && !isInterface ==> Tiles(fields, offsets[..], Members(fields, false), superSize, instanceSize)
    ensures ok && !isInterface ==>
            Ordered(fields, offsets[..], false) && RefsFirst(fields, offsets[..], false, superSize)
    ensures ok && !isInterface ==> instanceSize == superSize + AllBytes(fields, false)
    ensures ok && !isInterface ==> instanceRefs == (superRefs + PassCount(fields, |fields|, false, true)) % 0x100
  {
    hide Tiles, Sized, Members, AllBytes, PassCount, Ordered, RefsFirst, RefsThenOthers, KindKept;
    var refs, total;
    ok, staticSize, refs, staticRefs := LayTwice(fields, offsets, true, 0, 0);
    if ok {
      RefsAreFirst(fields, offsets[..], true, 0);
      FieldsOrdered(fields, offsets[..], true, 0);
    }
    instanceSize, instanceRefs := 0, 0;
    if !ok || isInterface {
      return;
    }
    ghost var before := offsets[..];
    ok, instanceSize, instanceRefs, total := LayTwice(fields, offsets, false, superSize, superRefs);
    if ok {
      TilesKept(fields, before, offsets[..], true, 0, staticSize);
      RefsAreFirst(fields, offsets[..], true, 0);
      FieldsOrdered(fields, offsets[..], true, 0);
      RefsAreFirst(fields, offsets[..], false, superSize);
      FieldsOrdered(fields, offsets[..], false, superSize);
    }
  }

  /** It is the number of static references, in its one byte, exactly when the number of the other static
      fields is a multiple of 256. */
  lemma StaticRefsIff(fields: seq<FieldDecl>)
    ensures StaticRefs(fields) == PassCount(fields, |fields|, true, true) % 0x100 <==>
            PassCount(fields, |fields|, true, false) % 0x100 == 0
  {
    hide PassCount;
    ByteSum(PassCount(fields, |fields|, true, true), PassCount(fields, |fields|, true, false));
  }

  lemma ByteSum(a: nat, b: nat)
    ensures (a + b) % 0x100 == a % 0x100 <==> b % 0x100 == 0
  {
    var q, r := b / 0x100, b % 0x100;
    assert a + b == (a + r) + 0x100 * q;
    assert (a + b) % 0x100 == (a + r) % 0x100;
  }

  /** A class with one static int: the collector is told of one reference. */
  lemma StaticIntCounted()
    ensures var fields := [FieldDecl('I', true)];
            && Sized(fields, 1, true, false) && PassCount(fields, 1, true, true) == 0 && StaticRefs(fields) == 1
  {
    var fields := [FieldDecl('I', true)];
    assert PassCount(fields, 0, true, true) == PassCount(fields, 0, true, false) == 0;
  }

  // ----- the whole superclass chain -----

  /** A class whose fields are laid out, above its superclass; Root stands for no superclass. */
  datatype Laid = Root | Laid(super: Laid, fields: seq<FieldDecl>, offsets: seq<nat>, size: nat, refs: nat)

  function SizeOf(l: Laid): nat {
    if l.Root? then OBJECT_OVERHEAD else l.size
  }

  function RefsOf(l: Laid): nat {
    if l.Root? then 0 else l.refs
  }

  /** Each class of the chain was prepared on its superclass's size and reference count. */
  ghost predicate ChainLaid(l: Laid) {
    l.Laid? ==>
      && ChainLaid(l.super) && |l.offsets| == |l.fields| && l.size == SizeOf(l.super) + AllBytes(l.fields, false)
      && Tiles(l.fields, l.offsets, Members(l.fields, false), SizeOf(l.super), l.size)
      && Ordered(l.fields, l.offsets, false) && RefsFirst(l.fields, l.offsets, false, SizeOf(l.super))
      && l.refs == (RefsOf(l.super) + PassCount(l.fields, |l.fields|, false, true)) % 0x100
  }

  function ChainBytes(chain: seq<seq<FieldDecl>>, n: nat): nat
    requires n <= |chain|
  {
    if n == 0 then OBJECT_OVERHEAD else ChainBytes(chain, n - 1) + AllBytes(chain[n - 1], false)
  }

  lemma {:induction false} ChainBytesMono(chain: seq<seq<FieldDecl>>, i: nat, n: nat)
    requires i <= n <= |chain|
    ensures ChainBytes(chain, i) <= ChainBytes(chain, n)
  {
    if i < n {
      ChainBytesMono(chain, i, n - 1);
    }
  }

  /** The field lists of a laid out chain, the root's first. */
  function Lists(l: Laid): seq<seq<FieldDecl>> {
    if l.Root? then [] else Lists(l.super) + [l.fields]
  }

  /** One class of the chain: its superclass's size and count go in, its own come out. */
  method PrepareClass(super: Laid, fields: seq<FieldDecl>) returns (ok: bool, l: Laid)
    requires ChainLaid(super) && AllBytes(fields, true) < 0x1_0000 && SizeOf(super) + AllBytes(fields, false) < 0x1_0000
    ensures ok <==> Sized(fields, |fields|, true, false) && Sized(fields, |fields|, false, false)
    ensures ok ==> ChainLaid(l) && Lists(l) == Lists(super) + [fields]
    ensures ok ==> SizeOf(l) == SizeOf(super) + AllBytes(fields, false)
  {
    hide Tiles, Sized, Members, AllBytes, PassCount, Ordered, RefsFirst;
    var offsets := new nat[|fields|];
    RefsCounted(super);
    var staticSize, staticRefs, size, refs;
    ok, staticSize, staticRefs, size, refs := PrepareFields(fields, false, SizeOf(super), RefsOf(super), offsets);
    l := if ok then Laid(super, fields, offsets[..], size, refs) else super;
  }

  /** A chain of classes prepared from the root down is laid out unless a field has no size; the last
      instance size is the header and the bytes of all fields. */
  method PrepareChain(chain: seq<seq<FieldDecl>>) returns (ok: bool, l: Laid)
    requires forall i :: 0 <= i < |chain| ==> AllBytes(chain[i], true) < 0x1_0000
    requires ChainBytes(chain, |chain|) < 0x1_0000
    ensures ok <==> forall i :: 0 <= i < |chain| ==>
                      Sized(chain[i], |chain[i]|, true, false) && Sized(chain[i], |chain[i]|, false, false)
    ensures ok ==> ChainLaid(l) && Lists(l) == chain && SizeOf(l) == ChainBytes(chain, |chain|)
  {
    hide ChainLaid, Sized, AllBytes;
    l := Root;
    assert ChainLaid(l) by { NothingLaid(); }
    for i := 0 to |chain|
      invariant forall j :: 0 <= j < i ==>
                  Sized(chain[j], |chain[j]|, true, false) && Sized(chain[j], |chain[j]|, false, false)
      invariant ChainLaid(l) && Lists(l) == chain[..i] && SizeOf(l) == ChainBytes(chain, i)
    {
      ChainBytesMono(chain, i + 1, |chain|);
      ok, l := PrepareClass(l, chain[i]);
      if !ok {
        return;
      }
    }
    ok := true;
  }

  lemma NothingLaid()
    ensures ChainLaid(Root)
  {
  }

  /** Instance field `k` of class `a` of the chain lies on byte `b` of an object. */
  ghost predicate FieldOn(l: Laid, a: Laid, k: nat, b: nat) {
    l.Laid? &&
    if a == l then k < |l.fields| && k < |l.offsets| && !l.fields[k].isStatic && Occupies(l.fields[k], l.offsets[k], b)
    else FieldOn(l.super, a, k, b)
  }

  function ChainRefs(l: Laid): nat {
    if l.Root? then 0 else ChainRefs(l.super) + PassCount(l.fields, |l.fields|, false, true)
  }

  lemma {:induction false} FieldInside(l: Laid, a: Laid, k: nat, b: nat)
    requires ChainLaid(l) && FieldOn(l, a, k, b)
    ensures OBJECT_OVERHEAD <= b < SizeOf(l)
    ensures a == l ==> SizeOf(l.super) <= b
  {
    RootSize(l.super);
    if a != l {
      FieldInside(l.super, a, k, b);
    } else {
      assert k in Members(l.fields, false);
    }
  }

  lemma {:induction false} RootSize(l: Laid)
    requires ChainLaid(l)
    ensures SizeOf(l) >= OBJECT_OVERHEAD
  {
    if l.Laid? {
      RootSize(l.super);
    }
  }

  /** No two fields of the chain, own or inherited, share a byte. */
  lemma {:induction false} FieldsDisjoint(l: Laid, a: Laid, j: nat, c: Laid, k: nat, b: nat)
    requires ChainLaid(l) && FieldOn(l, a, j, b) && FieldOn(l, c, k, b)
    ensures a == c && j == k
  {
    FieldInside(l, a, j, b);
    FieldInside(l, c, k, b);
    if a == l && c == l {
      assert j in Members(l.fields, false) && k in Members(l.fields, false);
    } else if a == l {
      FieldInside(l.super, c, k, b);
    } else if c == l {
      FieldInside(l.super, a, j, b);
    } else {
      FieldsDisjoint(l.super, a, j, c, k, b);
    }
  }

  /** Every byte behind the object header up to the instance size belongs to a field of the chain. */
  lemma {:induction false} BytesTaken(l: Laid, b: nat) returns (a: Laid, k: nat)
    requires ChainLaid(l) && OBJECT_OVERHEAD <= b < SizeOf(l)
    ensures FieldOn(l, a, k, b)
  {
    if b < SizeOf(l.super) {
      a, k := BytesTaken(l.super, b);
      NotItself(l, a, k, b);
    } else {
      assert Covered(l.fields, l.offsets, Members(l.fields, false), b);
      k :| k in Members(l.fields, false) && k < |l.fields| && Occupies(l.fields[k], l.offsets[k], b);
      a := l;
    }
  }

  lemma {:induction false} NotItself(l: Laid, a: Laid, k: nat, b: nat)
    requires l.Laid? && FieldOn(l.super, a, k, b)
    ensures a != l
  {
    FieldSmaller(l.super, a, k, b);
  }

  function Height(l: Laid): nat {
    if l.Root? then 0 else 1 + Height(l.super)
  }

  lemma {:induction false} FieldSmaller(l: Laid, a: Laid, k: nat, b: nat)
    requires FieldOn(l, a, k, b)
    ensures Height(a) <= Height(l)
  {
    if a != l {
      FieldSmaller(l.super, a, k, b);
    }
  }

  /** The count kept for the collector is that of the references of the whole chain, in one byte. */
  lemma {:induction false} RefsCounted(l: Laid)
    requires ChainLaid(l)
    ensures RefsOf(l) == ChainRefs(l) % 0x100
  {
    hide Tiles, Members, Ordered, RefsFirst, PassCount, PassBytes, AllBytes;
    if l.Laid? {
      RefsCounted(l.super);
      ByteCarried(ChainRefs(l.super), PassCount(l.fields, |l.fields|, false, true));
    }
  }

  lemma ByteCarried(a: nat, b: nat)
    ensures (a % 0x100 + b) % 0x100 == (a + b) % 0x100
  {
  }

  // ----- the references of a chain -----

  /** Byte `b` of an object belongs to a reference of a class of the chain. */
  ghost predicate ChainRefOn(l: Laid, b: nat) {
    l.Laid? && |l.offsets| == |l.fields| && (RefOn(l.fields, l.offsets, false, b) || ChainRefOn(l.super, b))
  }

  /** The counted references are the first words behind the header. */
  ghost predicate Aggregated(l: Laid) {
    forall b: nat :: ChainRefOn(l, b) <==> OBJECT_OVERHEAD <= b < OBJECT_OVERHEAD + REF_SIZE * ChainRefs(l)
  }

  /** All instance fields of the chain are references. */
  predicate OnlyRefs(l: Laid) {
    l.Laid? ==> OnlyRefs(l.super) && PassCount(l.fields, |l.fields|, false, false) == 0
  }

  /** No class with a reference has a superclass with another field. */
  predicate RefsOnTop(l: Laid) {
    l.Laid? ==> RefsOnTop(l.super) && (RefCount(l.fields, false) > 0 ==> OnlyRefs(l.super))
  }

  lemma {:induction false} CountedBytes(fields: seq<FieldDecl>, n: nat, isStatic: bool)
    requires n <= |fields| && Sized(fields, |fields|, isStatic, false)
    ensures PassBytes(fields, n, isStatic, false) == 0 <==> PassCount(fields, n, isStatic, false) == 0
  {
    hide TypeSize;
    if n > 0 {
      CountedBytes(fields, n - 1, isStatic);
    }
  }

  lemma TilesSized(fields: seq<FieldDecl>, offsets: seq<nat>, lo: nat, hi: nat)
    requires |offsets| == |fields| && Tiles(fields, offsets, Members(fields, false), lo, hi)
    ensures Sized(fields, |fields|, false, false)
  {
    hide TypeSize;
    forall k | 0 <= k < |fields| && Chosen(fields[k], false, false) ensures TypeSize(fields[k].kind) > 0 {
      assert k in Members(fields, false);
    }
  }

  lemma {:induction false} OnlyRefsIff(l: Laid)
    requires ChainLaid(l)
    ensures SizeOf(l) >= OBJECT_OVERHEAD + REF_SIZE * ChainRefs(l)
    ensures OnlyRefs(l) <==> SizeOf(l) == OBJECT_OVERHEAD + REF_SIZE * ChainRefs(l)
    ensures OnlyRefs(l) ==> RefsOnTop(l)
  {
    hide Tiles, Members, Sized, Ordered, RefsFirst, PassBytes, PassCount;
    if l.Laid? {
      OnlyRefsIff(l.super);
      RefBytes(l.fields, |l.fields|, false);
      TilesSized(l.fields, l.offsets, SizeOf(l.super), l.size);
      CountedBytes(l.fields, |l.fields|, false);
    }
  }

  lemma {:induction false} ChainRefInside(l: Laid, b: nat)
    requires ChainLaid(l) && ChainRefOn(l, b)
    ensures b < SizeOf(l)
  {
    hide Tiles, Members, Sized, Ordered, PassBytes, PassCount;
    if RefOn(l.fields, l.offsets, false, b) {
      RefBytes(l.fields, |l.fields|, false);
    } else {
      ChainRefInside(l.super, b);
    }
  }

  /** The collector is told only how many references an object has, for they are meant to be its first words;
      with inherited fields they are exactly when no class with a reference extends one with another field. */
  lemma {:induction false} AggregatedIff(l: Laid)
    requires ChainLaid(l)
    ensures Aggregated(l) <==> RefsOnTop(l)
  {
    hide Tiles, Members, Sized, Ordered, PassBytes, PassCount;
    if l.Laid? {
      AggregatedIff(l.super);
      OnlyRefsIff(l.super);
      var low, n := SizeOf(l.super), RefCount(l.fields, false);
      if n > 0 && Aggregated(l) {
        assert RefOn(l.fields, l.offsets, false, low + REF_SIZE * n - 1);
        assert ChainRefOn(l, low + REF_SIZE * n - 1);
      }
      forall b: nat ensures ChainRefOn(l, b) <==> ChainRefOn(l.super, b) || low <= b < low + REF_SIZE * n {
      }
    }
  }

  /** A class with an int, and a subclass with a reference: the one reference counted is the second word. */
  lemma ReferenceBehindInt(a: Laid, l: Laid)
    requires ChainLaid(l) && l.Laid? && l.super == a && a.Laid? && a.super == Root
    requires a.fields == [FieldDecl('I', false)] && l.fields == [FieldDecl('L', false)]
    ensures ChainRefs(l) == 1 && !Aggregated(l)
    ensures !ChainRefOn(l, OBJECT_OVERHEAD) && ChainRefOn(l, OBJECT_OVERHEAD + REF_SIZE)
  {
    hide Tiles, Members, Sized, Ordered;
    CountOne(a.fields, 'I');
    CountOne(l.fields, 'L');
    AggregatedIff(l);
    assert ChainRefs(a) == 0 && RefCount(l.fields, false) == 1 && !OnlyRefs(a);
    assert SizeOf(a) == 8 && OBJECT_OVERHEAD + REF_SIZE == 8;
    assert !RefOn(a.fields, a.offsets, false, OBJECT_OVERHEAD) && !ChainRefOn(a, OBJECT_OVERHEAD);
    assert RefOn(l.fields, l.offsets, false, 8);
    assert !RefOn(l.fields, l.offsets, false, OBJECT_OVERHEAD);
  }

  lemma CountOne(fields: seq<FieldDecl>, kind: char)
    requires fields == [FieldDecl(kind, false)]
    ensures PassCount(fields, |fields|, false, true) == if IsRef(kind) then 1 else 0
    ensures PassCount(fields, |fields|, false, false) == if IsRef(kind) then 0 else 1
    ensures PassBytes(fields, |fields|, false, true) + PassBytes(fields, |fields|, false, false) == TypeSize(kind)
  {
    assert PassCount(fields, 0, false, true) == PassCount(fields, 0, false, false) == 0;
    assert PassBytes(fields, 0, false, true) == PassBytes(fields, 0, false, false) == 0;
  }
}
