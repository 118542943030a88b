/** `generate_code`: prolog, bytecodes, handlers, epilog, and the patch loop. */
module Generator {
  import opened Words
  import opened X86
  import opened Encoding
  import opened CodeStream
  import opened Bytecode
  import opened Frame
  import opened Templates
  import opened Placement
  import opened Reachability
  import opened Room
  import opened Patching
  import opened Emitter
  import opened CodeGen
  import opened Compiler
  import Descriptors

  /** The bytes of a patched jump: only the last four differ from those of the placeholder. */
  lemma PatchBytes(c: Code, k: int, d: Int32)
    requires 0 <= k < |c| && (c[k].JmpRel? || c[k].JccRel?)
    ensures 4 <= Offset(c, k + 1) <= |EncodeAll(c)|
    ensures EncodeAll(c[k := WithRel(c[k], d)]) ==
            EncodeAll(c)[..Offset(c, k + 1) - 4] + Rel32(d) + EncodeAll(c)[Offset(c, k + 1)..]
  {
    hide Offset, EncodeAll, Encode, Imm32;
    var i := WithRel(c[k], d);
    WithRelSize(c[k], d);
    EncodeAllUpdate(c, k, i);
    EncodeAllAt(c, k);
    JumpBytes(c[k]);
    JumpBytes(i);
    var e := EncodeAll(c);
    var b := Encode(c[k]);
    assert e[Offset(c, k)..] == b + e[Offset(c, k + 1)..];
    assert e == e[..Offset(c, k)] + (b + e[Offset(c, k + 1)..]);
    assert e[..Offset(c, k + 1) - 4] == e[..Offset(c, k)] + b[..|b| - 4];
    assert Encode(i) == b[..|b| - 4] + Rel32(d);
  }

  lemma JumpBytes(i: EncInstr)
    requires i.JmpRel? || i.JccRel?
    ensures |Encode(i)| >= 4
    ensures Encode(i)[|Encode(i)| - 4..] == Rel32(i.rel)
    ensures forall d :: Encode(WithRel(i, d))[..|Encode(i)| - 4] == Encode(i)[..|Encode(i)| - 4]
  {
    hide Imm32;
  }

  /** The bytes of `c` are in the buffer. */
  ghost predicate Loaded(buf: array<Byte>, c: Code)
    reads buf
  {
    |EncodeAll(c)| <= buf.Length && buf[..|EncodeAll(c)|] == EncodeAll(c)
  }

  /** Writes one displacement: `value` into the four bytes below `at`. */
  method PatchJump(buf: array<Byte>, at: int, value: int, ghost c: Code, ghost k: int)
    requires 0 <= k < |c| && (c[k].JmpRel? || c[k].JccRel?) && at == Offset(c, k + 1)
    requires Loaded(buf, c)
    modifies buf
    ensures Loaded(buf, c[k := WithRel(c[k], AsInt32(value))])
  {
    hide Offset, EncodeAll, Encode, Imm32;
    ghost var d := AsInt32(value);
    PatchBytes(c, k, d);
    ghost var e := EncodeAll(c);
    var u := Wrap(value);
    WrapSigned(u);
    assert Rel32(d) == Imm32(u);
    ghost var was := buf[..];
    var r := PutImm32(buf, at - 4, u);
    assert buf[at..] == was[at..];
    assert was[at..|e|] == e[at..];
    assert buf[..][at..|e|] == buf[at..][..|e| - at] == was[at..][..|e| - at] == was[at..|e|];
    WriteTail(buf[..], e, at, Imm32(u));
  }

  /** Overwriting four bytes, seen on the contents. */
  lemma WriteTail(now: seq<Byte>, e: seq<Byte>, at: int, four: seq<Byte>)
    requires 4 <= at <= |e| <= |now| && |four| == 4
    requires now[..at] == e[..at - 4] + four && now[at..|e|] == e[at..]
    ensures now[..|e|] == e[..at - 4] + four + e[at..]
  {
    assert now[..|e|] == now[..at] + now[at..|e|];
  }

  /** What the records say about branch `p`: where its displacement ends and what it must be. */
  lemma PatchRecord(m: Method, depths: map<nat, nat>, w: Plan, full: Code, p: nat,
                    visited: seq<bool>, native: seq<int>, patch: seq<int>, target: seq<int>)
    requires Records(m, w, visited, native, patch, target) && Placed(m, depths, w) && AllFlow(m, depths, w)
    requires w.code <= full && native[|m.code|] == w.Pos() && p < |m.code|
    ensures target[p] != 0 <==> IsPatched(m, w, p)
    ensures target[p] != 0 ==>
              var k := Site(m, depths, w, p);
              && 0 <= target[p] <= |m.code|
              && 0 <= k < |w.code| && patch[p] == Offset(full, k + 1)
              && (full[k].JmpRel? || full[k].JccRel?)
              && AsInt32(native[target[p]] - patch[p]) == Displacement(m, depths, w, full, p)
  {
    hide Parse, InsnAt, BodyAt, Offset, TargetOf, PlacedAt, Apart, Flows, BranchBody;
    assert BranchRecord(m, w, p, patch[p], target[p]);
    if target[p] != 0 {
      var k := Site(m, depths, w, p);
      SiteInstr(m, depths, w, p);
      BranchBodyEnds(InsnAt(m, p).insn);
      BranchBodyAt(m, depths, p);
      assert Flows(m, depths, w, p);
      TargetPlaced(m, depths, w, p);
      OffsetPrefix(w.code, full, k + 1);
      var t := TargetOf(m, p);
      if t in w.idx {
        OffsetPrefix(w.code, full, w.idx[t]);
      } else {
        OffsetPrefix(w.code, full, |w.code|);
      }
      TargetInside(m, depths, w, t);
      NotBehind(m, w, t);
    }
  }

  lemma NotBehind(m: Method, w: Plan, t: int)
    requires t in w.idx ==> t < |m.code|
    ensures t in w.idx ==> t != |m.code|
  {
  }

  /** The patch loop of `generate_code`. */
  method PatchLoop(jit: Jit, ghost depths: map<nat, nat>, ghost w: Plan)
    requires Verified(jit.m, depths) && jit.Shape() && jit.Recorded(w)
    requires Placed(jit.m, depths, w) && AllFlow(jit.m, depths, w)
    requires jit.nativeOffset[|jit.m.code|] == w.Pos()
    requires Loaded(jit.buf, FullCode(jit.m, w))
    modifies jit.buf
    ensures Loaded(jit.buf, PatchUpTo(jit.m, depths, w, FullCode(jit.m, w), |jit.m.code|))
  {
    hide Parse, InsnAt, BodyAt, Offset, TargetOf, Placed, AllFlow, Epilog, EncodeAll, Records, Displacement,
         WithRel;
    ghost var m := jit.m;
    ghost var full := FullCode(m, w);
    ghost var visited, native := jit.visited[..], jit.nativeOffset[..];
    ghost var patch, target := jit.patchOffset[..], jit.branchTarget[..];
    RecordLengths(m, w, visited, native, patch, target);
    for i := 0 to |jit.m.code|
      invariant Loaded(jit.buf, PatchUpTo(m, depths, w, full, i))
      invariant jit.nativeOffset[..] == native && jit.patchOffset[..] == patch && jit.branchTarget[..] == target
    {
      PatchRecord(m, depths, w, full, i, visited, native, patch, target);
      var t := jit.branchTarget[i];
      if t != 0 {
        ghost var c := PatchUpTo(m, depths, w, full, i);
        ghost var k := Site(m, depths, w, i);
        PatchPlaceholder(m, depths, w, full, i, k);
        PatchJump(jit.buf, jit.patchOffset[i], jit.nativeOffset[t] - jit.patchOffset[i], c, k);
      }
    }
  }

  lemma RecordLengths(m: Method, w: Plan, visited: seq<bool>, native: seq<int>, patch: seq<int>, target: seq<int>)
    requires Records(m, w, visited, native, patch, target)
    ensures |visited| == |native| == |patch| == |target| == |m.code| + 1
  {
  }

  /** The jump of a branch not yet patched is still the placeholder, at its old offset. */
  lemma PatchPlaceholder(m: Method, depths: map<nat, nat>, w: Plan, full: Code, p: nat, k: int)
    requires Placed(m, depths, w) && w.code <= full && IsPatched(m, w, p) && k == Site(m, depths, w, p)
    ensures 0 <= k < |full|
    ensures var c := PatchUpTo(m, depths, w, full, p);
            c[k] == full[k] && Offset(c, k + 1) == Offset(full, k + 1)
  {
    hide Parse, InsnAt, BodyAt, Offset, TargetOf, Placed, PatchUpTo, Displacement, WithRel, Site;
    PatchUpToAt(m, depths, w, full, p);
    SiteInside(m, depths, w, p);
    forall q: nat | q < p && IsPatched(m, w, q) ensures Site(m, depths, w, q) != k {
      SitesDistinct(m, depths, w, q, p);
    }
  }

  /** Whether a method compiles: the walk goes through, and the buffer takes the epilog. */
  function CompileFault(m: Method, depths: map<nat, nat>): Fault
    requires Verified(m, depths)
  {
    var w := BodyPlan(m, depths);
    if w.fault != NoFault then w.fault
    else if w.cap - (w.Pos() + 4) >= 100 || 2 * w.cap < TWO_15 then NoFault
    else BufferTooLong
  }

  /** `gen_prolog`. */
  method GenProlog(jit: Jit, frameSize: int) returns (ok: bool)
    requires frameSize == StoredFrameSize(jit.m)
    requires jit.Shape() && Tables(jit.m, jit.locals, jit.stack)
    requires jit.pos == 0 && jit.buf.Length == InitialCap(jit.m) < TWO_15
    requires Records(jit.m, StartPlan(jit.m), jit.visited[..], jit.nativeOffset[..], jit.patchOffset[..],
                     jit.branchTarget[..])
    modifies jit`buf, jit`pos, jit`plan, jit.buf
    ensures jit.buf == old(jit.buf) || fresh(jit.buf)
    ensures jit.plan == StartPlan(jit.m) && (ok <==> jit.plan.fault == NoFault)
    ensures ok ==> jit.Valid()
  {
    hide EncodeAll, Encode, Offset, Records, SetBuf, StoredFrameSize, LocalOffset, Inside, Roomy, Holds, HasRoom;
    var m := jit.m;
    ghost var p := Prolog(m);
    ghost var w := Plan(p, map[], {}, {}, InitialCap(m), NoFault);
    StartHolds(jit.buf);
    var r := PushOpnd(jit.buf, 0, PushR(Ebp), [], 100);
    r := Mov(jit.buf, r, MovRR(Ebp, Esp), [] + [PushR(Ebp)], 89);
    r := PushOpnd(jit.buf, r, PushI(m.address), [] + [PushR(Ebp)] + [MovRR(Ebp, Esp)], 78);
    r := BinAlu(jit.buf, r, AluRI(Add, Esp, Wrap(frameSize + 4)),
                [] + [PushR(Ebp)] + [MovRR(Ebp, Esp)] + [PushI(m.address)], 67);
    assert [] + [PushR(Ebp)] + [MovRR(Ebp, Esp)] + [PushI(m.address)] + [AluRI(Add, Esp, Wrap(frameSize + 4))] == p;
    HoldsPos(jit.buf, r, p, 56);
    PrologInside(m, w);
    assert jit.Recorded(w) by {
      RecordsExtend(m, StartPlan(m), w, jit.visited[..], jit.nativeOffset[..], jit.patchOffset[..],
                    jit.branchTarget[..]);
    }
    ok := jit.SetBuffer(r, w);
  }

  lemma StartHolds(buf: array<Byte>)
    requires buf.Length >= 100
    ensures HasRoom(buf, 0, [], 100)
  {
  }

  lemma HoldsPos(buf: array<Byte>, at: nat, c: Code, n: int)
    requires HasRoom(buf, at, c, n)
    ensures Holds(buf, at, c) && at == Offset(c, |c|)
  {
    hide Encode;
    EncodeAllLength(c);
  }

  lemma PrologInside(m: Method, w: Plan)
    requires w == Plan(Prolog(m), map[], {}, {}, InitialCap(m), NoFault) && InitialCap(m) < TWO_15
    ensures Inside(w) && StartPlan(m) == SetBuf(w) && StartPlan(m).code == w.code && StartPlan(m).idx == w.idx
  {
    hide Offset, Prolog, SetBuf;
    PrologBytes(m);
  }

  /** The code of the bytecodes: from pc 0 with an empty stack, then from every handler with the
      exception on the stack. */
  method SelectRoots(jit: Jit, ghost depths: map<nat, nat>) returns (ok: bool)
    requires jit.Valid() && Verified(jit.m, depths) && jit.plan == StartPlan(jit.m)
    modifies jit`buf, jit`pos, jit`plan, jit.buf, jit.visited, jit.nativeOffset, jit.patchOffset, jit.branchTarget
    ensures jit.buf == old(jit.buf) || fresh(jit.buf)
    ensures jit.plan == BodyPlan(jit.m, depths) && (ok <==> jit.plan.fault == NoFault)
    ensures ok ==> jit.Valid()
  {
    hide Parse, Select, Records, Tables, Holds, HasRoom, Roomy, PcOk, Offset;
    var m := jit.m;
    RootsIn(m, depths);
    StartIdx(m);
    ghost var roots := Roots(m);
    ghost var start := jit.plan;
    assert roots[1..] == m.handlers;
    ok := jit.SelectCode(0, 0, depths);
    if !ok {
      FaultStays(m, depths, m.handlers, jit.plan);
      return;
    }
    assert m.handlers[0..] == m.handlers;
    for i := 0 to |m.handlers|
      invariant jit.Valid() && jit.plan.idx.Keys <= depths.Keys
      invariant jit.buf == old(jit.buf) || fresh(jit.buf)
      invariant SelectAll(m, depths, m.handlers[i..], jit.plan) == BodyPlan(m, depths)
    {
      ghost var before := jit.plan;
      assert m.handlers[i] in m.handlers;
      assert m.handlers[i..][1..] == m.handlers[i + 1..];
      ok := jit.SelectCode(m.handlers[i], 1, depths);
      if !ok {
        FaultStays(m, depths, m.handlers[i + 1..], jit.plan);
        return;
      }
    }
    ok := true;
  }

  lemma FaultStays(m: Method, depths: map<nat, nat>, roots: seq<nat>, w: Plan)
    requires Verified(m, depths) && w.idx.Keys <= depths.Keys && w.fault != NoFault
    requires forall p :: p in roots ==> p in depths
    ensures SelectAll(m, depths, roots, w) == w
  {
    hide Verified, Select;
  }

  /** The return of `gen_epilog`: it drops the parameters of the descriptor and the receiver. */
  method ReturnOf(m: Method, descriptor: string, isStatic: bool) returns (last: EncInstr)
    requires m.argWords < 0x100 && HasSignature(m, descriptor, isStatic)
    ensures Epilog(m) == [MovRR(Esp, Ebp), PopR(Ebp), last] && (last.Ret? || last.RetI?) && Encodable(last)
  {
    hide Descriptors.Scan;
    var parsed, count, size := Descriptors.GetParamNumSize(descriptor);
    if !isStatic {
      size := size + 4;
    }
    last := if size == 0 then Ret else RetI(size);
  }

  method EmitEpilog(buf: array<Byte>, pos: nat, last: EncInstr, ghost c: Code) returns (r: nat)
    requires HasRoom(buf, pos, c, 100) && (last.Ret? || last.RetI?) && Encodable(last)
    modifies buf
    ensures r == pos + 4 && Loaded(buf, c + [MovRR(Esp, Ebp), PopR(Ebp), last])
    ensures r <= |EncodeAll(c + [MovRR(Esp, Ebp), PopR(Ebp), last])|
  {
    hide EncodeAll, Encode;
    EpilogSizes(last);
    r := Mov(buf, pos, MovRR(Esp, Ebp), c, 100);
    r := PopOpnd(buf, r, PopR(Ebp), c + [MovRR(Esp, Ebp)], 89);
    var at := r;
    r := Return(buf, r, last, c + [MovRR(Esp, Ebp)] + [PopR(Ebp)], 78);
    assert c + [MovRR(Esp, Ebp)] + [PopR(Ebp)] + [last] == c + [MovRR(Esp, Ebp), PopR(Ebp), last];
    assert Holds(buf, at + |Encode(last)|, c + [MovRR(Esp, Ebp), PopR(Ebp), last]);
  }

  /** `gen_epilog`; the position it leaves does not count the operand of the return. */
  method GenEpilog(jit: Jit, descriptor: string, isStatic: bool) returns (ok: bool)
    requires jit.Valid() && jit.m.argWords < 0x100 && HasSignature(jit.m, descriptor, isStatic)
    modifies jit`buf, jit`pos, jit.buf
    ensures jit.buf == old(jit.buf) || fresh(jit.buf)
    ensures ok <==> jit.plan.cap - (jit.plan.Pos() + 4) >= 100 || 2 * jit.plan.cap < TWO_15
    ensures jit.Shape() && jit.plan == old(jit.plan) && jit.Recorded(jit.plan)
    ensures ok ==> Loaded(jit.buf, FullCode(jit.m, jit.plan))
  {
    hide EncodeAll, Encode, Offset, Records, StoredFrameSize, Roomy, BodyAt, HasSignature, Epilog;
    var m := jit.m;
    var last := ReturnOf(m, descriptor, isStatic);
    var r := EmitEpilog(jit.buf, jit.pos, last, jit.plan.code);
    ghost var full := FullCode(m, jit.plan);
    ghost var bytes := jit.buf[..];
    ok := jit.CodebufSet(r);
    assert jit.buf[..|EncodeAll(full)|] == bytes[..|EncodeAll(full)|];
  }

  lemma EpilogSizes(last: EncInstr)
    ensures |Encode(MovRR(Esp, Ebp))| == 2 && |Encode(PopR(Ebp))| == 1
  {
  }

  /** Records where the epilog starts, as the native offset of the pc behind the method. */
  method MarkEnd(jit: Jit)
    requires jit.Valid()
    modifies jit.nativeOffset
    ensures jit.Valid()
    ensures |jit.m.code| < jit.nativeOffset.Length && jit.nativeOffset[|jit.m.code|] == jit.plan.Pos()
  {
    hide Offset, BranchRecord, Roomy, HasRoom;
    jit.nativeOffset[|jit.m.code|] := jit.pos;
  }

  /** `compile`: on success the code array starts with the bytes of the method's final code. */
  method Compile(m: Method, descriptor: string, isStatic: bool, ghost depths: map<nat, nat>)
    returns (ok: bool, code: array<Byte>)
    requires Verified(m, depths) && HasSignature(m, descriptor, isStatic)
    ensures ok <==> CompileFault(m, depths) == NoFault
    ensures ok ==> Loaded(code, FinalCode(m, depths))
  {
    hide Parse, EncodeAll, Encode, Offset, Records, Prolog, Epilog, PatchUpTo, SelectAll, PlacedAt, Apart, Flows,
         Tables, Roomy, HasRoom, PcOk, HasSignature;
    var cap := InitialCap(m);
    if cap >= TWO_15 {
      TooLongFaults(m, depths);
      code := new Byte[0];
      return false, code;
    }
    var jit := new Jit(m, cap);
    code := jit.buf;
    var frameSize := PrepareStackframe(m, descriptor, isStatic, jit.locals, jit.stack);
    assert Tables(m, jit.locals, jit.stack) by { TablesFilled(m, jit.locals, jit.stack); }
    StartIdx(m);
    assert jit.Recorded(StartPlan(m));
    ok := GenProlog(jit, frameSize);
    if !ok {
      RootsIn(m, depths);
      FaultStays(m, depths, Roots(m), StartPlan(m));
      return;
    }
    ok := SelectRoots(jit, depths);
    if !ok {
      return;
    }
    ghost var w := jit.plan;
    BodyPlanPlaced(m, depths);
    MarkEnd(jit);
    ok := GenEpilog(jit, descriptor, isStatic);
    if !ok {
      return;
    }
    PatchLoop(jit, depths, w);
    code := jit.buf;
  }

  lemma TablesFilled(m: Method, locals: array<int>, stack: array<int>)
    requires locals.Length == m.maxLocals && stack.Length == m.maxStack
    requires forall i :: 0 <= i < m.maxLocals ==> locals[i] == StoredLocal(m, i)
    requires forall k :: 0 <= k < m.maxStack ==> stack[k] == StoredStack(m, k)
    ensures Tables(m, locals, stack)
  {
  }

  lemma TooLongFaults(m: Method, depths: map<nat, nat>)
    requires Verified(m, depths) && InitialCap(m) >= TWO_15
    ensures BodyPlan(m, depths).fault == BufferTooLong
  {
    hide Parse, PcOk, Prolog, Offset;
    RootsIn(m, depths);
    FaultStays(m, depths, Roots(m), StartPlan(m));
  }
}
