/** The compiler's state and its two passes: `select_code`, `codebuf_set`, `generate_code`. */
module Compiler {
  import opened Words
  import opened X86
  import opened Encoding
  import opened CodeStream
  import opened Bytecode
  import opened Frame
  import opened Templates
  import opened Placement
  import opened Reachability
  import opened Room
  import opened Patching
  import opened Emitter
  import opened CodeGen

  /** What is recorded of a branch: its target, and the offset behind its displacement. */
  ghost predicate BranchRecord(m: Method, w: Plan, p: nat, patch: int, target: int)
    requires p in w.idx ==> w.idx[p] <= |w.code|
  {
    if p in w.idx && IsBranch(InsnAt(m, p).insn) then
      var end := w.idx[p] + |BranchBody(InsnAt(m, p).insn)|;
      target == TargetOf(m, p) && end <= |w.code| && patch == Offset(w.code, end)
    else target == 0
  }

  /** The per-pc records describe the plan `w`; the pc behind the method counts as visited. */
  ghost predicate Records(m: Method, w: Plan, visited: seq<bool>, native: seq<int>, patch: seq<int>, target: seq<int>) {
    && |visited| == |native| == |patch| == |target| == |m.code| + 1
    && visited[|m.code|]
    && (forall p :: p in w.idx ==> p < |m.code| && w.idx[p] <= |w.code|)
    && (forall p :: 0 <= p < |m.code| ==> (visited[p] <==> p in w.idx))
    && (forall p :: p in w.idx ==> native[p] == Offset(w.code, w.idx[p]))
    && (forall p :: 0 <= p < |m.code| ==> BranchRecord(m, w, p, patch[p], target[p]))
  }

  lemma RecordsExtend(m: Method, w: Plan, r: Plan, visited: seq<bool>, native: seq<int>, patch: seq<int>,
                      target: seq<int>)
    requires Records(m, w, visited, native, patch, target) && r.idx == w.idx && w.code <= r.code
    ensures Records(m, r, visited, native, patch, target)
  {
    hide InsnAt, BranchBody, TargetOf, Offset;
    forall p | p in r.idx ensures native[p] == Offset(r.code, r.idx[p]) {
      OffsetPrefix(w.code, r.code, w.idx[p]);
    }
    forall p | 0 <= p < |m.code| ensures BranchRecord(m, r, p, patch[p], target[p]) {
      assert BranchRecord(m, w, p, patch[p], target[p]);
      if p in w.idx && IsBranch(InsnAt(m, p).insn) {
        OffsetPrefix(w.code, r.code, w.idx[p] + |BranchBody(InsnAt(m, p).insn)|);
      }
    }
  }

  lemma RecordsEmit(m: Method, depths: map<nat, nat>, p: nat, w: Plan,
                    visited: seq<bool>, native: seq<int>, patch: seq<int>, target: seq<int>,
                    patch': seq<int>, target': seq<int>)
    requires Records(m, w, visited, native, patch, target) && p < |m.code| && p !in w.idx
    requires |patch'| == |patch| && |target'| == |target|
    requires forall q :: 0 <= q < |m.code| && q != p ==> patch'[q] == patch[q] && target'[q] == target[q]
    requires if IsBranch(InsnAt(m, p).insn)
             then target'[p] == TargetOf(m, p) && patch'[p] == Emit(m, depths, p, w).Pos()
             else target'[p] == target[p]
    ensures Records(m, Emit(m, depths, p, w), visited[p := true], native[p := w.Pos()], patch', target')
  {
    hide InsnAt, BranchBody, TargetOf, Offset, BodyAt;
    var r := Emit(m, depths, p, w);
    assert r.idx[p] == |w.code|;
    assert r.code[..|w.code|] == w.code;
    OffsetPrefix(w.code, r.code, |w.code|);
    forall q | q in r.idx && q != p ensures native[q] == Offset(r.code, r.idx[q]) {
      OffsetPrefix(w.code, r.code, w.idx[q]);
    }
    forall q | 0 <= q < |m.code| ensures BranchRecord(m, r, q, patch'[q], target'[q]) {
      assert BranchRecord(m, w, q, patch[q], target[q]);
      if IsBranch(InsnAt(m, q).insn) {
        if q == p {
          BranchBodyAt(m, depths, p);
        } else if q in w.idx {
          OffsetPrefix(w.code, r.code, w.idx[q] + |BranchBody(InsnAt(m, q).insn)|);
        }
      }
    }
  }

  /** How the walk goes on from an unvisited pc. */
  lemma SelectAtConditional(m: Method, depths: map<nat, nat>, p: nat, w: Plan)
    requires Verified(m, depths) && p in depths && w.idx.Keys <= depths.Keys
    requires w.fault == NoFault && p !in w.idx && IsConditional(InsnAt(m, p).insn)
    ensures InsnAt(m, p).next in depths && InsnAt(m, p).insn.target in depths
    ensures var wm := SetBuf(Miss(Emit(m, depths, p, w), p, InsnAt(m, p).next));
            && wm.idx.Keys == w.idx.Keys + {p}
            && var w3 := Select(m, depths, InsnAt(m, p).next, wm);
               Select(m, depths, p, w) ==
               if InsnAt(m, p).insn.target in w3.idx then w3
               else Select(m, depths, InsnAt(m, p).insn.target, SetBuf(w3))
  {
    hide Verified, InsnAt, Parse, BodyAt, SetBuf, Stale, Miss;
    SuccsIn(m, depths, p);
    EmitIdx(m, depths, p, w);
  }

  lemma SelectAtOther(m: Method, depths: map<nat, nat>, p: nat, w: Plan)
    requires Verified(m, depths) && p in depths && w.idx.Keys <= depths.Keys
    requires w.fault == NoFault && p !in w.idx && !IsConditional(InsnAt(m, p).insn)
    ensures var r := InsnAt(m, p);
            var w1 := Emit(m, depths, p, w);
            var w2 := SetBuf(w1);
            && w2.idx.Keys == w.idx.Keys + {p}
            && (r.insn.Goto? ==>
                  r.insn.target in depths
                  && Select(m, depths, p, w) ==
                     if r.insn.target in w2.idx then w2
                     else if w2.cap != w1.cap then Stale(w2)
                     else Select(m, depths, r.insn.target, SetBuf(w2)))
            && (r.insn.ReturnWords? ==> Select(m, depths, p, w) == w2)
            && (!IsBranch(r.insn) ==>
                  r.next in depths
                  && Select(m, depths, p, w) ==
                     if r.next !in w2.idx then Select(m, depths, r.next, w2)
                     else if w2.cap != w1.cap || w2.fault != NoFault then Stale(w2)
                     else SetBuf(Link(w2, p, r.next)))
  {
    hide Verified, InsnAt, Parse, BodyAt, SetBuf, Stale, Miss;
    SuccsIn(m, depths, p);
    EmitIdx(m, depths, p, w);
  }

  lemma SelectDone(m: Method, depths: map<nat, nat>, p: nat, w: Plan)
    requires Verified(m, depths) && p in depths && w.idx.Keys <= depths.Keys
    requires w.fault != NoFault || p in w.idx
    ensures Select(m, depths, p, w) == w
  {
    hide Verified, InsnAt;
  }

  /** The verifier's promises about the instruction at `p`, and the depth behind it. */
  lemma InsnPromises(m: Method, depths: map<nat, nat>, p: nat)
    requires Verified(m, depths) && p in depths
    ensures var r := InsnAt(m, p);
            && p < |m.code| && LocalOk(m, r.insn)
            && Pops(r.insn) <= depths[p] <= m.maxStack
            && depths[p] - Pops(r.insn) + Pushes(r.insn) <= m.maxStack
            && (forall q :: q in Succs(r) ==> q in depths && depths[q] == depths[p] - Pops(r.insn) + Pushes(r.insn))
  {
    hide Parse;
    assert PcOk(m, depths, p);
    ParseInside(m, p);
  }

  lemma GotoSuccs(s: Parsed)
    requires s.insn.Goto?
    ensures s.insn.target in Succs(s)
  {
  }

  lemma StraightSuccs(s: Parsed)
    requires !IsBranch(s.insn)
    ensures s.next in Succs(s)
  {
  }

  lemma StaleFaulted(w: Plan)
    requires w.fault != NoFault
    ensures Stale(w) == w
  {
  }

  lemma RoomyInside(w: Plan)
    requires Roomy(w)
    ensures Inside(w)
  {
    hide Offset;
  }

  lemma ConditionalSuccs(s: Parsed)
    requires IsConditional(s.insn)
    ensures s.next in Succs(s) && s.insn.target in Succs(s)
  {
  }

  /** The per-pc records and the code buffer. */
  class Jit {
    const m: Method
    const locals: array<int>
    const stack: array<int>
    const visited: array<bool>
    const nativeOffset: array<int>
    const patchOffset: array<int>
    const branchTarget: array<int>
    var buf: array<Byte>
    var pos: nat
    ghost var plan: Plan

    /** All records zero except that the pc behind the method is marked visited; `cap` bytes of buffer. */
    constructor (m: Method, cap: nat)
      ensures this.m == m && fresh(locals) && fresh(stack) && fresh(buf)
      ensures fresh(visited) && fresh(nativeOffset) && fresh(patchOffset) && fresh(branchTarget)
      ensures Shape() && locals.Length == m.maxLocals && stack.Length == m.maxStack && locals != stack
      ensures buf.Length == cap && pos == 0
      ensures forall w: Plan :: w.idx == map[] ==> Recorded(w)
    {
      this.m := m;
      locals := new int[m.maxLocals](_ => 0);
      stack := new int[m.maxStack](_ => 0);
      var n := |m.code| + 1;
      visited := new bool[n](i => i == n - 1);
      nativeOffset := new int[n](_ => 0);
      patchOffset := new int[n](_ => 0);
      branchTarget := new int[n](_ => 0);
      buf := new Byte[cap](_ => 0);
      pos := 0;
      plan := Plan([], map[], {}, {}, 0, NoFault);
    }

    ghost predicate Shape()
      reads this
    {
      && nativeOffset != patchOffset && nativeOffset != branchTarget && patchOffset != branchTarget
      && nativeOffset !in {locals, stack} && patchOffset !in {locals, stack} && branchTarget !in {locals, stack}
      && buf as object !in {locals as object, stack, visited, nativeOffset, patchOffset, branchTarget}
    }

    ghost predicate Recorded(w: Plan)
      reads this, visited, nativeOffset, patchOffset, branchTarget
    {
      Records(m, w, visited[..], nativeOffset[..], patchOffset[..], branchTarget[..])
    }

    /** The state represents the plan, with room for the next template. */
    ghost predicate Valid()
      reads this, locals, stack, visited, nativeOffset, patchOffset, branchTarget, buf
    {
      && Shape() && Tables(m, locals, stack)
      && Recorded(plan) && plan.fault == NoFault && Roomy(plan)
      && HasRoom(buf, pos, plan.code, 100) && pos == plan.Pos() && buf.Length == plan.cap
    }

    /** `codebuf_set`: makes sure that 100 bytes are free behind `at`, moving the code to a buffer of
        twice the length if need be; fails when that length does not fit the array header. */
    method CodebufSet(at: nat) returns (ok: bool)
      requires at <= buf.Length && buf.Length >= 100
      modifies this`buf, this`pos
      ensures buf == old(buf) || fresh(buf)
      ensures ok <==> old(buf.Length) - at >= 100 || 2 * old(buf.Length) < TWO_15
      ensures buf == old(buf) <==> old(buf.Length) - at >= 100 || !ok
      ensures ok ==> pos == at && buf.Length - at >= 100
      ensures ok ==> buf.Length == if old(buf.Length) - at >= 100 then old(buf.Length) else 2 * old(buf.Length)
      ensures buf.Length >= old(buf.Length) && buf[..old(buf.Length)] == old(buf[..])
    {
      hide EncodeAll;
      var codebuf := buf;
      var size := codebuf.Length;
      ok := true;
      if size - at < 100 {
        if 2 * size >= TWO_15 {
          ok := false;
          return;
        }
        var newbuf := new Byte[2 * size](_ => 0);
        for i := 0 to size
          modifies newbuf
          invariant forall j :: 0 <= j < i ==> newbuf[j] == codebuf[j]
        {
          newbuf[i] := codebuf[i];
        }
        assert newbuf[..size] == codebuf[..];
        buf := newbuf;
      }
      pos := at;
    }

    /** `codebuf_set` on a state whose local buffer pointer is `at`, as it acts on the plan. */
    method SetBuffer(at: nat, ghost w: Plan) returns (ok: bool)
      requires Shape() && Tables(m, locals, stack) && Recorded(w) && w.fault == NoFault && Inside(w)
      requires Holds(buf, at, w.code) && at == w.Pos() && buf.Length == w.cap
      modifies this`buf, this`pos, this`plan
      ensures buf == old(buf) || fresh(buf)
      ensures plan == SetBuf(w) && (ok <==> plan.fault == NoFault)
      ensures buf == old(buf) <==> plan.cap == w.cap
      ensures ok ==> Valid()
    {
      hide Offset, EncodeAll, Records, BodyAt;
      SetBufRoomy(w);
      ghost var bytes := buf[..];
      ok := CodebufSet(at);
      assert buf[..at] == bytes[..at];
      plan := SetBuf(w);
      if ok {
        assert Recorded(plan) by {
          RecordsExtend(m, w, plan, visited[..], nativeOffset[..], patchOffset[..], branchTarget[..]);
        }
      }
    }

    /** Marks `p` as visited and emits its template; branches are recorded for the patch loop. */
    method Visit(p: nat, depth: nat, ghost depths: map<nat, nat>) returns (r: nat, d: int)
      requires Valid() && Verified(m, depths) && p in depths && depth == depths[p] && p !in plan.idx
      modifies buf, visited, nativeOffset, patchOffset, branchTarget
      ensures Shape() && Tables(m, locals, stack)
      ensures var w := Emit(m, depths, p, plan);
              && Recorded(w) && w.fault == NoFault && Inside(w)
              && HasRoom(buf, r, w.code, 5) && r == w.Pos() && buf.Length == w.cap
      ensures d == depth - Pops(InsnAt(m, p).insn) + Pushes(InsnAt(m, p).insn)
    {
      hide Parse, BodyAt, Verified, BranchRecord, Offset, EncodeAll, TargetOf;
      InsnPromises(m, depths, p);
      ghost var w := Emit(m, depths, p, plan);
      EmitRoom(m, depths, p, plan);
      EmitIdx(m, depths, p, plan);
      ghost var vis, nat', patch, target := visited[..], nativeOffset[..], patchOffset[..], branchTarget[..];
      nativeOffset[p] := pos;
      visited[p] := true;
      var i := InsnAt(m, p).insn;
      r, d := EmitBody(m, locals, stack, buf, pos, i, depth, plan.code);
      assert plan.code + Body(m, i, depth) == w.code by { BodyOf(m, depths, p); }
      EncodeAllLength(w.code);
      if IsBranch(i) {
        branchTarget[p] := TargetOf(m, p);
        patchOffset[p] := r;
      }
      RecordsEmit(m, depths, p, plan, vis, nat', patch, target, patchOffset[..], branchTarget[..]);
      assert visited[..] == vis[p := true];
      assert nativeOffset[..] == nat'[p := plan.Pos()];
    }
  
    /** `select_code`: a depth-first walk. The fall-through of a conditional branch is compiled by a
        recursive call, its target by going on with the loop. */
    method SelectCode(start: nat, depth: nat, ghost depths: map<nat, nat>) returns (ok: bool)
      requires Valid() && Verified(m, depths) && start in depths && depth == depths[start]
      requires plan.idx.Keys <= depths.Keys
      modifies this`buf, this`pos, this`plan, buf, visited, nativeOffset, patchOffset, branchTarget
      ensures plan == Select(m, depths, start, old(plan))
      ensures ok <==> plan.fault == NoFault
      ensures ok ==> Valid()
      ensures buf == old(buf) || fresh(buf)
      decreases depths.Keys - plan.idx.Keys, 1
    {
      hide Parse, InsnAt, BodyAt, Verified, Offset, EncodeAll, TargetOf, SetBuf, Stale, Miss, Emit, Link, Records,
           Select, Tables, Holds, Roomy, Inside, Encode;
      SelectDoneIfVisited(start, depths);
      if visited[start] {
        return true;
      }
      var cur: nat, d: int := start, depth;
      while !visited[cur]
        invariant Valid() && cur in depths && d == depths[cur] && cur < visited.Length
        invariant old(plan).idx.Keys <= plan.idx.Keys <= depths.Keys
        invariant Select(m, depths, cur, plan) == Select(m, depths, start, old(plan))
        invariant buf == old(buf) || fresh(buf)
        decreases depths.Keys - plan.idx.Keys
      {
        ghost var w, p := plan, cur;
        InsnPromises(m, depths, cur);
        VisitedIff(cur);
        var s := InsnAt(m, cur);
        var at, d1 := Visit(cur, d, depths);
        if IsConditional(s.insn) {
          ConditionalSuccs(s);
          var go;
          go, ok := AfterConditional(cur, at, d1, w, depths);
          if !go {
            return ok;
          }
          cur, d := s.insn.target, d1;
        } else if s.insn.ReturnWords? {
          SelectAtOther(m, depths, cur, w);
          ok := SetBuffer(at, Emit(m, depths, cur, w));
          return ok;
        } else if s.insn.Goto? {
          var go;
          GotoSuccs(s);
          go, ok := AfterGoto(cur, at, w, depths);
          if !go {
            return ok;
          }
          cur, d := s.insn.target, d1;
        } else {
          StraightSuccs(s);
          ok := AfterStraight(cur, at, w, depths);
          if !ok {
            return false;
          }
          cur, d := s.next, d1;
        }
        ShrinksBy(depths.Keys, w.idx.Keys, plan.idx.Keys, p);
      }
      SelectDoneIfVisited(cur, depths);
      ok := true;
    }

    /** The template of `p` has been emitted up to `at`, `w` is the plan before it. */
    ghost predicate Emitted(p: nat, at: nat, w: Plan, depths: map<nat, nat>)
      reads this, locals, stack, visited, nativeOffset, patchOffset, branchTarget, buf
    {
      var w1 := Emit(m, depths, p, w);
      && Shape() && Tables(m, locals, stack) && p in depths && w.idx.Keys <= depths.Keys && p !in w.idx
      && w.fault == NoFault
      && Recorded(w1) && w1.fault == NoFault && Inside(w1)
      && HasRoom(buf, at, w1.code, 5) && at == w1.Pos() && buf.Length == w1.cap
    }

    /** A conditional branch: its fall-through is compiled by a recursive call, then the loop goes on with
        its target unless that is compiled by then. */
    method AfterConditional(p: nat, at: nat, d: nat, ghost w: Plan, ghost depths: map<nat, nat>)
      returns (go: bool, ok: bool)
      requires Verified(m, depths) && Emitted(p, at, w, depths) && IsConditional(InsnAt(m, p).insn)
      requires InsnAt(m, p).next in depths && InsnAt(m, p).insn.target in depths && d == depths[InsnAt(m, p).next]
      modifies this`buf, this`pos, this`plan, buf, visited, nativeOffset, patchOffset, branchTarget
      ensures buf == old(buf) || fresh(buf)
      ensures ok <==> plan.fault == NoFault
      ensures ok ==> Valid()
      ensures !go ==> plan == Select(m, depths, p, w)
      ensures go ==>
                ok && w.idx.Keys + {p} <= plan.idx.Keys <= depths.Keys
                && InsnAt(m, p).insn.target < visited.Length
                && Select(m, depths, InsnAt(m, p).insn.target, plan) == Select(m, depths, p, w)
      decreases depths.Keys - w.idx.Keys, 0
    {
      hide Parse, InsnAt, BodyAt, Verified, Offset, EncodeAll, TargetOf, SetBuf, Stale, Miss, Emit, Link, Records,
           Select, Tables, Holds, Roomy, Inside, Encode;
      var next, target := InsnAt(m, p).next, InsnAt(m, p).insn.target;
      go := false;
      SelectAtConditional(m, depths, p, w);
      Shrinks(depths.Keys, w.idx.Keys, p);
      ghost var w1 := Emit(m, depths, p, w);
      MissRecorded(w1, p, next);
      ok := SetBuffer(at, Miss(w1, p, next));
      if !ok {
        SelectFaulted(next, target, depths);
        return;
      }
      ok := SelectCode(next, d, depths);
      if !ok {
        SelectFaulted(target, target, depths);
        return;
      }
      SelectDoneIfVisited(target, depths);
      if visited[target] {
        return;
      }
      RoomyInside(plan);
      SetBufKeepsRoomy(plan);
      ok := SetBuffer(pos, plan);
      go := true;
    }

    /** GOTO: goes on with the target unless it is compiled already; the local buffer pointer `b` is
        used once more, and is stale if `codebuf_set` has just replaced the buffer. */
    method AfterGoto(p: nat, at: nat, ghost w: Plan, ghost depths: map<nat, nat>) returns (go: bool, ok: bool)
      requires Verified(m, depths) && Emitted(p, at, w, depths)
      requires InsnAt(m, p).insn.Goto? && InsnAt(m, p).insn.target in depths
      modifies this`buf, this`pos, this`plan
      ensures buf == old(buf) || fresh(buf)
      ensures ok <==> plan.fault == NoFault
      ensures ok ==> Valid()
      ensures !go ==> plan == Select(m, depths, p, w)
      ensures go ==>
                ok && w.idx.Keys + {p} <= plan.idx.Keys <= depths.Keys
                && InsnAt(m, p).insn.target < visited.Length
                && Select(m, depths, InsnAt(m, p).insn.target, plan) == Select(m, depths, p, w)
    {
      hide Parse, InsnAt, BodyAt, Verified, Offset, EncodeAll, TargetOf, SetBuf, Stale, Emit, Records,
           Select, Tables, Holds, Roomy, Inside;
      var b := buf;
      var target := InsnAt(m, p).insn.target;
      SelectAtOther(m, depths, p, w);
      ok := SetBuffer(at, Emit(m, depths, p, w));
      go := false;
      if !ok {
        SelectFaulted(target, target, depths);
        StaleFaulted(plan);
        return;
      }
      SelectDoneIfVisited(target, depths);
      if visited[target] {
        return;
      }
      if b != buf {
        plan := Stale(plan);
        ok := false;
        return;
      }
      RoomyInside(plan);
      SetBufKeepsRoomy(plan);
      ok := SetBuffer(at, plan);
      go := true;
    }

    /** A straight-line instruction: goes on with its successor, by a jump if that is compiled already. */
    method AfterStraight(p: nat, at: nat, ghost w: Plan, ghost depths: map<nat, nat>) returns (ok: bool)
      requires Verified(m, depths) && Emitted(p, at, w, depths)
      requires !IsBranch(InsnAt(m, p).insn) && InsnAt(m, p).next in depths
      modifies this`buf, this`pos, this`plan, buf
      ensures buf == old(buf) || fresh(buf)
      ensures ok <==> plan.fault == NoFault
      ensures !ok ==> plan == Select(m, depths, p, w)
      ensures ok ==>
                Valid() && w.idx.Keys + {p} <= plan.idx.Keys <= depths.Keys
                && InsnAt(m, p).next < visited.Length
                && Select(m, depths, InsnAt(m, p).next, plan) == Select(m, depths, p, w)
    {
      hide Parse, InsnAt, BodyAt, Verified, Offset, EncodeAll, TargetOf, SetBuf, Stale, Emit, Link, Records,
           Select, Tables, Holds, Roomy, Inside;
      var b := buf;
      var next := InsnAt(m, p).next;
      SelectAtOther(m, depths, p, w);
      ok := SetBuffer(at, Emit(m, depths, p, w));
      if !ok {
        SelectFaulted(next, next, depths);
        StaleFaulted(plan);
        return;
      }
      SelectDoneIfVisited(next, depths);
      if visited[next] {
        if b != buf {
          plan := Stale(plan);
          return false;
        }
        LinkIdx(plan, p, next);
        ok := EmitLink(p, next, at);
        if ok {
          SelectDoneIfVisited(next, depths);
        }
      }
    }

    /** The jump to a successor that is already compiled. */
    method EmitLink(p: nat, next: nat, at: nat) returns (ok: bool)
      requires Valid() && at == pos && next < |m.code| && visited[next]
      modifies this`buf, this`pos, this`plan, buf
      ensures plan == SetBuf(Link(old(plan), p, next)) && (ok <==> plan.fault == NoFault)
      ensures ok ==> Valid()
      ensures buf == old(buf) || fresh(buf)
    {
      hide Parse, InsnAt, BodyAt, Offset, EncodeAll, SetBuf, BranchRecord, Encode;
      ghost var w := Link(plan, p, next);
      LinkRoom(plan, p, next);
      EncodeAllLength(w.code);
      var r := Jump(buf, at, JmpRel(AsInt32(nativeOffset[next] - at - 5)), plan.code, 100);
      assert w.code == plan.code + [JmpRel(AsInt32(nativeOffset[next] - at - 5))];
      RecordsExtend(m, plan, w, visited[..], nativeOffset[..], patchOffset[..], branchTarget[..]);
      ok := SetBuffer(r, w);
    }

    lemma MissRecorded(w: Plan, p: nat, next: nat)
      requires Recorded(w) && Inside(w) && w.fault == NoFault
      ensures var r := Miss(w, p, next);
              Recorded(r) && Inside(r) && r.code == w.code && r.cap == w.cap && r.Pos() == w.Pos() && r.fault == NoFault
    {
      hide Offset, InsnAt, BodyAt;
      RecordsExtend(m, w, Miss(w, p, next), visited[..], nativeOffset[..], patchOffset[..], branchTarget[..]);
    }

    lemma SelectFaulted(p: nat, q: nat, depths: map<nat, nat>)
      requires Verified(m, depths) && p in depths && q in depths && plan.idx.Keys <= depths.Keys
      requires plan.fault != NoFault
      ensures Select(m, depths, p, plan) == plan && SetBuf(plan) == plan && Select(m, depths, q, plan) == plan
    {
      hide Verified, Select;
      SelectDone(m, depths, p, plan);
      SelectDone(m, depths, q, plan);
    }

    lemma VisitedIff(p: nat)
      requires Valid() && p < |m.code|
      ensures p < visited.Length && (visited[p] <==> p in plan.idx)
    {
    }

    lemma SelectDoneIfVisited(p: nat, depths: map<nat, nat>)
      requires Valid() && Verified(m, depths) && p in depths && plan.idx.Keys <= depths.Keys
      ensures p < |m.code| && p < visited.Length
      ensures visited[p] <==> p in plan.idx
      ensures visited[p] ==> Select(m, depths, p, plan) == plan
    {
      hide Parse, InsnAt, Verified, Select;
      InsnPromises(m, depths, p);
      VisitedIff(p);
      if visited[p] {
        SelectDone(m, depths, p, plan);
      }
    }
  }

  lemma BodyOf(m: Method, depths: map<nat, nat>, p: nat)
    requires p in depths
    ensures BodyAt(m, depths, p) == Body(m, InsnAt(m, p).insn, depths[p])
  {
    hide InsnAt, Body;
  }
}
