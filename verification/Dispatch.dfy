/** From the receiver on the operand stack to the code that runs: a virtual call on tables whose slots are
    overwritten as methods are compiled. */
module Dispatch {
  import opened Wrappers
  import opened Words
  import opened X86
  import opened Bytecode
  import opened Frame
  import opened Templates
  import opened FrameProofs
  import Calls
  import ClassPrepare
  import Hierarchy
  import LazyJit

  /** The table of a class lies behind the class object at `at`, each word the address of its code. */
  ghost predicate PackedAt(p: LazyJit.Packed, at: Word, address: ClassPrepare.CodeEntry -> Word, mem: map<int, Word>) {
    forall s: nat :: s < |p.vtable| ==>
      var a := Wrap(at + ClassPrepare.ByteOffset(s));
      a % 4 == 0 && a in mem && mem[a] == address(p.vtable[s])
  }

  lemma {:induction false} AncestorWellFormed(a: Hierarchy.Class, c: Hierarchy.Class)
    requires Hierarchy.WellFormed(c) && Hierarchy.IsAncestor(a, c)
    ensures Hierarchy.WellFormed(a) && a.Class? && !a.isInterface
  {
    if a != c {
      AncestorWellFormed(a, c.superClass);
    }
  }

  /** After any run of preparations and compilations, the code in front of a virtual call of method `k` of
      `a`, run on a receiver of class `c`, leaves the address behind which the call finds the code it goes
      to; that code is the one of the method the lookup finds, exactly when no class between clashes on
      the signature. */
  lemma VirtualCallRuns(es: seq<LazyJit.Event>, st: LazyJit.State, a: Hierarchy.Class, k: nat, c: Hierarchy.Class,
                        at: Word, address: ClassPrepare.CodeEntry -> Word,
                        e: Env, v: Vars, b: Cpu, words: nat, n: nat)
    returns (d: Cpu, code: ClassPrepare.CodeEntry)
    requires LazyJit.IsRun(LazyJit.Initial, es, st) && c in st.packed
    requires Hierarchy.IsAncestor(a, c) && Hierarchy.Declares(a, k) && ClassPrepare.MethodOffset(a, k) < TWO_16
    requires e.Valid() && Repr(e, v, b) && words + 1 <= |v.stack|
    requires b.Mapped(v.stack[|v.stack| - (words + 1)])
    requires Calls.ClassHeader(b.mem[v.stack[|v.stack| - (words + 1)]], at)
    requires PackedAt(st.packed[c], at, address, b.mem)
    ensures var call := Calls.VirtualCall(e.m, |v.stack|, words, ClassPrepare.MethodOffset(a, k), n);
            && RunBlock(call[..3], b) == Some(d) && Repr(e, v, d) && call[3].CallM?
            && d.Mapped(d.Address(call[3].mem)) && d.mem[d.Address(call[3].mem)] == address(code)
    ensures Hierarchy.Lookup(c, a.methods[k].sig) == Some(LazyJit.Runs(st, code)) <==>
            !Hierarchy.ClashBelow(a, c, a.methods[k].sig)
  {
    hide Repr, RunBlock, Logic, StackMem, LazyJit.IsRun, LazyJit.Runs, Hierarchy.WellFormed, Hierarchy.Slot,
         Hierarchy.Lookup, Hierarchy.ClashBelow, Hierarchy.IsAncestor;
    LazyJit.VirtualCallRunsLookup(es, st, a, k, c);
    var s := Hierarchy.Slot(a, k);
    code := st.packed[c].vtable[s];
    assert ClassPrepare.MethodOffset(a, k) == ClassPrepare.ByteOffset(s) by { OffsetOfSlot(es, st, a, k, c); }
    var header := b.mem[v.stack[|v.stack| - (words + 1)]];
    Calls.ClassOfHeader(header, at);
    d := Calls.VirtualCallReaches(e, v, b, words, ClassPrepare.MethodOffset(a, k), n);
    Calls.ClassOfHeader(header, d.eax);
  }

  lemma OffsetOfSlot(es: seq<LazyJit.Event>, st: LazyJit.State, a: Hierarchy.Class, k: nat, c: Hierarchy.Class)
    requires LazyJit.IsRun(LazyJit.Initial, es, st) && c in st.packed
    requires Hierarchy.IsAncestor(a, c) && Hierarchy.Declares(a, k)
    ensures ClassPrepare.MethodOffset(a, k) == ClassPrepare.ByteOffset(Hierarchy.Slot(a, k))
  {
    hide LazyJit.IsRun, Hierarchy.Slot, Hierarchy.WellFormed;
    LazyJit.RunCoherent(LazyJit.Initial, es, st);
    assert LazyJit.ClassCoherent(st, c);
    AncestorWellFormed(a, c);
  }
}
