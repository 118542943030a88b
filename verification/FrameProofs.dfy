/** The relation between a bytecode frame and the machine, and what each machine instruction of the
    templates does to it. */
module FrameProofs {
  import opened Wrappers
  import opened Words
  import opened X86
  import opened CodeStream
  import opened Bytecode
  import opened Frame
  import opened Templates

  /** The registers the templates never touch. */
  datatype Kept = Kept(ebx: Word, esi: Word, edi: Word)

  function KeptOf(c: Cpu): Kept {
    Kept(c.ebx, c.esi, c.edi)
  }

  /** A compiled frame: where it lies, and the memory and registers its method was entered with. */
  datatype Env = Env(m: Method, ebp: Word, mem0: map<int, Word>, kept: Kept)
  {
    function Low(): int { ebp + FrameSize(m) - 4 * m.maxStack }

    function High(): int { ebp + 4 * (m.argWords + 1) }

    /** Words the method may change: argument and local slots, and operand slots. */
    predicate Owned(a: int) {
      var o := a - ebp;
      (8 <= o && a <= High()) || (FrameSize(m) < o <= -8) || (Low() <= a && o < FrameSize(m))
    }

    ghost predicate Valid() {
      && OffsetsFit(m) && m.argWords <= m.maxLocals
      && ebp % 4 == 0
      && 0 <= Low() && High() + 4 <= TWO_32
      && forall a {:trigger a in mem0} :: Low() <= a <= High() && a % 4 == 0 ==> a in mem0
    }

    function LocalAddr(i: int): int { ebp + LocalOffset(m, i) }

    function StackAddr(k: int): int { ebp + StackOffset(m, k) }
  }

  ghost predicate Repr(e: Env, v: Vars, c: Cpu) {
    && |v.locals| == e.m.maxLocals && |v.stack| <= e.m.maxStack
    && c.ebp == e.ebp && KeptOf(c) == e.kept
    && c.esp == e.ebp + FrameSize(e.m) - 4 * |v.stack|
    && c.mem.Keys == e.mem0.Keys
    && (forall i :: 0 <= i < |v.locals| ==> e.LocalAddr(i) in c.mem && c.mem[e.LocalAddr(i)] == v.locals[i])
    && (forall k :: 0 <= k < |v.stack| ==> e.StackAddr(k) in c.mem && c.mem[e.StackAddr(k)] == v.stack[k])
    && (forall a :: a in e.mem0 && !e.Owned(a) ==> c.mem[a] == e.mem0[a])
  }

  lemma StackSlotMapped(e: Env, k: int, c: Cpu)
    requires e.Valid() && 0 <= k < e.m.maxStack && c.ebp == e.ebp && c.mem.Keys == e.mem0.Keys
    ensures c.Address(BaseDisp(Ebp, StoredStack(e.m, k))) == e.StackAddr(k)
    ensures c.Mapped(e.StackAddr(k)) && e.Owned(e.StackAddr(k))
  {
    StoredExact(e.m);
    assert e.Low() <= e.StackAddr(k) <= e.High();
    assert e.StackAddr(k) in e.mem0;
  }

  lemma LocalSlotMapped(e: Env, i: int, c: Cpu)
    requires e.Valid() && 0 <= i < e.m.maxLocals && c.ebp == e.ebp && c.mem.Keys == e.mem0.Keys
    ensures c.Address(BaseDisp(Ebp, StoredLocal(e.m, i))) == e.LocalAddr(i)
    ensures c.Mapped(e.LocalAddr(i)) && e.Owned(e.LocalAddr(i))
  {
    StoredExact(e.m);
    assert e.Low() <= e.LocalAddr(i) <= e.High();
    assert e.LocalAddr(i) in e.mem0;
  }

  lemma StoreStack(e: Env, v: Vars, c: Cpu, k: int, w: Word, d: Cpu)
    requires e.Valid() && Repr(e, v, c) && 0 <= k < |v.stack|
    requires d.ebp == c.ebp && d.esp == c.esp && KeptOf(d) == KeptOf(c) && d.mem == c.mem[e.StackAddr(k) := w]
    ensures Repr(e, v.(stack := v.stack[k := w]), d)
  {
    StackSlotMapped(e, k, c);
    forall i | 0 <= i < |v.locals| ensures e.LocalAddr(i) != e.StackAddr(k) {
      SlotsDisjoint(e.m, LocalSlot(i), StackSlot(k));
    }
  }

  lemma StoreLocal(e: Env, v: Vars, c: Cpu, i: int, w: Word, d: Cpu)
    requires e.Valid() && Repr(e, v, c) && 0 <= i < |v.locals|
    requires d.ebp == c.ebp && d.esp == c.esp && KeptOf(d) == KeptOf(c) && d.mem == c.mem[e.LocalAddr(i) := w]
    ensures Repr(e, v.(locals := v.locals[i := w]), d)
  {
    LocalSlotMapped(e, i, c);
    forall k | 0 <= k < |v.stack| ensures e.LocalAddr(i) != e.StackAddr(k) {
      SlotsDisjoint(e.m, LocalSlot(i), StackSlot(k));
    }
    forall j | 0 <= j < |v.locals| && j != i ensures e.LocalAddr(i) != e.LocalAddr(j) {
      SlotsDisjoint(e.m, LocalSlot(i), LocalSlot(j));
    }
  }

  lemma PushWord(e: Env, v: Vars, c: Cpu, w: Word, d: Cpu)
    requires e.Valid() && Repr(e, v, c) && |v.stack| < e.m.maxStack
    requires d.ebp == c.ebp && d.esp == c.esp - 4 && KeptOf(d) == KeptOf(c) && d.mem == c.mem[c.esp - 4 := w]
    ensures Repr(e, v.(stack := v.stack + [w]), d)
  {
    var k := |v.stack|;
    assert c.esp - 4 == e.StackAddr(k);
    StackSlotMapped(e, k, c);
    forall i | 0 <= i < |v.locals| ensures e.LocalAddr(i) != e.StackAddr(k) {
      SlotsDisjoint(e.m, LocalSlot(i), StackSlot(k));
    }
  }

  // ----- one machine instruction at a time -----

  /** The instructions executed since a block was entered, the machine and the frame they lead to. */
  datatype Cursor = Cursor(done: Code, c: Cpu, v: Vars)

  ghost predicate Reached(e: Env, c0: Cpu, cur: Cursor) {
    RunBlock(cur.done, c0) == Some(cur.c) && Repr(e, cur.v, cur.c)
  }

  lemma Begin(e: Env, v: Vars, c: Cpu) returns (cur: Cursor)
    requires Repr(e, v, c)
    ensures Reached(e, c, cur) && cur == Cursor([], c, v)
  {
    cur := Cursor([], c, v);
  }

  /** Where operand `k` lies, once a cursor has been reached. */
  lemma OperandAt(e: Env, c0: Cpu, cur: Cursor, k: int)
    requires e.Valid() && Reached(e, c0, cur) && 0 <= k < |cur.v.stack|
    ensures cur.c.Address(BaseDisp(Ebp, StoredStack(e.m, k))) == e.StackAddr(k)
    ensures cur.c.Mapped(e.StackAddr(k)) && cur.c.mem[e.StackAddr(k)] == cur.v.stack[k]
    ensures RunBlock(cur.done, c0) == Some(cur.c)
  {
    StackSlotMapped(e, k, cur.c);
  }

  predicate Scratch(r: Reg) {
    r == Eax || r == Ecx || r == Edx
  }

  lemma DoExec(c0: Cpu, cur: Cursor, i: EncInstr, d: Cpu, v: Vars) returns (nxt: Cursor)
    requires RunBlock(cur.done, c0) == Some(cur.c) && Exec(i, cur.c) == Some(d)
    ensures nxt == Cursor(cur.done + [i], d, v)
    ensures RunBlock(nxt.done, c0) == Some(d)
  {
    hide Exec;
    RunBlockSnoc(cur.done, i, c0);
    nxt := Cursor(cur.done + [i], d, v);
  }

  lemma DoLoadStack(e: Env, c0: Cpu, cur: Cursor, r: Reg, i: int) returns (nxt: Cursor)
    requires e.Valid() && Reached(e, c0, cur) && Scratch(r) && 1 <= i <= |cur.v.stack|
    ensures Reached(e, c0, nxt) && nxt.v == cur.v
    ensures nxt.done == cur.done + [MovRM(r, StackMem(e.m, |cur.v.stack|, i))]
    ensures nxt.c == cur.c.Set(r, cur.v.stack[|cur.v.stack| - i])
  {
    hide RunBlock;
    var n := |cur.v.stack|;
    StackSlotMapped(e, n - i, cur.c);
    nxt := DoExec(c0, cur, MovRM(r, StackMem(e.m, n, i)), cur.c.Set(r, cur.v.stack[n - i]), cur.v);
  }

  lemma DoStoreStack(e: Env, c0: Cpu, cur: Cursor, r: Reg, i: int) returns (nxt: Cursor)
    requires e.Valid() && Reached(e, c0, cur) && Scratch(r) && 1 <= i <= |cur.v.stack|
    ensures Reached(e, c0, nxt)
    ensures nxt.v == cur.v.(stack := cur.v.stack[|cur.v.stack| - i := cur.c.Get(r)])
    ensures nxt.done == cur.done + [MovMR(StackMem(e.m, |cur.v.stack|, i), r)]
    ensures nxt.c == cur.c.(mem := nxt.c.mem)
  {
    hide RunBlock;
    var k := |cur.v.stack| - i;
    StackSlotMapped(e, k, cur.c);
    var d := cur.c.(mem := cur.c.mem[e.StackAddr(k) := cur.c.Get(r)]);
    StoreStack(e, cur.v, cur.c, k, cur.c.Get(r), d);
    nxt := DoExec(c0, cur, MovMR(StackMem(e.m, |cur.v.stack|, i), r), d,
                  cur.v.(stack := cur.v.stack[k := cur.c.Get(r)]));
  }

  lemma DoLoadLocal(e: Env, c0: Cpu, cur: Cursor, x: int) returns (nxt: Cursor)
    requires e.Valid() && Reached(e, c0, cur) && 0 <= x < |cur.v.locals|
    ensures Reached(e, c0, nxt) && nxt.v == cur.v
    ensures nxt.done == cur.done + [MovRM(Eax, LocalMem(e.m, x))]
    ensures nxt.c == cur.c.(eax := cur.v.locals[x])
  {
    hide RunBlock;
    LocalSlotMapped(e, x, cur.c);
    nxt := DoExec(c0, cur, MovRM(Eax, LocalMem(e.m, x)), cur.c.(eax := cur.v.locals[x]), cur.v);
  }

  lemma DoStoreLocal(e: Env, c0: Cpu, cur: Cursor, x: int) returns (nxt: Cursor)
    requires e.Valid() && Reached(e, c0, cur) && 0 <= x < |cur.v.locals|
    ensures Reached(e, c0, nxt)
    ensures nxt.v == cur.v.(locals := cur.v.locals[x := cur.c.eax])
    ensures nxt.done == cur.done + [MovMR(LocalMem(e.m, x), Eax)]
  {
    hide RunBlock;
    LocalSlotMapped(e, x, cur.c);
    var d := cur.c.(mem := cur.c.mem[e.LocalAddr(x) := cur.c.eax]);
    StoreLocal(e, cur.v, cur.c, x, cur.c.eax, d);
    nxt := DoExec(c0, cur, MovMR(LocalMem(e.m, x), Eax), d,
                  cur.v.(locals := cur.v.locals[x := cur.c.eax]));
  }

  lemma PushReady(e: Env, v: Vars, c: Cpu)
    requires e.Valid() && Repr(e, v, c) && |v.stack| < e.m.maxStack
    ensures Wrap(c.esp - 4) == c.esp - 4 == e.StackAddr(|v.stack|) && c.Mapped(c.esp - 4)
  {
    StackSlotMapped(e, |v.stack|, c);
  }

  lemma DoPush(e: Env, c0: Cpu, cur: Cursor, r: Reg) returns (nxt: Cursor)
    requires e.Valid() && Reached(e, c0, cur) && Scratch(r) && |cur.v.stack| < e.m.maxStack
    ensures Reached(e, c0, nxt)
    ensures nxt.v == cur.v.(stack := cur.v.stack + [cur.c.Get(r)])
    ensures nxt.done == cur.done + [PushR(r)]
    ensures nxt.c == cur.c.(esp := nxt.c.esp, mem := nxt.c.mem)
  {
    hide RunBlock;
    PushReady(e, cur.v, cur.c);
    var w := cur.c.Get(r);
    var d := cur.c.(esp := cur.c.esp - 4, mem := cur.c.mem[cur.c.esp - 4 := w]);
    PushWord(e, cur.v, cur.c, w, d);
    nxt := DoExec(c0, cur, PushR(r), d, cur.v.(stack := cur.v.stack + [w]));
  }

  lemma DoPushImm(e: Env, c0: Cpu, cur: Cursor, w: Word) returns (nxt: Cursor)
    requires e.Valid() && Reached(e, c0, cur) && |cur.v.stack| < e.m.maxStack
    ensures Reached(e, c0, nxt)
    ensures nxt.v == cur.v.(stack := cur.v.stack + [w])
    ensures nxt.done == cur.done + [PushI(w)]
  {
    hide RunBlock;
    PushReady(e, cur.v, cur.c);
    var d := cur.c.(esp := cur.c.esp - 4, mem := cur.c.mem[cur.c.esp - 4 := w]);
    PushWord(e, cur.v, cur.c, w, d);
    nxt := DoExec(c0, cur, PushI(w), d, cur.v.(stack := cur.v.stack + [w]));
  }

  lemma DoPop(e: Env, c0: Cpu, cur: Cursor, r: Reg) returns (nxt: Cursor)
    requires e.Valid() && Reached(e, c0, cur) && Scratch(r) && |cur.v.stack| > 0
    ensures Reached(e, c0, nxt)
    ensures nxt.v == cur.v.(stack := cur.v.stack[..|cur.v.stack| - 1])
    ensures nxt.done == cur.done + [PopR(r)]
    ensures nxt.c == cur.c.(esp := nxt.c.esp).Set(r, cur.v.stack[|cur.v.stack| - 1])
  {
    hide RunBlock;
    var k := |cur.v.stack| - 1;
    StackSlotMapped(e, k, cur.c);
    assert cur.c.esp == e.StackAddr(k);
    var d := cur.c.(esp := cur.c.esp + 4).Set(r, cur.v.stack[k]);
    nxt := DoExec(c0, cur, PopR(r), d, cur.v.(stack := cur.v.stack[..k]));
  }

  /** Instructions that only touch scratch registers and flags. */
  lemma DoScratch(e: Env, c0: Cpu, cur: Cursor, i: EncInstr, d: Cpu) returns (nxt: Cursor)
    requires e.Valid() && Reached(e, c0, cur)
    requires Exec(i, cur.c) == Some(d) && d.mem == cur.c.mem
    requires d.esp == cur.c.esp && d.ebp == cur.c.ebp && KeptOf(d) == KeptOf(cur.c)
    ensures Reached(e, c0, nxt) && nxt == Cursor(cur.done + [i], d, cur.v)
  {
    nxt := DoExec(c0, cur, i, d, cur.v);
  }

  /** Instructions that compute into the top operand slot. */
  lemma DoTopUpdate(e: Env, c0: Cpu, cur: Cursor, i: EncInstr, d: Cpu, w: Word) returns (nxt: Cursor)
    requires e.Valid() && Reached(e, c0, cur) && |cur.v.stack| > 0
    requires Exec(i, cur.c) == Some(d) && d.esp == cur.c.esp && d.ebp == cur.c.ebp && KeptOf(d) == KeptOf(cur.c)
    requires d.mem == cur.c.mem[e.StackAddr(|cur.v.stack| - 1) := w]
    ensures Reached(e, c0, nxt) && nxt.done == cur.done + [i]
    ensures nxt.v == cur.v.(stack := cur.v.stack[|cur.v.stack| - 1 := w])
  {
    StoreStack(e, cur.v, cur.c, |cur.v.stack| - 1, w, d);
    nxt := DoExec(c0, cur, i, d, cur.v.(stack := cur.v.stack[|cur.v.stack| - 1 := w]));
  }

  lemma DoAluRR(e: Env, c0: Cpu, cur: Cursor, op: AluOp, d: Reg, r: Reg) returns (nxt: Cursor)
    requires e.Valid() && Reached(e, c0, cur) && Scratch(d) && op != Cmp
    ensures Reached(e, c0, nxt) && nxt.v == cur.v && nxt.done == cur.done + [AluRR(op, d, r)]
    ensures var f := Alu(op, cur.c.Get(d), cur.c.Get(r), cur.c.cf);
            nxt.c == WithFlags(cur.c, f).Set(d, f.value)
  {
    hide Reached, Alu;
    var f := Alu(op, cur.c.Get(d), cur.c.Get(r), cur.c.cf);
    nxt := DoScratch(e, c0, cur, AluRR(op, d, r), WithFlags(cur.c, f).Set(d, f.value));
  }

  lemma DoAluRI(e: Env, c0: Cpu, cur: Cursor, op: AluOp, d: Reg, w: Word) returns (nxt: Cursor)
    requires e.Valid() && Reached(e, c0, cur) && Scratch(d) && op != Cmp
    ensures Reached(e, c0, nxt) && nxt.v == cur.v && nxt.done == cur.done + [AluRI(op, d, w)]
    ensures var f := Alu(op, cur.c.Get(d), w, cur.c.cf);
            nxt.c == WithFlags(cur.c, f).Set(d, f.value)
  {
    hide Reached, Alu;
    var f := Alu(op, cur.c.Get(d), w, cur.c.cf);
    nxt := DoScratch(e, c0, cur, AluRI(op, d, w), WithFlags(cur.c, f).Set(d, f.value));
  }

  lemma DoNegR(e: Env, c0: Cpu, cur: Cursor, d: Reg) returns (nxt: Cursor)
    requires e.Valid() && Reached(e, c0, cur) && Scratch(d)
    ensures Reached(e, c0, nxt) && nxt.v == cur.v && nxt.done == cur.done + [NegR(d)]
    ensures var f := Alu(Sub, 0, cur.c.Get(d), false);
            nxt.c == WithFlags(cur.c, f).Set(d, f.value)
  {
    hide Reached, Alu;
    var f := Alu(Sub, 0, cur.c.Get(d), false);
    nxt := DoScratch(e, c0, cur, NegR(d), WithFlags(cur.c, f).Set(d, f.value));
  }
}
