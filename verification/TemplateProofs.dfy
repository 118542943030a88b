/** What the code selected for a straight-line bytecode does, and exactly when that is what the
    bytecode means. */
module TemplateProofs {
  import opened Wrappers
  import opened Words
  import opened X86
  import opened CodeStream
  import opened Bytecode
  import opened Frame
  import opened Templates
  import opened FrameProofs

  predicate Overflows(a: Word, b: Word) {
    Signed(a) == -TWO_31 && Signed(b) == -1
  }

  /** The condition under which the selected code agrees with the bytecode: immediate operands with
      a clear sign bit, a quotient that fits, and an I2C operand whose second byte is zero. */
  predicate Exact(i: Insn, s: seq<Word>)
    requires |s| >= Pops(i)
  {
    match i
    case Bipush(b) => b < 128
    case Sipush(u) => u < TWO_15
    case IntDiv => !Overflows(s[|s| - 2], s[|s| - 1])
    case IntRem => !Overflows(s[|s| - 2], s[|s| - 1])
    case I2c => s[|s| - 1] % TWO_16 < TWO_8
    case _ => true
  }

  /** The effect of the selected code on the frame; `None` is a trap. */
  function CompiledEffect(m: Method, i: Insn, v: Vars): Option<Vars>
    requires Fits(m, i, v) && !IsBranch(i)
  {
    var s, n := v.stack, |v.stack|;
    match i
    case Bipush(b) => Some(v.(stack := s + [b]))
    case Sipush(u) => Some(v.(stack := s + [u]))
    case I2c => Some(v.(stack := s[..n - 1] + [s[n - 1] % TWO_8]))
    case IntDiv => if Overflows(s[n - 2], s[n - 1]) then None else Effect(m, i, v)
    case IntRem => if Overflows(s[n - 2], s[n - 1]) then None else Effect(m, i, v)
    case _ => Effect(m, i, v)
  }

  lemma PlainEffect(m: Method, i: Insn, v: Vars)
    requires Fits(m, i, v) && !IsBranch(i)
    requires !i.Bipush? && !i.Sipush? && !i.I2c? && !i.IntDiv? && !i.IntRem?
    ensures CompiledEffect(m, i, v) == Effect(m, i, v) && Exact(i, v.stack)
  {
    hide Effect;
  }

  lemma DivisionExact(m: Method, i: Insn, v: Vars)
    requires Fits(m, i, v) && (i.IntDiv? || i.IntRem?)
    ensures CompiledEffect(m, i, v) == Effect(m, i, v) <==> Exact(i, v.stack)
  {
  }

  lemma ExactIff(m: Method, i: Insn, v: Vars)
    requires Fits(m, i, v) && !IsBranch(i)
    ensures CompiledEffect(m, i, v) == Effect(m, i, v) <==> Exact(i, v.stack)
  {
    var s, n := v.stack, |v.stack|;
    if i.IntDiv? || i.IntRem? {
      DivisionExact(m, i, v);
    } else if i.Bipush? {
      assert (s + [i.b])[n] == i.b;
      assert (s + [Wrap(SignExtend8(i.b))])[n] == Wrap(SignExtend8(i.b));
    } else if i.Sipush? {
      assert (s + [i.u])[n] == i.u;
      assert (s + [Wrap(SignExtend16(i.u))])[n] == Wrap(SignExtend16(i.u));
    } else if i.I2c? {
      assert (s[..n - 1] + [s[n - 1] % TWO_8])[n - 1] == s[n - 1] % TWO_8;
      assert (s[..n - 1] + [s[n - 1] % TWO_16])[n - 1] == s[n - 1] % TWO_16;
      ModMod(s[n - 1]);
    } else {
      PlainEffect(m, i, v);
    }
  }

  lemma ModMod(w: Word)
    ensures w % TWO_8 == w % TWO_16 <==> w % TWO_16 < TWO_8
  {
    assert w % TWO_16 % TWO_8 == w % TWO_8;
  }

  /** The machine state determines the frame it represents. */
  lemma ReprUnique(e: Env, v: Vars, w: Vars, c: Cpu)
    requires Repr(e, v, c) && Repr(e, w, c)
    ensures v == w
  {
    assert |v.stack| == |w.stack|;
    forall i | 0 <= i < |v.locals| ensures v.locals[i] == w.locals[i] {
      assert e.LocalAddr(i) in c.mem;
    }
    forall k | 0 <= k < |v.stack| ensures v.stack[k] == w.stack[k] {
      assert e.StackAddr(k) in c.mem;
    }
  }

  // ----- constants, loads and stores -----

  ghost predicate Start(e: Env, i: Insn, v: Vars, c: Cpu) {
    && e.Valid() && Fits(e.m, i, v) && Repr(e, v, c)
    && |v.stack| - Pops(i) + Pushes(i) <= e.m.maxStack
  }

  lemma SimpleBody(e: Env, i: Insn, v: Vars, c: Cpu) returns (cur: Cursor)
    requires Start(e, i, v, c)
    requires i.Nop? || i.AconstNull? || i.Iconst? || i.Lconst? || i.Bipush? || i.Sipush? || i.Load? || i.Store?
    ensures Reached(e, c, cur) && cur.done == Body(e.m, i, |v.stack|)
    ensures CompiledEffect(e.m, i, v) == Some(cur.v)
  {
    hide Reached, Repr, RunBlock;
    var s := v.stack;
    cur := Begin(e, v, c);
    match i
    case Nop =>
    case AconstNull =>
      cur := DoPushImm(e, c, cur, 0);
    case Iconst(k) =>
      cur := DoPushImm(e, c, cur, Wrap(k));
    case Lconst(k) =>
      cur := DoPushImm(e, c, cur, 0);
      cur := DoPushImm(e, c, cur, Wrap(k));
      assert s + [0] + [Wrap(k)] == s + [0, Wrap(k)];
    case Bipush(b) =>
      cur := DoPushImm(e, c, cur, b);
    case Sipush(u) =>
      cur := DoPushImm(e, c, cur, Wrap(u));
    case Load(x) =>
      cur := DoLoadLocal(e, c, cur, x);
      cur := DoPush(e, c, cur, Eax);
    case Store(x) =>
      cur := DoPop(e, c, cur, Eax);
      cur := DoStoreLocal(e, c, cur, x);
  }

  // ----- operand stack rearrangement -----

  lemma DoMoveSlot(e: Env, c0: Cpu, cur: Cursor, from: int, to: int) returns (nxt: Cursor)
    requires e.Valid() && Reached(e, c0, cur)
    requires 1 <= from <= |cur.v.stack| && 1 <= to <= |cur.v.stack|
    ensures Reached(e, c0, nxt)
    ensures nxt.done == cur.done + MoveSlot(e.m, |cur.v.stack|, from, to)
    ensures var n := |cur.v.stack|;
            nxt.v == cur.v.(stack := cur.v.stack[n - to := cur.v.stack[n - from]])
  {
    var mid := DoLoadStack(e, c0, cur, Eax, from);
    nxt := DoStoreStack(e, c0, mid, Eax, to);
  }

  lemma DoDuplicate(e: Env, c0: Cpu, cur: Cursor, from: int) returns (nxt: Cursor)
    requires e.Valid() && Reached(e, c0, cur)
    requires 1 <= from <= |cur.v.stack| < e.m.maxStack
    ensures Reached(e, c0, nxt)
    ensures nxt.done == cur.done + [MovRM(Eax, StackMem(e.m, |cur.v.stack|, from)), PushR(Eax)]
    ensures nxt.v == cur.v.(stack := cur.v.stack + [cur.v.stack[|cur.v.stack| - from]])
  {
    var mid := DoLoadStack(e, c0, cur, Eax, from);
    nxt := DoPush(e, c0, mid, Eax);
  }

  /** The slot moves of DUP_X1 and DUP_X2, on the stack alone. */
  lemma DupX1Moves(s: seq<Word>, t: seq<Word>)
    requires |s| >= 2 && t == s + [s[|s| - 1]]
    ensures var n := |t|;
            var t1 := t[n - 2 := t[n - 3]];
            var t2 := t1[n - 3 := t1[n - 1]];
            t2 == s[..|s| - 2] + [s[|s| - 1], s[|s| - 2], s[|s| - 1]]
  {
  }

  lemma DupX2Moves(s: seq<Word>, t: seq<Word>)
    requires |s| >= 3 && t == s + [s[|s| - 1]]
    ensures var n := |t|;
            var t1 := t[n - 2 := t[n - 3]];
            var t2 := t1[n - 3 := t1[n - 4]];
            var t3 := t2[n - 4 := t2[n - 1]];
            t3 == s[..|s| - 3] + [s[|s| - 1], s[|s| - 3], s[|s| - 2], s[|s| - 1]]
  {
  }

  lemma DupX1Body(e: Env, v: Vars, c: Cpu) returns (cur: Cursor)
    requires Start(e, DupX1, v, c)
    ensures Reached(e, c, cur) && cur.done == StackBody(e.m, DupX1, |v.stack|)
    ensures Effect(e.m, DupX1, v) == Some(cur.v)
  {
    hide Reached, Repr, RunBlock;
    cur := Begin(e, v, c);
    cur := DoDuplicate(e, c, cur, 1);
    DupX1Moves(v.stack, cur.v.stack);
    cur := DoMoveSlot(e, c, cur, 3, 2);
    cur := DoMoveSlot(e, c, cur, 1, 3);
  }

  lemma DupX2Body(e: Env, v: Vars, c: Cpu) returns (cur: Cursor)
    requires Start(e, DupX2, v, c)
    ensures Reached(e, c, cur) && cur.done == StackBody(e.m, DupX2, |v.stack|)
    ensures Effect(e.m, DupX2, v) == Some(cur.v)
  {
    hide Reached, Repr, RunBlock;
    cur := Begin(e, v, c);
    cur := DoDuplicate(e, c, cur, 1);
    DupX2Moves(v.stack, cur.v.stack);
    cur := DoMoveSlot(e, c, cur, 3, 2);
    cur := DoMoveSlot(e, c, cur, 4, 3);
    cur := DoMoveSlot(e, c, cur, 1, 4);
  }

  lemma DupBody(e: Env, i: Insn, v: Vars, c: Cpu) returns (cur: Cursor)
    requires Start(e, i, v, c)
    requires i.Dup? || i.DupX1? || i.DupX2?
    ensures Reached(e, c, cur) && cur.done == StackBody(e.m, i, |v.stack|)
    ensures Effect(e.m, i, v) == Some(cur.v)
  {
    hide Reached, Repr, RunBlock;
    match i
    case Dup =>
      cur := Begin(e, v, c);
      cur := DoDuplicate(e, c, cur, 1);
    case DupX1 => cur := DupX1Body(e, v, c);
    case DupX2 => cur := DupX2Body(e, v, c);
  }

  /** The slot moves of DUP2_X1 and DUP2_X2, on the stack alone. */
  lemma Dup2X1Moves(s: seq<Word>, t: seq<Word>)
    requires |s| >= 3 && t == s + [s[|s| - 2]] + [s[|s| - 1]]
    ensures var n := |t|;
            var t1 := t[n - 3 := t[n - 5]];
            var t2 := t1[n - 4 := t1[n - 1]];
            var t3 := t2[n - 5 := t2[n - 2]];
            t3 == s[..|s| - 3] + [s[|s| - 2], s[|s| - 1], s[|s| - 3], s[|s| - 2], s[|s| - 1]]
  {
  }

  lemma Dup2X2Moves(s: seq<Word>, t: seq<Word>)
    requires |s| >= 4 && t == s + [s[|s| - 2]] + [s[|s| - 1]]
    ensures var n := |t|;
            var t1 := t[n - 3 := t[n - 5]];
            var t2 := t1[n - 4 := t1[n - 6]];
            var t3 := t2[n - 5 := t2[n - 1]];
            var t4 := t3[n - 6 := t3[n - 2]];
            t4 == s[..|s| - 4] + [s[|s| - 2], s[|s| - 1], s[|s| - 4], s[|s| - 3], s[|s| - 2], s[|s| - 1]]
  {
  }

  lemma DoDuplicate2(e: Env, v: Vars, c: Cpu) returns (cur: Cursor)
    requires e.Valid() && Repr(e, v, c) && 2 <= |v.stack| <= e.m.maxStack - 2
    ensures Reached(e, c, cur) && cur.done == StackBody(e.m, Dup2, |v.stack|)
    ensures cur.v == v.(stack := v.stack + [v.stack[|v.stack| - 2]] + [v.stack[|v.stack| - 1]])
  {
    hide Reached, Repr, RunBlock;
    cur := Begin(e, v, c);
    cur := DoDuplicate(e, c, cur, 2);
    cur := DoDuplicate(e, c, cur, 2);
  }

  lemma Dup2X1Body(e: Env, v: Vars, c: Cpu) returns (cur: Cursor)
    requires Start(e, Dup2X1, v, c)
    ensures Reached(e, c, cur) && cur.done == StackBody(e.m, Dup2X1, |v.stack|)
    ensures Effect(e.m, Dup2X1, v) == Some(cur.v)
  {
    hide Reached, Repr, RunBlock;
    cur := DoDuplicate2(e, v, c);
    Dup2X1Moves(v.stack, cur.v.stack);
    cur := DoMoveSlot(e, c, cur, 5, 3);
    cur := DoMoveSlot(e, c, cur, 1, 4);
    cur := DoMoveSlot(e, c, cur, 2, 5);
  }

  lemma Dup2X2Body(e: Env, v: Vars, c: Cpu) returns (cur: Cursor)
    requires Start(e, Dup2X2, v, c)
    ensures Reached(e, c, cur) && cur.done == StackBody(e.m, Dup2X2, |v.stack|)
    ensures Effect(e.m, Dup2X2, v) == Some(cur.v)
  {
    hide Reached, Repr, RunBlock, Exec, StackMem, MoveSlot;
    cur := DoDuplicate2(e, v, c);
    Dup2X2Moves(v.stack, cur.v.stack);
    cur := DoMoveSlot(e, c, cur, 5, 3);
    cur := DoMoveSlot(e, c, cur, 6, 4);
    cur := DoMoveSlot(e, c, cur, 1, 5);
    cur := DoMoveSlot(e, c, cur, 2, 6);
  }

  lemma Dup2Body(e: Env, i: Insn, v: Vars, c: Cpu) returns (cur: Cursor)
    requires Start(e, i, v, c)
    requires i.Dup2? || i.Dup2X1? || i.Dup2X2?
    ensures Reached(e, c, cur) && cur.done == StackBody(e.m, i, |v.stack|)
    ensures Effect(e.m, i, v) == Some(cur.v)
  {
    hide Reached, Repr, RunBlock;
    match i
    case Dup2 =>
      cur := DoDuplicate2(e, v, c);
      assert Effect(e.m, i, v).value.stack == cur.v.stack;
    case Dup2X1 => cur := Dup2X1Body(e, v, c);
    case Dup2X2 => cur := Dup2X2Body(e, v, c);
  }

  lemma SwapBody(e: Env, v: Vars, c: Cpu) returns (cur: Cursor)
    requires Start(e, Swap, v, c)
    ensures Reached(e, c, cur) && cur.done == StackBody(e.m, Swap, |v.stack|)
    ensures Effect(e.m, Swap, v) == Some(cur.v)
  {
    hide Reached, Repr, RunBlock;
    cur := Begin(e, v, c);
    cur := DoLoadStack(e, c, cur, Eax, 1);
    cur := DoLoadStack(e, c, cur, Edx, 2);
    cur := DoStoreStack(e, c, cur, Edx, 1);
    cur := DoStoreStack(e, c, cur, Eax, 2);
    assert Effect(e.m, Swap, v).value.stack == cur.v.stack;
  }

  lemma PopSwapBody(e: Env, i: Insn, v: Vars, c: Cpu) returns (cur: Cursor)
    requires Start(e, i, v, c)
    requires i.Pop? || i.Pop2? || i.Swap?
    ensures Reached(e, c, cur) && cur.done == StackBody(e.m, i, |v.stack|)
    ensures Effect(e.m, i, v) == Some(cur.v)
  {
    hide Reached, Repr, RunBlock;
    match i
    case Pop =>
      cur := Begin(e, v, c);
      cur := DoPop(e, c, cur, Eax);
    case Pop2 =>
      cur := Begin(e, v, c);
      cur := DoPop(e, c, cur, Eax);
      cur := DoPop(e, c, cur, Eax);
      assert v.stack[..|v.stack| - 1][..|v.stack| - 2] == v.stack[..|v.stack| - 2];
    case Swap => cur := SwapBody(e, v, c);
  }

  // ----- arithmetic -----

  lemma AluAgrees(op: ArithOp, a: Word, b: Word)
    ensures Alu(AluOfArith(op), a, b, false).value == ArithWords(op, a, b)
    ensures Alu(AluOfArith(op), a, b, true).value == ArithWords(op, a, b)
    ensures AluOfArith(op) != Cmp
  {
    hide Logic;
    match op {
      case IAdd =>
      case ISub =>
      case _ =>
    }
  }

  lemma AluMemRuns(c: Cpu, op: AluOp, m: Mem, w: Word)
    requires op != Cmp && c.Mapped(c.Address(m)) && c.mem[c.Address(m)] == w
    ensures var f := Alu(op, w, c.eax, c.cf);
            Exec(AluMR(op, m, Eax), c) == Some(WithFlags(c, f).(mem := c.mem[c.Address(m) := f.value]))
  {
    hide Alu;
  }

  lemma ArithTop(e: Env, op: ArithOp, v: Vars, c: Cpu) returns (cur: Cursor)
    requires e.Valid() && Repr(e, v, c) && |v.stack| >= 2
    ensures Reached(e, c, cur)
    ensures cur.done == [PopR(Eax), AluMR(AluOfArith(op), StackMem(e.m, |v.stack| - 1, 1), Eax)]
    ensures var s, n := v.stack, |v.stack|; cur.v == v.(stack := s[..n - 2] + [ArithWords(op, s[n - 2], s[n - 1])])
  {
    hide Reached, Repr, RunBlock, Alu, ArithWords, Exec;
    var n := |v.stack|;
    cur := Begin(e, v, c);
    cur := DoPop(e, c, cur, Eax);
    OperandAt(e, c, cur, n - 2);
    AluAgrees(op, v.stack[n - 2], v.stack[n - 1]);
    var i := AluMR(AluOfArith(op), StackMem(e.m, n - 1, 1), Eax);
    AluMemRuns(cur.c, AluOfArith(op), StackMem(e.m, n - 1, 1), v.stack[n - 2]);
    var f := Alu(AluOfArith(op), v.stack[n - 2], v.stack[n - 1], cur.c.cf);
    var d := WithFlags(cur.c, f).(mem := cur.c.mem[e.StackAddr(n - 2) := f.value]);
    cur := DoTopUpdate(e, c, cur, i, d, f.value);
    assert cur.v.stack == v.stack[..n - 2] + [f.value];
  }

  lemma ArithOpBody(e: Env, op: ArithOp, v: Vars, c: Cpu) returns (cur: Cursor)
    requires Start(e, Arith(op), v, c)
    ensures Reached(e, c, cur) && cur.done == ArithBody(e.m, Arith(op), |v.stack|)
    ensures Effect(e.m, Arith(op), v) == Some(cur.v)
  {
    hide Reached, Repr, ArithWords, StackMem;
    cur := ArithTop(e, op, v, c);
  }

  lemma MulMemRuns(c: Cpu, m: Mem, w: Word)
    requires c.Mapped(c.Address(m)) && c.mem[c.Address(m)] == w
    ensures var p := Product(c.eax, w); Exec(MulDivM(Imul, m), c) == Some(c.(eax := Wrap(p), edx := Wrap(p / TWO_32)))
  {
    hide Product;
  }

  lemma MulTop(e: Env, v: Vars, c: Cpu) returns (cur: Cursor)
    requires e.Valid() && Repr(e, v, c) && |v.stack| >= 2
    ensures Reached(e, c, cur)
    ensures var m := StackMem(e.m, |v.stack| - 1, 1); cur.done == [PopR(Eax), MulDivM(Imul, m), MovMR(m, Eax)]
    ensures var s, n := v.stack, |v.stack|; cur.v == v.(stack := s[..n - 2] + [Wrap(Product(s[n - 2], s[n - 1]))])
  {
    hide Reached, Repr, RunBlock, Product, Exec;
    var n := |v.stack|;
    cur := Begin(e, v, c);
    cur := DoPop(e, c, cur, Eax);
    OperandAt(e, c, cur, n - 2);
    var p := Product(v.stack[n - 1], v.stack[n - 2]);
    ProductCommutes(v.stack[n - 1], v.stack[n - 2]);
    var i := MulDivM(Imul, StackMem(e.m, n - 1, 1));
    MulMemRuns(cur.c, StackMem(e.m, n - 1, 1), v.stack[n - 2]);
    cur := DoScratch(e, c, cur, i, cur.c.(eax := Wrap(p), edx := Wrap(p / TWO_32)));
    cur := DoStoreStack(e, c, cur, Eax, 1);
    assert cur.v.stack == v.stack[..n - 2] + [Wrap(p)];
  }

  lemma MulBody(e: Env, v: Vars, c: Cpu) returns (cur: Cursor)
    requires Start(e, IntMul, v, c)
    ensures Reached(e, c, cur) && cur.done == ArithBody(e.m, IntMul, |v.stack|)
    ensures Effect(e.m, IntMul, v) == Some(cur.v)
  {
    hide Reached, Repr, Product, StackMem;
    cur := MulTop(e, v, c);
  }

  /** After `cdq` the dividend edx:eax is the sign-extended eax. */
  lemma CdqExtends(a: Word)
    ensures var hi: Word := if a < TWO_31 then 0 else TWO_32 - 1; Signed(hi) * TWO_32 + a == Signed(a)
  {
  }

  lemma DivOperands(e: Env, i: Insn, v: Vars, c: Cpu) returns (cur: Cursor)
    requires Start(e, i, v, c) && (i.IntDiv? || i.IntRem?)
    ensures Reached(e, c, cur) && cur.done == [PopR(Ecx), PopR(Eax), Cdq]
    ensures cur.v == v.(stack := v.stack[..|v.stack| - 2])
    ensures cur.c.ecx == v.stack[|v.stack| - 1] && cur.c.eax == v.stack[|v.stack| - 2]
    ensures Signed(cur.c.edx) * TWO_32 + cur.c.eax == Signed(cur.c.eax)
  {
    hide Reached, Repr, RunBlock;
    var a := v.stack[|v.stack| - 2];
    cur := Begin(e, v, c);
    cur := DoPop(e, c, cur, Ecx);
    cur := DoPop(e, c, cur, Eax);
    cur := DoScratch(e, c, cur, Cdq, cur.c.(edx := if a < TWO_31 then 0 else TWO_32 - 1));
    CdqExtends(a);
  }

  /** `idiv` faults on a zero divisor and on the one quotient that does not fit. */
  lemma IdivFaults(c: Cpu)
    requires Signed(c.edx) * TWO_32 + c.eax == Signed(c.eax)
    ensures Exec(MulDivR(Idiv, Ecx), c) ==
            if c.ecx == 0 || Overflows(c.eax, c.ecx) then None
            else Some(c.(eax := Wrap(TruncDiv(Signed(c.eax), Signed(c.ecx))),
                         edx := Wrap(TruncRem(Signed(c.eax), Signed(c.ecx)))))
  {
    if c.ecx != 0 {
      QuotientFits(Signed(c.eax), Signed(c.ecx));
    }
  }

  lemma DivPush(e: Env, c: Cpu, cur: Cursor, quotient: bool) returns (nxt: Cursor)
    requires e.Valid() && Reached(e, c, cur) && |cur.v.stack| < e.m.maxStack
    requires Signed(cur.c.edx) * TWO_32 + cur.c.eax == Signed(cur.c.eax)
    requires cur.c.ecx != 0 && !Overflows(cur.c.eax, cur.c.ecx)
    ensures Reached(e, c, nxt)
    ensures nxt.done == cur.done + [MulDivR(Idiv, Ecx)] + [PushR(if quotient then Eax else Edx)]
    ensures var a, b := Signed(cur.c.eax), Signed(cur.c.ecx);
            nxt.v == cur.v.(stack := cur.v.stack + [Wrap(if quotient then TruncDiv(a, b) else TruncRem(a, b))])
  {
    hide Reached, Repr, RunBlock, Exec, TruncDiv, TruncRem;
    IdivFaults(cur.c);
    var a, b := Signed(cur.c.eax), Signed(cur.c.ecx);
    var d := cur.c.(eax := Wrap(TruncDiv(a, b)), edx := Wrap(TruncRem(a, b)));
    nxt := DoScratch(e, c, cur, MulDivR(Idiv, Ecx), d);
    nxt := DoPush(e, c, nxt, if quotient then Eax else Edx);
  }

  lemma DivBodyRuns(e: Env, i: Insn, v: Vars, c: Cpu) returns (cur: Cursor)
    requires Start(e, i, v, c) && (i.IntDiv? || i.IntRem?) && CompiledEffect(e.m, i, v).Some?
    ensures Reached(e, c, cur) && cur.done == ArithBody(e.m, i, |v.stack|) && CompiledEffect(e.m, i, v) == Some(cur.v)
  {
    hide Reached, Repr, TruncDiv, TruncRem;
    cur := DivOperands(e, i, v, c);
    cur := DivPush(e, c, cur, i.IntDiv?);
    assert CompiledEffect(e.m, i, v).value.stack == cur.v.stack;
  }

  lemma DivBodyTraps(e: Env, i: Insn, v: Vars, c: Cpu)
    requires Start(e, i, v, c) && (i.IntDiv? || i.IntRem?) && CompiledEffect(e.m, i, v).None?
    ensures RunBlock(ArithBody(e.m, i, |v.stack|), c).None?
  {
    hide Repr, Exec;
    var cur := DivOperands(e, i, v, c);
    IdivFaults(cur.c);
    RunBlockSnoc(cur.done, MulDivR(Idiv, Ecx), c);
    var last := if i.IntDiv? then Eax else Edx;
    RunBlockAppend(cur.done + [MulDivR(Idiv, Ecx)], [PushR(last)], c);
    assert ArithBody(e.m, i, |v.stack|) == cur.done + [MulDivR(Idiv, Ecx)] + [PushR(last)];
  }

  /** IDIV and IREM, with the two ways to trap. */
  lemma DivBody(e: Env, i: Insn, v: Vars, c: Cpu) returns (cur: Cursor)
    requires Start(e, i, v, c) && (i.IntDiv? || i.IntRem?)
    ensures CompiledEffect(e.m, i, v).Some? ==>
              Reached(e, c, cur) && cur.done == ArithBody(e.m, i, |v.stack|) && CompiledEffect(e.m, i, v) == Some(cur.v)
    ensures CompiledEffect(e.m, i, v).None? ==> RunBlock(ArithBody(e.m, i, |v.stack|), c).None?
  {
    hide Reached, Repr, RunBlock, CompiledEffect;
    if CompiledEffect(e.m, i, v).Some? {
      cur := DivBodyRuns(e, i, v, c);
    } else {
      DivBodyTraps(e, i, v, c);
      cur := Cursor([], c, v);
    }
  }

  lemma SubFromZero(a: Word)
    ensures Alu(Sub, 0, a, false).value == (if a == 0 then 0 else TWO_32 - a)
    ensures Alu(Sub, 0, a, false).cf <==> a != 0
  {
  }

  lemma NegatedWord(a: Word)
    ensures Wrap(0 - Signed(a)) == if a == 0 then 0 else TWO_32 - a
  {
  }

  lemma NegBody(e: Env, v: Vars, c: Cpu) returns (cur: Cursor)
    requires Start(e, IntNeg, v, c)
    ensures Reached(e, c, cur) && cur.done == ArithBody(e.m, IntNeg, |v.stack|)
    ensures Effect(e.m, IntNeg, v) == Some(cur.v)
  {
    hide Reached, Repr, RunBlock, Alu;
    var n := |v.stack|;
    cur := Begin(e, v, c);
    OperandAt(e, c, cur, n - 1);
    var f := Alu(Sub, 0, v.stack[n - 1], false);
    var d := WithFlags(c, f).(mem := c.mem[e.StackAddr(n - 1) := f.value]);
    cur := DoTopUpdate(e, c, cur, NegM(StackMem(e.m, n, 1)), d, f.value);
    SubFromZero(v.stack[n - 1]);
    NegatedWord(v.stack[n - 1]);
    assert Effect(e.m, IntNeg, v).value.stack == cur.v.stack;
  }

  lemma AddCarry(a: Word, carry: bool)
    ensures Alu(Adc, a, 0, carry).value == (if carry then (if a == TWO_32 - 1 then 0 else a + 1) else a)
  {
  }

  lemma SplitLong(hi: int, lo: int)
    requires 0 <= lo < TWO_32
    ensures (hi * TWO_32 + lo) / TWO_32 == hi && (hi * TWO_32 + lo) % TWO_32 == lo
  {
  }

  /** neg low; adc high, 0; neg high computes the two's complement of the pair. */
  lemma NegateByParts(hi: Word, lo: Word)
    ensures var l := Alu(Sub, 0, lo, false);
            var h := Alu(Adc, hi, 0, l.cf);
            NegateLong(hi, lo) == (Alu(Sub, 0, h.value, false).value, l.value)
  {
    hide Alu;
    var l := Alu(Sub, 0, lo, false);
    var h := Alu(Adc, hi, 0, l.cf);
    SubFromZero(lo);
    AddCarry(hi, l.cf);
    SubFromZero(h.value);
    if lo != 0 {
      SplitLong(TWO_32 - 1 - hi, TWO_32 - lo);
      assert TWO_32 * TWO_32 - (hi * TWO_32 + lo) == (TWO_32 - 1 - hi) * TWO_32 + (TWO_32 - lo);
    } else if hi != 0 {
      SplitLong(TWO_32 - hi, 0);
      assert TWO_32 * TWO_32 - hi * TWO_32 == (TWO_32 - hi) * TWO_32;
    }
  }

  /** The two words the negated long leaves, computed in eax and edx. */
  lemma NegateInRegisters(e: Env, c0: Cpu, cur: Cursor) returns (nxt: Cursor)
    requires e.Valid() && Reached(e, c0, cur)
    ensures Reached(e, c0, nxt) && nxt.v == cur.v
    ensures nxt.done == cur.done + [NegR(Eax), AluRI(Adc, Edx, 0), NegR(Edx)]
    ensures (nxt.c.edx, nxt.c.eax) == NegateLong(cur.c.edx, cur.c.eax)
  {
    hide Reached, Repr, RunBlock, Alu, NegateLong;
    NegateByParts(cur.c.edx, cur.c.eax);
    nxt := DoNegR(e, c0, cur, Eax);
    nxt := DoAluRI(e, c0, nxt, Adc, Edx, 0);
    nxt := DoNegR(e, c0, nxt, Edx);
  }

  lemma LongNegBody(e: Env, v: Vars, c: Cpu) returns (cur: Cursor)
    requires Start(e, LongNeg, v, c)
    ensures Reached(e, c, cur) && cur.done == ArithBody(e.m, LongNeg, |v.stack|)
    ensures Effect(e.m, LongNeg, v) == Some(cur.v)
  {
    hide Reached, Repr, RunBlock, NegateLong;
    var n := |v.stack|;
    cur := Begin(e, v, c);
    cur := DoPop(e, c, cur, Eax);
    cur := DoPop(e, c, cur, Edx);
    assert v.stack[..n - 1][..n - 2] == v.stack[..n - 2];
    cur := NegateInRegisters(e, c, cur);
    cur := DoPush(e, c, cur, Edx);
    cur := DoPush(e, c, cur, Eax);
    assert Effect(e.m, LongNeg, v).value.stack == cur.v.stack;
  }

  lemma IincAdds(a: Word, k: int, carry: bool)
    requires -128 <= k < 128
    ensures Alu(Add, a, Wrap(k), carry).value == Wrap(Signed(a) + k)
  {
  }

  lemma LocalAt(e: Env, v: Vars, c: Cpu, x: int)
    requires e.Valid() && Repr(e, v, c) && 0 <= x < |v.locals|
    ensures c.Address(BaseDisp(Ebp, StoredLocal(e.m, x))) == e.LocalAddr(x)
    ensures c.Mapped(e.LocalAddr(x)) && c.mem[e.LocalAddr(x)] == v.locals[x]
  {
    LocalSlotMapped(e, x, c);
  }

  lemma AddRuns(c: Cpu, m: Mem, w: Word, f: Flagged)
    requires m.Valid() && c.Mapped(c.Address(m)) && f == Alu(Add, c.mem[c.Address(m)], w, c.cf)
    ensures Exec(AluMI(Add, m, w), c) == Some(WithFlags(c, f).(mem := c.mem[c.Address(m) := f.value]))
  {
    hide Alu;
  }

  lemma IincBody(e: Env, x: int, k: int, v: Vars, c: Cpu) returns (cur: Cursor)
    requires Start(e, Iinc(x, k), v, c)
    ensures Reached(e, c, cur) && cur.done == ArithBody(e.m, Iinc(x, k), |v.stack|)
    ensures Effect(e.m, Iinc(x, k), v) == Some(cur.v)
  {
    hide Repr, Alu, Exec;
    LocalAt(e, v, c, x);
    var f := Alu(Add, v.locals[x], Wrap(k), c.cf);
    IincAdds(v.locals[x], k, c.cf);
    var d := WithFlags(c, f).(mem := c.mem[e.LocalAddr(x) := f.value]);
    StoreLocal(e, v, c, x, f.value, d);
    cur := Begin(e, v, c);
    assert Exec(AluMI(Add, LocalMem(e.m, x), Wrap(k)), c) == Some(d) by { AddRuns(c, LocalMem(e.m, x), Wrap(k), f); }
    cur := DoExec(c, cur, AluMI(Add, LocalMem(e.m, x), Wrap(k)), d,
                  v.(locals := v.locals[x := f.value]));
  }

  lemma WidenEffect(m: Method, i: Insn, v: Vars)
    requires Fits(m, i, v) && (i.I2b? || i.I2c? || i.I2s?)
    ensures var n := |v.stack|;
            CompiledEffect(m, i, v) ==
            Some(v.(stack := v.stack[..n - 1] + [WidenWord(v.stack[n - 1], !i.I2c?, i.I2s?)]))
  {
  }

  lemma WidenRuns(c: Cpu, m: Mem, w: Word, signed: bool, wide: bool)
    requires c.Mapped(c.Address(m)) && c.mem[c.Address(m)] == w
    ensures Exec(Widen(Eax, m, signed, wide), c) == Some(c.(eax := WidenWord(w, signed, wide)))
  {
    hide WidenWord;
  }

  lemma WidenTop(e: Env, v: Vars, c: Cpu, signed: bool, wide: bool) returns (cur: Cursor)
    requires e.Valid() && Repr(e, v, c) && |v.stack| > 0
    ensures Reached(e, c, cur)
    ensures var m := StackMem(e.m, |v.stack|, 1); cur.done == [Widen(Eax, m, signed, wide), MovMR(m, Eax)]
    ensures var n := |v.stack|; cur.v == v.(stack := v.stack[n - 1 := WidenWord(v.stack[n - 1], signed, wide)])
  {
    hide Reached, Repr, RunBlock, WidenWord, Exec;
    var n := |v.stack|;
    cur := Begin(e, v, c);
    OperandAt(e, c, cur, n - 1);
    var w := WidenWord(v.stack[n - 1], signed, wide);
    WidenRuns(c, StackMem(e.m, n, 1), v.stack[n - 1], signed, wide);
    cur := DoScratch(e, c, cur, Widen(Eax, StackMem(e.m, n, 1), signed, wide), c.(eax := w));
    cur := DoStoreStack(e, c, cur, Eax, 1);
  }

  lemma WidenBody(e: Env, i: Insn, v: Vars, c: Cpu) returns (cur: Cursor)
    requires Start(e, i, v, c) && (i.I2b? || i.I2c? || i.I2s?)
    ensures Reached(e, c, cur) && cur.done == ArithBody(e.m, i, |v.stack|)
    ensures CompiledEffect(e.m, i, v) == Some(cur.v)
  {
    hide Reached, Repr, WidenWord, CompiledEffect, StackMem;
    cur := WidenTop(e, v, c, !i.I2c?, i.I2s?);
    WidenEffect(e.m, i, v);
    assert CompiledEffect(e.m, i, v).value.stack == cur.v.stack;
  }

  // ----- the theorem about one straight-line bytecode -----

  /** Running the code selected for a bytecode takes a machine that represents a frame to one that
      represents the frame the selected code computes, or traps. */
  lemma BodyRuns(e: Env, i: Insn, v: Vars, c: Cpu)
    requires Start(e, i, v, c) && !IsBranch(i)
    ensures match CompiledEffect(e.m, i, v)
            case Some(w) => RunBlock(Body(e.m, i, |v.stack|), c).Some? &&
                            Repr(e, w, RunBlock(Body(e.m, i, |v.stack|), c).value)
            case None => RunBlock(Body(e.m, i, |v.stack|), c).None?
  {
    hide RunBlock, Repr, Effect, CompiledEffect;
    var cur: Cursor;
    if i.Nop? || i.AconstNull? || i.Iconst? || i.Lconst? || i.Bipush? || i.Sipush? || i.Load? || i.Store? {
      cur := SimpleBody(e, i, v, c);
    } else if i.Dup? || i.DupX1? || i.DupX2? {
      cur := DupBody(e, i, v, c);
      PlainEffect(e.m, i, v);
    } else if i.Dup2? || i.Dup2X1? || i.Dup2X2? {
      cur := Dup2Body(e, i, v, c);
      PlainEffect(e.m, i, v);
    } else if i.Pop? || i.Pop2? || i.Swap? {
      cur := PopSwapBody(e, i, v, c);
      PlainEffect(e.m, i, v);
    } else if i.IntDiv? || i.IntRem? {
      cur := DivBody(e, i, v, c);
    } else if i.I2b? || i.I2c? || i.I2s? {
      cur := WidenBody(e, i, v, c);
    } else {
      PlainEffect(e.m, i, v);
      match i
      case Arith(op) => cur := ArithOpBody(e, op, v, c);
      case IntMul => cur := MulBody(e, v, c);
      case IntNeg => cur := NegBody(e, v, c);
      case LongNeg => cur := LongNegBody(e, v, c);
      case Iinc(x, k) => cur := IincBody(e, x, k, v, c);
    }
  }

  /** A bytecode that does not throw is compiled correctly exactly when its operands satisfy `Exact`. */
  lemma BodyCorrectIff(e: Env, i: Insn, v: Vars, c: Cpu)
    requires Start(e, i, v, c) && !IsBranch(i) && Effect(e.m, i, v).Some?
    ensures Exact(i, v.stack) <==>
            var r := RunBlock(Body(e.m, i, |v.stack|), c);
            r.Some? && Repr(e, Effect(e.m, i, v).value, r.value)
  {
    hide RunBlock, Repr, Effect, CompiledEffect, Body;
    BodyRuns(e, i, v, c);
    ExactIff(e.m, i, v);
    var r := RunBlock(Body(e.m, i, |v.stack|), c);
    if r.Some? && Repr(e, Effect(e.m, i, v).value, r.value) {
      ReprUnique(e, Effect(e.m, i, v).value, CompiledEffect(e.m, i, v).value, r.value);
    }
  }

  // ----- branches -----

  /** Signed comparison read from the flags a subtraction leaves. */
  lemma FlagsCompare(c: Cpu, cc: Cond, a: Word, b: Word)
    ensures WithFlags(c, Alu(Sub, a, b, c.cf)).Holds(cc) <==> Compare(cc, Signed(a), Signed(b))
  {
  }

  lemma FlagsCompareZero(c: Cpu, cc: Cond, a: Word)
    ensures WithFlags(c, Alu(OrOp, a, a, c.cf)).Holds(cc) <==> Compare(cc, Signed(a), 0)
  {
    LogicSelf(a);
  }

  lemma OrKeeps(a: Word, carry: bool)
    ensures Alu(OrOp, a, a, carry).value == a
  {
    LogicSelf(a);
  }

  lemma IfZeroRuns(e: Env, cc: Cond, t: int, v: Vars, c: Cpu) returns (cur: Cursor)
    requires Start(e, IfZero(cc, t), v, c)
    ensures Reached(e, c, cur) && cur.done == [PopR(Eax), AluRR(OrOp, Eax, Eax)]
    ensures cur.v == v.(stack := v.stack[..|v.stack| - 1])
    ensures cur.c.Holds(cc) <==> Taken(IfZero(cc, t), v.stack)
  {
    hide Reached, Repr, RunBlock, Alu;
    var a := v.stack[|v.stack| - 1];
    cur := Begin(e, v, c);
    cur := DoPop(e, c, cur, Eax);
    FlagsCompareZero(cur.c, cc, a);
    OrKeeps(a, cur.c.cf);
    cur := DoAluRR(e, c, cur, OrOp, Eax, Eax);
  }

  lemma IfCmpRuns(e: Env, cc: Cond, t: int, v: Vars, c: Cpu) returns (cur: Cursor)
    requires Start(e, IfCmp(cc, t), v, c)
    ensures Reached(e, c, cur) && cur.done == [PopR(Eax), PopR(Ecx), AluRR(Sub, Ecx, Eax)]
    ensures cur.v == v.(stack := v.stack[..|v.stack| - 2])
    ensures cur.c.Holds(cc) <==> Taken(IfCmp(cc, t), v.stack)
  {
    hide Reached, Repr, RunBlock, Alu;
    var n := |v.stack|;
    cur := Begin(e, v, c);
    cur := DoPop(e, c, cur, Eax);
    cur := DoPop(e, c, cur, Ecx);
    assert v.stack[..n - 1][..n - 2] == v.stack[..n - 2];
    FlagsCompare(cur.c, cc, v.stack[n - 2], v.stack[n - 1]);
    cur := DoAluRR(e, c, cur, Sub, Ecx, Eax);
  }

  /** The code before a conditional jump drops the operands and leaves the flags of the comparison. */
  lemma ConditionalRuns(e: Env, i: Insn, v: Vars, c: Cpu)
    requires Start(e, i, v, c) && IsConditional(i)
    ensures var b := BranchBody(i);
            var r := RunBlock(b[..|b| - 1], c);
            r.Some? && Repr(e, v.(stack := v.stack[..|v.stack| - Pops(i)]), r.value)
            && (r.value.Holds(i.cond) <==> Taken(i, v.stack))
  {
    hide Repr, RunBlock, Taken;
    var b := BranchBody(i);
    match i
    case IfZero(cc, t) =>
      var cur := IfZeroRuns(e, cc, t, v, c);
      assert b[..|b| - 1] == cur.done;
    case IfCmp(cc, t) =>
      var cur := IfCmpRuns(e, cc, t, v, c);
      assert b[..|b| - 1] == cur.done;
  }

  /** The code before a return's jump leaves the returned words in eax and edx:eax. */
  lemma ReturnRuns(e: Env, k: int, v: Vars, c: Cpu)
    requires Start(e, ReturnWords(k), v, c)
    ensures var b := BranchBody(ReturnWords(k));
            var r := RunBlock(b[..|b| - 1], c);
            r.Some? && Repr(e, v.(stack := v.stack[..|v.stack| - k]), r.value)
            && (k >= 1 ==> r.value.eax == v.stack[|v.stack| - 1])
            && (k == 2 ==> r.value.edx == v.stack[|v.stack| - 2])
  {
    hide Repr, RunBlock, BranchBody;
    var n := |v.stack|;
    ReturnPops(k);
    var cur := Begin(e, v, c);
    if k == 0 {
      assert v.stack[..n] == v.stack;
    } else {
      cur := DoPop(e, c, cur, Eax);
      assert cur.done == [PopR(Eax)];
      if k == 2 {
        cur := DoPop(e, c, cur, Edx);
        assert cur.done == [PopR(Eax), PopR(Edx)];
        assert v.stack[..n - 1][..n - 2] == v.stack[..n - 2];
      }
    }
  }

  lemma ReturnPops(k: int)
    requires 0 <= k <= 2
    ensures var b := BranchBody(ReturnWords(k));
            |b| > 0 && b[..|b| - 1] == if k == 0 then [] else if k == 1 then [PopR(Eax)] else [PopR(Eax), PopR(Edx)]
  {
  }
}
