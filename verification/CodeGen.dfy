/** The bytecode cases of `select_code`: each emits its template and keeps the depth of the
    compile-time stack. */
module CodeGen {
  import opened Words
  import opened X86
  import opened Encoding
  import opened CodeStream
  import opened Bytecode
  import opened Frame
  import opened Templates
  import opened Room
  import opened Emitter

  /** The offset tables `prepare_stackframe` fills. */
  ghost predicate Tables(m: Method, locals: array<int>, stack: array<int>)
    reads locals, stack
  {
    && locals.Length == m.maxLocals && stack.Length == m.maxStack
    && (forall i :: 0 <= i < m.maxLocals ==> locals[i] == StoredLocal(m, i))
    && (forall k :: 0 <= k < m.maxStack ==> stack[k] == StoredStack(m, k))
  }

  method LoadStack(m: Method, locals: array<int>, stack: array<int>, buf: array<Byte>, at: nat, d: int, i: int,
                   reg: Reg, ghost done: Code, ghost n: int)
    returns (r: nat)
    requires Tables(m, locals, stack) && buf as object != locals && buf as object != stack
    requires HasRoom(buf, at, done, n) && n >= 11 && 0 <= d - i < m.maxStack
    modifies buf
    ensures HasRoom(buf, r, done + [MovRM(reg, StackMem(m, d, i))], n - 6)
  {
    hide Encode;
    var op := MovRM(reg, BaseDisp(Ebp, stack[d - i]));
    FrameMoveSize(op);
    r := Mov(buf, at, op, done, n);
  }

  method StoreStack(m: Method, locals: array<int>, stack: array<int>, buf: array<Byte>, at: nat, d: int, i: int,
                    reg: Reg, ghost done: Code, ghost n: int)
    returns (r: nat)
    requires Tables(m, locals, stack) && buf as object != locals && buf as object != stack
    requires HasRoom(buf, at, done, n) && n >= 11 && 0 <= d - i < m.maxStack
    modifies buf
    ensures HasRoom(buf, r, done + [MovMR(StackMem(m, d, i), reg)], n - 6)
  {
    hide Encode;
    var op := MovMR(BaseDisp(Ebp, stack[d - i]), reg);
    FrameMoveSize(op);
    r := Mov(buf, at, op, done, n);
  }

  method StackPushConst(buf: array<Byte>, at: nat, depth: int, w: Word, ghost done: Code, ghost n: int)
    returns (r: nat, d: int)
    requires HasRoom(buf, at, done, n) && n >= 11
    modifies buf
    ensures HasRoom(buf, r, done + [PushI(w)], n - 11) && d == depth + 1
  {
    hide Encode;
    d := depth + 1;
    r := PushOpnd(buf, at, PushI(w), done, n);
  }

  method StackPushReg(buf: array<Byte>, at: nat, depth: int, reg: Reg, ghost done: Code, ghost n: int)
    returns (r: nat, d: int)
    requires HasRoom(buf, at, done, n) && n >= 11
    modifies buf
    ensures HasRoom(buf, r, done + [PushR(reg)], n - 6) && d == depth + 1
  {
    hide Encode;
    d := depth + 1;
    PushPopSize(PushR(reg));
    r := PushOpnd(buf, at, PushR(reg), done, n);
  }

  method StackPopReg(buf: array<Byte>, at: nat, depth: int, reg: Reg, ghost done: Code, ghost n: int)
    returns (r: nat, d: int)
    requires HasRoom(buf, at, done, n) && n >= 11
    modifies buf
    ensures HasRoom(buf, r, done + [PopR(reg)], n - 6) && d == depth - 1
  {
    hide Encode;
    PushPopSize(PopR(reg));
    r := PopOpnd(buf, at, PopR(reg), done, n);
    d := depth - 1;
  }

  // ----- constants, loads and stores -----

  method EmitSimple(m: Method, locals: array<int>, stack: array<int>, buf: array<Byte>, at: nat, i: Insn, depth: int,
                    ghost done: Code)
    returns (r: nat, d: int)
    requires Tables(m, locals, stack) && buf as object != locals && buf as object != stack
    requires HasRoom(buf, at, done, 100) && LocalOk(m, i)
    requires i.Nop? || i.AconstNull? || i.Iconst? || i.Lconst? || i.Bipush? || i.Sipush? || i.Load? || i.Store?
    modifies buf
    ensures HasRoom(buf, r, done + Body(m, i, depth), 5) && d == depth - Pops(i) + Pushes(i)
  {
    hide Holds, HasRoom, Encode;
    ghost var g, n := done, 100;
    r, d := at, depth;
    match i {
      case Nop =>
      case AconstNull =>
        r, d := StackPushConst(buf, r, d, 0, g, n);
        g, n := g + [PushI(0)], n - 11;
      case Iconst(k) =>
        r, d := StackPushConst(buf, r, d, Wrap(k), g, n);
        g, n := g + [PushI(Wrap(k))], n - 11;
      case Lconst(k) =>
        r, d := StackPushConst(buf, r, d, 0, g, n);
        g, n := g + [PushI(0)], n - 11;
        r, d := StackPushConst(buf, r, d, Wrap(k), g, n);
        g, n := g + [PushI(Wrap(k))], n - 11;
      case Bipush(b) =>
        r, d := StackPushConst(buf, r, d, b, g, n);
        g, n := g + [PushI(b)], n - 11;
      case Sipush(u) =>
        r, d := StackPushConst(buf, r, d, Wrap(u), g, n);
        g, n := g + [PushI(Wrap(u))], n - 11;
      case Load(x) =>
        r := Mov(buf, r, MovRM(Eax, BaseDisp(Ebp, locals[x])), g, n);
        g, n := g + [MovRM(Eax, LocalMem(m, x))], n - 11;
        r, d := StackPushReg(buf, r, d, Eax, g, n);
        g, n := g + [PushR(Eax)], n - 6;
      case Store(x) =>
        r, d := StackPopReg(buf, r, d, Eax, g, n);
        g, n := g + [PopR(Eax)], n - 6;
        r := Mov(buf, r, MovMR(BaseDisp(Ebp, locals[x]), Eax), g, n);
        g, n := g + [MovMR(LocalMem(m, x), Eax)], n - 11;
    }
    assert g == done + Body(m, i, depth);
    LessRoom(buf, r, g, n, 5);
  }

  // ----- operand stack rearrangement -----

  method EmitMove(m: Method, locals: array<int>, stack: array<int>, buf: array<Byte>, at: nat, d: int, from: int,
                  to: int, ghost done: Code, ghost n: int)
    returns (r: nat)
    requires Tables(m, locals, stack) && buf as object != locals && buf as object != stack
    requires HasRoom(buf, at, done, n) && n >= 17 && 0 <= d - from < m.maxStack && 0 <= d - to < m.maxStack
    modifies buf
    ensures HasRoom(buf, r, done + MoveSlot(m, d, from, to), n - 12)
  {
    hide Holds, HasRoom, Encode;
    r := LoadStack(m, locals, stack, buf, at, d, from, Eax, done, n);
    r := StoreStack(m, locals, stack, buf, r, d, to, Eax, done + [MovRM(Eax, StackMem(m, d, from))], n - 6);
    assert done + [MovRM(Eax, StackMem(m, d, from))] + [MovMR(StackMem(m, d, to), Eax)]
        == done + MoveSlot(m, d, from, to);
  }

  method EmitDuplicate(m: Method, locals: array<int>, stack: array<int>, buf: array<Byte>, at: nat, depth: int,
                       from: int, ghost done: Code, ghost n: int)
    returns (r: nat, d: int)
    requires Tables(m, locals, stack) && buf as object != locals && buf as object != stack
    requires HasRoom(buf, at, done, n) && n >= 17 && 0 <= depth - from < m.maxStack
    modifies buf
    ensures HasRoom(buf, r, done + [MovRM(Eax, StackMem(m, depth, from)), PushR(Eax)], n - 12) && d == depth + 1
  {
    hide Holds, HasRoom, Encode;
    r := LoadStack(m, locals, stack, buf, at, depth, from, Eax, done, n);
    r, d := StackPushReg(buf, r, depth, Eax, done + [MovRM(Eax, StackMem(m, depth, from))], n - 6);
    assert done + [MovRM(Eax, StackMem(m, depth, from))] + [PushR(Eax)]
        == done + [MovRM(Eax, StackMem(m, depth, from)), PushR(Eax)];
  }

  method EmitDup(m: Method, locals: array<int>, stack: array<int>, buf: array<Byte>, at: nat, i: Insn, depth: int,
                 ghost done: Code)
    returns (r: nat, d: int)
    requires Tables(m, locals, stack) && buf as object != locals && buf as object != stack
    requires HasRoom(buf, at, done, 100) && Pops(i) <= depth <= m.maxStack && depth - Pops(i) + Pushes(i) <= m.maxStack
    requires i.Dup? || i.DupX1? || i.DupX2?
    modifies buf
    ensures HasRoom(buf, r, done + StackBody(m, i, depth), 5) && d == depth - Pops(i) + Pushes(i)
  {
    hide Holds, HasRoom, Encode, StackMem;
    ghost var g, n := done, 100;
    r, d := EmitDuplicate(m, locals, stack, buf, at, depth, 1, g, n);
    g, n := g + [MovRM(Eax, StackMem(m, depth, 1)), PushR(Eax)], n - 12;
    match i {
      case Dup =>
      case DupX1 =>
        r := EmitMove(m, locals, stack, buf, r, d, 3, 2, g, n);
        g, n := g + MoveSlot(m, d, 3, 2), n - 12;
        r := EmitMove(m, locals, stack, buf, r, d, 1, 3, g, n);
        g, n := g + MoveSlot(m, d, 1, 3), n - 12;
      case DupX2 =>
        r := EmitMove(m, locals, stack, buf, r, d, 3, 2, g, n);
        g, n := g + MoveSlot(m, d, 3, 2), n - 12;
        r := EmitMove(m, locals, stack, buf, r, d, 4, 3, g, n);
        g, n := g + MoveSlot(m, d, 4, 3), n - 12;
        r := EmitMove(m, locals, stack, buf, r, d, 1, 4, g, n);
        g, n := g + MoveSlot(m, d, 1, 4), n - 12;
    }
    assert g == done + StackBody(m, i, depth);
    LessRoom(buf, r, g, n, 5);
  }

  method EmitDup2X1Moves(m: Method, locals: array<int>, stack: array<int>, buf: array<Byte>, at: nat, d: int,
                          ghost done: Code, ghost n: int)
    returns (r: nat)
    requires Tables(m, locals, stack) && buf as object != locals && buf as object != stack
    requires HasRoom(buf, at, done, n) && n >= 41 && 5 <= d <= m.maxStack
    modifies buf
    ensures HasRoom(buf, r, done + MoveSlot(m, d, 5, 3) + MoveSlot(m, d, 1, 4) + MoveSlot(m, d, 2, 5), n - 36)
  {
    hide Holds, HasRoom, MoveSlot;
    r := EmitMove(m, locals, stack, buf, at, d, 5, 3, done, n);
    r := EmitMove(m, locals, stack, buf, r, d, 1, 4, done + MoveSlot(m, d, 5, 3), n - 12);
    r := EmitMove(m, locals, stack, buf, r, d, 2, 5, done + MoveSlot(m, d, 5, 3) + MoveSlot(m, d, 1, 4), n - 24);
  }

  method EmitDup2X2Moves(m: Method, locals: array<int>, stack: array<int>, buf: array<Byte>, at: nat, d: int,
                          ghost done: Code, ghost n: int)
    returns (r: nat)
    requires Tables(m, locals, stack) && buf as object != locals && buf as object != stack
    requires HasRoom(buf, at, done, n) && n >= 53 && 6 <= d <= m.maxStack
    modifies buf
    ensures HasRoom(buf, r,
                    done + MoveSlot(m, d, 5, 3) + MoveSlot(m, d, 6, 4) + MoveSlot(m, d, 1, 5) + MoveSlot(m, d, 2, 6),
                    n - 48)
  {
    hide Holds, HasRoom, MoveSlot;
    r := EmitMove(m, locals, stack, buf, at, d, 5, 3, done, n);
    ghost var g := done + MoveSlot(m, d, 5, 3);
    r := EmitMove(m, locals, stack, buf, r, d, 6, 4, g, n - 12);
    g := g + MoveSlot(m, d, 6, 4);
    r := EmitMove(m, locals, stack, buf, r, d, 1, 5, g, n - 24);
    r := EmitMove(m, locals, stack, buf, r, d, 2, 6, g + MoveSlot(m, d, 1, 5), n - 36);
  }

  method EmitDup2(m: Method, locals: array<int>, stack: array<int>, buf: array<Byte>, at: nat, i: Insn, depth: int,
                  ghost done: Code)
    returns (r: nat, d: int)
    requires Tables(m, locals, stack) && buf as object != locals && buf as object != stack
    requires HasRoom(buf, at, done, 100) && Pops(i) <= depth <= m.maxStack && depth - Pops(i) + Pushes(i) <= m.maxStack
    requires i.Dup2? || i.Dup2X1? || i.Dup2X2?
    modifies buf
    ensures HasRoom(buf, r, done + StackBody(m, i, depth), 5) && d == depth - Pops(i) + Pushes(i)
  {
    hide Holds, HasRoom, Encode, StackMem, MoveSlot;
    ghost var g, n := done, 100;
    r, d := EmitDuplicate(m, locals, stack, buf, at, depth, 2, g, n);
    g, n := g + [MovRM(Eax, StackMem(m, depth, 2)), PushR(Eax)], n - 12;
    r, d := EmitDuplicate(m, locals, stack, buf, r, d, 2, g, n);
    g, n := g + [MovRM(Eax, StackMem(m, depth + 1, 2)), PushR(Eax)], n - 12;
    if i.Dup2X1? {
      r := EmitDup2X1Moves(m, locals, stack, buf, r, d, g, n);
      g, n := g + MoveSlot(m, d, 5, 3) + MoveSlot(m, d, 1, 4) + MoveSlot(m, d, 2, 5), n - 36;
    } else if i.Dup2X2? {
      r := EmitDup2X2Moves(m, locals, stack, buf, r, d, g, n);
      g, n := g + MoveSlot(m, d, 5, 3) + MoveSlot(m, d, 6, 4) + MoveSlot(m, d, 1, 5) + MoveSlot(m, d, 2, 6), n - 48;
    }
    assert g == done + StackBody(m, i, depth);
    LessRoom(buf, r, g, n, 5);
  }

  method EmitPopSwap(m: Method, locals: array<int>, stack: array<int>, buf: array<Byte>, at: nat, i: Insn, depth: int,
                     ghost done: Code)
    returns (r: nat, d: int)
    requires Tables(m, locals, stack) && buf as object != locals && buf as object != stack
    requires HasRoom(buf, at, done, 100) && Pops(i) <= depth <= m.maxStack
    requires i.Pop? || i.Pop2? || i.Swap?
    modifies buf
    ensures HasRoom(buf, r, done + StackBody(m, i, depth), 5) && d == depth - Pops(i) + Pushes(i)
  {
    hide Holds, HasRoom, Encode, StackMem;
    ghost var g, n := done, 100;
    r, d := at, depth;
    match i {
      case Pop =>
        r, d := StackPopReg(buf, r, d, Eax, g, n);
        g, n := g + [PopR(Eax)], n - 6;
      case Pop2 =>
        r, d := StackPopReg(buf, r, d, Eax, g, n);
        g, n := g + [PopR(Eax)], n - 6;
        r, d := StackPopReg(buf, r, d, Eax, g, n);
        g, n := g + [PopR(Eax)], n - 6;
      case Swap =>
        r := LoadStack(m, locals, stack, buf, r, d, 1, Eax, g, n);
        g, n := g + [MovRM(Eax, StackMem(m, d, 1))], n - 6;
        r := LoadStack(m, locals, stack, buf, r, d, 2, Edx, g, n);
        g, n := g + [MovRM(Edx, StackMem(m, d, 2))], n - 6;
        r := StoreStack(m, locals, stack, buf, r, d, 1, Edx, g, n);
        g, n := g + [MovMR(StackMem(m, d, 1), Edx)], n - 6;
        r := StoreStack(m, locals, stack, buf, r, d, 2, Eax, g, n);
        g, n := g + [MovMR(StackMem(m, d, 2), Eax)], n - 6;
    }
    assert g == done + StackBody(m, i, depth);
    LessRoom(buf, r, g, n, 5);
  }

  // ----- arithmetic -----

  method EmitAlu(m: Method, locals: array<int>, stack: array<int>, buf: array<Byte>, at: nat, i: Insn, depth: int,
                 ghost done: Code, ghost n: int)
    returns (r: nat, d: int)
    requires Tables(m, locals, stack) && buf as object != locals && buf as object != stack
    requires HasRoom(buf, at, done, n) && n >= 22 && Pops(i) <= depth <= m.maxStack && (i.Arith? || i.IntNeg?)
    modifies buf
    ensures HasRoom(buf, r, done + ArithBody(m, i, depth), n - 17) && d == depth - Pops(i) + Pushes(i)
  {
    hide Holds, HasRoom, Encode;
    r, d := at, depth;
    match i {
      case Arith(op) =>
        r, d := StackPopReg(buf, r, d, Eax, done, n);
        ghost var l: Code := [PopR(Eax), AluMR(AluOfArith(op), StackMem(m, d, 1), Eax)];
        r := BinAlu(buf, r, AluMR(AluOfArith(op), BaseDisp(Ebp, stack[d - 1]), Eax), done + [PopR(Eax)], n - 6);
        assert done + [PopR(Eax)] + [AluMR(AluOfArith(op), StackMem(m, d, 1), Eax)] == done + l;
      case IntNeg =>
        r := UniAlu(buf, r, NegM(BaseDisp(Ebp, stack[d - 1])), done, n);
        LessRoom(buf, r, done + [NegM(StackMem(m, d, 1))], n - 11, n - 17);
    }
  }

  method EmitMul(m: Method, locals: array<int>, stack: array<int>, buf: array<Byte>, at: nat, depth: int,
                 ghost done: Code, ghost n: int)
    returns (r: nat, d: int)
    requires Tables(m, locals, stack) && buf as object != locals && buf as object != stack
    requires HasRoom(buf, at, done, n) && n >= 28 && 2 <= depth <= m.maxStack
    modifies buf
    ensures var mem := StackMem(m, depth - 1, 1);
            HasRoom(buf, r, done + [PopR(Eax), MulDivM(Imul, mem), MovMR(mem, Eax)], n - 23) && d == depth - 1
  {
    hide Holds, HasRoom, Encode;
    ghost var g := done;
    r, d := StackPopReg(buf, at, depth, Eax, g, n);
    g := g + [PopR(Eax)];
    r := MulDivide(buf, r, MulDivM(Imul, BaseDisp(Ebp, stack[d - 1])), g, n - 6);
    g := g + [MulDivM(Imul, StackMem(m, d, 1))];
    r := StoreStack(m, locals, stack, buf, r, d, 1, Eax, g, n - 17);
    assert g + [MovMR(StackMem(m, d, 1), Eax)] ==
           done + [PopR(Eax), MulDivM(Imul, StackMem(m, d, 1)), MovMR(StackMem(m, d, 1), Eax)];
  }

  method EmitDivRem(buf: array<Byte>, at: nat, quotient: bool, depth: int, ghost done: Code, ghost n: int)
    returns (r: nat, d: int)
    requires HasRoom(buf, at, done, n) && n >= 45
    modifies buf
    ensures d == depth - 1
    ensures var l: Code := [PopR(Ecx), PopR(Eax), Cdq, MulDivR(Idiv, Ecx), PushR(if quotient then Eax else Edx)];
            HasRoom(buf, r, done + l, n - 40)
  {
    hide Holds, HasRoom, Encode;
    r, d := EmitDivide(buf, at, depth, done, n);
    ghost var g: Code := done + [PopR(Ecx), PopR(Eax), Cdq, MulDivR(Idiv, Ecx)];
    var reg := if quotient then Eax else Edx;
    r, d := StackPushReg(buf, r, d, reg, g, n - 34);
    assert g + [PushR(reg)] == done + [PopR(Ecx), PopR(Eax), Cdq, MulDivR(Idiv, Ecx), PushR(reg)];
  }

  method EmitArith(m: Method, locals: array<int>, stack: array<int>, buf: array<Byte>, at: nat, i: Insn, depth: int,
                   ghost done: Code)
    returns (r: nat, d: int)
    requires Tables(m, locals, stack) && buf as object != locals && buf as object != stack
    requires HasRoom(buf, at, done, 100) && Pops(i) <= depth <= m.maxStack
    requires i.Arith? || i.IntMul? || i.IntDiv? || i.IntRem? || i.IntNeg?
    modifies buf
    ensures HasRoom(buf, r, done + ArithBody(m, i, depth), 5) && d == depth - Pops(i) + Pushes(i)
  {
    hide Holds, HasRoom, Encode;
    ghost var g, n := done, 100;
    r, d := at, depth;
    if i.IntDiv? || i.IntRem? {
      r, d := EmitDivRem(buf, at, i.IntDiv?, depth, done, 100);
      g, n := done + [PopR(Ecx), PopR(Eax), Cdq, MulDivR(Idiv, Ecx), PushR(if i.IntDiv? then Eax else Edx)], 60;
    } else if i.IntMul? {
      r, d := EmitMul(m, locals, stack, buf, at, depth, done, 100);
      g, n := done + [PopR(Eax), MulDivM(Imul, StackMem(m, d, 1)), MovMR(StackMem(m, d, 1), Eax)], 77;
    } else {
      r, d := EmitAlu(m, locals, stack, buf, at, i, depth, done, 100);
      g, n := done + ArithBody(m, i, depth), 83;
    }
    assert g == done + ArithBody(m, i, depth);
    LessRoom(buf, r, g, n, 5);
  }

  method EmitDivide(buf: array<Byte>, at: nat, depth: int, ghost done: Code, ghost room: int) returns (r: nat, d: int)
    requires HasRoom(buf, at, done, room) && room >= 39
    modifies buf
    ensures HasRoom(buf, r, done + [PopR(Ecx), PopR(Eax), Cdq, MulDivR(Idiv, Ecx)], room - 34) && d == depth - 2
  {
    hide Holds, HasRoom, Encode;
    ghost var g, n := done, room;
    r, d := StackPopReg(buf, at, depth, Ecx, g, n);
    g, n := g + [PopR(Ecx)], n - 6;
    r, d := StackPopReg(buf, r, d, Eax, g, n);
    g, n := g + [PopR(Eax)], n - 6;
    r := PutCdq(buf, r, g, n);
    g, n := g + [Cdq], n - 11;
    r := MulDivide(buf, r, MulDivR(Idiv, Ecx), g, n);
    g, n := g + [MulDivR(Idiv, Ecx)], n - 11;
    assert g == done + [PopR(Ecx), PopR(Eax), Cdq, MulDivR(Idiv, Ecx)];
  }

  method EmitLongNeg(buf: array<Byte>, at: nat, depth: int, ghost done: Code, ghost room: int) returns (r: nat, d: int)
    requires HasRoom(buf, at, done, room) && room >= 62
    modifies buf
    ensures d == depth
    ensures var l: Code := [PopR(Eax), PopR(Edx), NegR(Eax), AluRI(Adc, Edx, 0), NegR(Edx), PushR(Edx), PushR(Eax)];
            HasRoom(buf, r, done + l, room - 57)
  {
    hide Holds, HasRoom, Encode;
    ghost var g, n := done, room;
    r, d := at, depth;
    r, d := StackPopReg(buf, r, d, Eax, g, n);
    g, n := g + [PopR(Eax)], n - 6;
    r, d := StackPopReg(buf, r, d, Edx, g, n);
    g, n := g + [PopR(Edx)], n - 6;
    r := UniAlu(buf, r, NegR(Eax), g, n);
    g, n := g + [NegR(Eax)], n - 11;
    r := BinAlu(buf, r, AluRI(Adc, Edx, 0), g, n);
    g, n := g + [AluRI(Adc, Edx, 0)], n - 11;
    r := UniAlu(buf, r, NegR(Edx), g, n);
    g, n := g + [NegR(Edx)], n - 11;
    r, d := StackPushReg(buf, r, d, Edx, g, n);
    g, n := g + [PushR(Edx)], n - 6;
    r, d := StackPushReg(buf, r, d, Eax, g, n);
    g, n := g + [PushR(Eax)], n - 6;
    assert g == done + [PopR(Eax), PopR(Edx), NegR(Eax), AluRI(Adc, Edx, 0), NegR(Edx), PushR(Edx), PushR(Eax)];
  }

  method EmitUpdate(m: Method, locals: array<int>, stack: array<int>, buf: array<Byte>, at: nat, i: Insn, depth: int,
                    ghost done: Code)
    returns (r: nat, d: int)
    requires Tables(m, locals, stack) && buf as object != locals && buf as object != stack
    requires HasRoom(buf, at, done, 100) && Pops(i) <= depth <= m.maxStack && LocalOk(m, i)
    requires i.LongNeg? || i.Iinc? || i.I2b? || i.I2c? || i.I2s?
    modifies buf
    ensures HasRoom(buf, r, done + ArithBody(m, i, depth), 5) && d == depth - Pops(i) + Pushes(i)
  {
    hide Holds, HasRoom, Encode;
    ghost var g, n := done, 100;
    r, d := at, depth;
    match i {
      case LongNeg =>
        r, d := EmitLongNeg(buf, at, depth, done, 100);
        g, n := done + ArithBody(m, i, depth), 43;
      case Iinc(x, k) =>
        r := BinAlu(buf, r, AluMI(Add, BaseDisp(Ebp, locals[x]), Wrap(k)), g, n);
        g, n := g + [AluMI(Add, LocalMem(m, x), Wrap(k))], n - 11;
      case I2b =>
        r := EmitWiden(m, locals, stack, buf, r, d, true, false, g, n);
        g, n := g + [Widen(Eax, StackMem(m, d, 1), true, false), MovMR(StackMem(m, d, 1), Eax)], n - 17;
      case I2c =>
        r := EmitWiden(m, locals, stack, buf, r, d, false, false, g, n);
        g, n := g + [Widen(Eax, StackMem(m, d, 1), false, false), MovMR(StackMem(m, d, 1), Eax)], n - 17;
      case I2s =>
        r := EmitWiden(m, locals, stack, buf, r, d, true, true, g, n);
        g, n := g + [Widen(Eax, StackMem(m, d, 1), true, true), MovMR(StackMem(m, d, 1), Eax)], n - 17;
    }
    assert g == done + ArithBody(m, i, depth);
    LessRoom(buf, r, g, n, 5);
  }

  method EmitWiden(m: Method, locals: array<int>, stack: array<int>, buf: array<Byte>, at: nat, d: int,
                   signed: bool, wide: bool, ghost done: Code, ghost n: int)
    returns (r: nat)
    requires Tables(m, locals, stack) && buf as object != locals && buf as object != stack
    requires HasRoom(buf, at, done, n) && n >= 22 && 1 <= d <= m.maxStack
    modifies buf
    ensures HasRoom(buf, r, done + [Widen(Eax, StackMem(m, d, 1), signed, wide), MovMR(StackMem(m, d, 1), Eax)], n - 17)
  {
    hide Holds, HasRoom, Encode;
    r := WidenToFull(buf, at, Widen(Eax, BaseDisp(Ebp, stack[d - 1]), signed, wide), done, n);
    r := StoreStack(m, locals, stack, buf, r, d, 1, Eax, done + [Widen(Eax, StackMem(m, d, 1), signed, wide)], n - 11);
    assert done + [Widen(Eax, StackMem(m, d, 1), signed, wide)] + [MovMR(StackMem(m, d, 1), Eax)]
        == done + [Widen(Eax, StackMem(m, d, 1), signed, wide), MovMR(StackMem(m, d, 1), Eax)];
  }

  // ----- branches and returns -----

  method EmitConditional(buf: array<Byte>, at: nat, i: Insn, depth: int, ghost done: Code) returns (r: nat, d: int)
    requires HasRoom(buf, at, done, 100) && IsConditional(i)
    modifies buf
    ensures HasRoom(buf, r, done + BranchBody(i), 5) && d == depth - Pops(i) + Pushes(i)
  {
    hide Holds, HasRoom, Encode;
    ghost var g, n := done, 100;
    r, d := StackPopReg(buf, at, depth, Eax, g, n);
    g, n := g + [PopR(Eax)], n - 6;
    if i.IfZero? {
      r := BinAlu(buf, r, AluRR(OrOp, Eax, Eax), g, n);
      g, n := g + [AluRR(OrOp, Eax, Eax)], n - 11;
    } else {
      r, d := StackPopReg(buf, r, d, Ecx, g, n);
      g, n := g + [PopR(Ecx)], n - 6;
      r := BinAlu(buf, r, AluRR(Sub, Ecx, Eax), g, n);
      g, n := g + [AluRR(Sub, Ecx, Eax)], n - 11;
    }
    r := Branch(buf, r, JccRel(i.cond, 0), g, n);
    g, n := g + [JccRel(i.cond, 0)], n - 11;
    assert g == done + BranchBody(i);
    LessRoom(buf, r, g, n, 5);
  }

  method EmitReturn(buf: array<Byte>, at: nat, count: int, depth: int, ghost done: Code) returns (r: nat, d: int)
    requires HasRoom(buf, at, done, 100) && 0 <= count <= 2
    modifies buf
    ensures HasRoom(buf, r, done + BranchBody(ReturnWords(count)), 5) && d == depth - count
  {
    hide Holds, HasRoom, Encode;
    ghost var g, n := done, 100;
    r, d := at, depth;
    if count >= 1 {
      r, d := StackPopReg(buf, r, d, Eax, g, n);
      g, n := g + [PopR(Eax)], n - 6;
    }
    if count >= 2 {
      r, d := StackPopReg(buf, r, d, Edx, g, n);
      g, n := g + [PopR(Edx)], n - 6;
    }
    r := Jump(buf, r, JmpRel(0), g, n);
    g, n := g + [JmpRel(0)], n - 11;
    assert g == done + BranchBody(ReturnWords(count));
    LessRoom(buf, r, g, n, 5);
  }

  method EmitBranch(buf: array<Byte>, at: nat, i: Insn, depth: int, ghost done: Code) returns (r: nat, d: int)
    requires HasRoom(buf, at, done, 100) && IsBranch(i) && (i.ReturnWords? ==> 0 <= i.count <= 2)
    modifies buf
    ensures HasRoom(buf, r, done + BranchBody(i), 5) && d == depth - Pops(i) + Pushes(i)
  {
    hide Holds, HasRoom, Encode;
    if i.Goto? {
      r := Jump(buf, at, JmpRel(0), done, 100);
      d := depth;
      LessRoom(buf, r, done + [JmpRel(0)], 89, 5);
    } else if i.ReturnWords? {
      r, d := EmitReturn(buf, at, i.count, depth, done);
    } else {
      r, d := EmitConditional(buf, at, i, depth, done);
    }
  }

  /** The `switch` of `select_code`: the template of one instruction. */
  method EmitBody(m: Method, locals: array<int>, stack: array<int>, buf: array<Byte>, at: nat, i: Insn, depth: int,
                  ghost done: Code)
    returns (r: nat, d: int)
    requires Tables(m, locals, stack) && buf as object != locals && buf as object != stack
    requires HasRoom(buf, at, done, 100) && LocalOk(m, i)
    requires Pops(i) <= depth <= m.maxStack && depth - Pops(i) + Pushes(i) <= m.maxStack
    modifies buf
    ensures HasRoom(buf, r, done + Body(m, i, depth), 5) && d == depth - Pops(i) + Pushes(i)
  {
    hide Holds, HasRoom, Encode, StackBody, ArithBody, BranchBody;
    if IsBranch(i) {
      r, d := EmitBranch(buf, at, i, depth, done);
    } else if i.Dup? || i.DupX1? || i.DupX2? {
      r, d := EmitDup(m, locals, stack, buf, at, i, depth, done);
    } else if i.Dup2? || i.Dup2X1? || i.Dup2X2? {
      r, d := EmitDup2(m, locals, stack, buf, at, i, depth, done);
    } else if i.Pop? || i.Pop2? || i.Swap? {
      r, d := EmitPopSwap(m, locals, stack, buf, at, i, depth, done);
    } else if i.Arith? || i.IntMul? || i.IntDiv? || i.IntRem? || i.IntNeg? {
      r, d := EmitArith(m, locals, stack, buf, at, i, depth, done);
    } else if i.LongNeg? || i.Iinc? || i.I2b? || i.I2c? || i.I2s? {
      r, d := EmitUpdate(m, locals, stack, buf, at, i, depth, done);
    } else {
      r, d := EmitSimple(m, locals, stack, buf, at, i, depth, done);
    }
  }
}
