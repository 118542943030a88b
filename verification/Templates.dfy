/** The machine code selected for each bytecode. `d` is the depth of the compile-time stack before
    the instruction, from which the operand slots are found. */
module Templates {
  import opened Words
  import opened X86
  import opened CodeStream
  import opened Bytecode
  import opened Frame

  function LocalMem(m: Method, i: int): (r: Mem)
    ensures r.BaseDisp? && r.base == Ebp
  {
    BaseDisp(Ebp, StoredLocal(m, i))
  }

  /** The `i`-th operand from the top of a stack of depth `d`. */
  function StackMem(m: Method, d: int, i: int): (r: Mem)
    ensures r.BaseDisp? && r.base == Ebp
  {
    BaseDisp(Ebp, StoredStack(m, d - i))
  }

  function AluOfArith(op: ArithOp): AluOp {
    match op
    case IAdd => Add
    case ISub => Sub
    case IAnd => AndOp
    case IOr => OrOp
    case IXor => XorOp
  }

  function MoveSlot(m: Method, d: int, from: int, to: int): Code {
    [MovRM(Eax, StackMem(m, d, from)), MovMR(StackMem(m, d, to), Eax)]
  }

  function StackBody(m: Method, i: Insn, d: int): Code {
    match i
    case Pop => [PopR(Eax)]
    case Pop2 => [PopR(Eax), PopR(Eax)]
    case Dup => [MovRM(Eax, StackMem(m, d, 1)), PushR(Eax)]
    case DupX1 =>
      [MovRM(Eax, StackMem(m, d, 1)), PushR(Eax)] + MoveSlot(m, d + 1, 3, 2) + MoveSlot(m, d + 1, 1, 3)
    case DupX2 =>
      [MovRM(Eax, StackMem(m, d, 1)), PushR(Eax)]
      + MoveSlot(m, d + 1, 3, 2) + MoveSlot(m, d + 1, 4, 3) + MoveSlot(m, d + 1, 1, 4)
    case Dup2 =>
      [MovRM(Eax, StackMem(m, d, 2)), PushR(Eax), MovRM(Eax, StackMem(m, d + 1, 2)), PushR(Eax)]
    case Dup2X1 =>
      [MovRM(Eax, StackMem(m, d, 2)), PushR(Eax), MovRM(Eax, StackMem(m, d + 1, 2)), PushR(Eax)]
      + MoveSlot(m, d + 2, 5, 3) + MoveSlot(m, d + 2, 1, 4) + MoveSlot(m, d + 2, 2, 5)
    case Dup2X2 =>
      [MovRM(Eax, StackMem(m, d, 2)), PushR(Eax), MovRM(Eax, StackMem(m, d + 1, 2)), PushR(Eax)]
      + MoveSlot(m, d + 2, 5, 3) + MoveSlot(m, d + 2, 6, 4)
      + MoveSlot(m, d + 2, 1, 5) + MoveSlot(m, d + 2, 2, 6)
    case Swap =>
      [MovRM(Eax, StackMem(m, d, 1)), MovRM(Edx, StackMem(m, d, 2)),
       MovMR(StackMem(m, d, 1), Edx), MovMR(StackMem(m, d, 2), Eax)]
    case _ => []
  }

  function NegateWords(): Code {
    [PopR(Eax), PopR(Edx), NegR(Eax), AluRI(Adc, Edx, 0), NegR(Edx), PushR(Edx), PushR(Eax)]
  }

  function WidenSlot(m: Method, d: int, signed: bool, wide: bool): Code {
    [Widen(Eax, StackMem(m, d, 1), signed, wide), MovMR(StackMem(m, d, 1), Eax)]
  }

  function ArithBody(m: Method, i: Insn, d: int): Code {
    match i
    case Arith(op) => [PopR(Eax), AluMR(AluOfArith(op), StackMem(m, d - 1, 1), Eax)]
    case IntMul =>
      [PopR(Eax), MulDivM(Imul, StackMem(m, d - 1, 1)), MovMR(StackMem(m, d - 1, 1), Eax)]
    case IntDiv => [PopR(Ecx), PopR(Eax), Cdq, MulDivR(Idiv, Ecx), PushR(Eax)]
    case IntRem => [PopR(Ecx), PopR(Eax), Cdq, MulDivR(Idiv, Ecx), PushR(Edx)]
    case IntNeg => [NegM(StackMem(m, d, 1))]
    case LongNeg => NegateWords()
    case Iinc(x, k) => [AluMI(Add, LocalMem(m, x), Wrap(k))]
    case I2b => WidenSlot(m, d, true, false)
    case I2c => WidenSlot(m, d, false, false)
    case I2s => WidenSlot(m, d, true, true)
    case _ => []
  }

  /** Instructions that end in a jump whose displacement is patched later. */
  function BranchBody(i: Insn): Code {
    match i
    case IfZero(c, _) => [PopR(Eax), AluRR(OrOp, Eax, Eax), JccRel(c, 0)]
    case IfCmp(c, _) => [PopR(Eax), PopR(Ecx), AluRR(Sub, Ecx, Eax), JccRel(c, 0)]
    case Goto(_) => [JmpRel(0)]
    case ReturnWords(n) =>
      (if n >= 1 then [PopR(Eax)] else []) + (if n >= 2 then [PopR(Edx)] else []) + [JmpRel(0)]
    case _ => []
  }

  /** BIPUSH and SIPUSH push their operand zero-extended. */
  function Body(m: Method, i: Insn, d: int): Code {
    match i
    case Nop => []
    case AconstNull => [PushI(0)]
    case Iconst(k) => [PushI(Wrap(k))]
    case Lconst(k) => [PushI(0), PushI(Wrap(k))]
    case Bipush(b) => [PushI(b)]
    case Sipush(u) => [PushI(Wrap(u))]
    case Load(x) => [MovRM(Eax, LocalMem(m, x)), PushR(Eax)]
    case Store(x) => [PopR(Eax), MovMR(LocalMem(m, x), Eax)]
    case _ =>
      if IsBranch(i) then BranchBody(i)
      else if i.Pop? || i.Pop2? || i.Dup? || i.DupX1? || i.DupX2? || i.Dup2? || i.Dup2X1? || i.Dup2X2? || i.Swap?
      then StackBody(m, i, d)
      else ArithBody(m, i, d)
  }

  lemma BranchBodyEnds(i: Insn)
    requires IsBranch(i)
    ensures var b := BranchBody(i);
            |b| > 0 && (b[|b| - 1].JccRel? || b[|b| - 1].JmpRel?) && b[|b| - 1].rel == 0
            && (b[|b| - 1].JccRel? <==> IsConditional(i))
  {
  }

  function Prolog(m: Method): Code {
    [PushR(Ebp), MovRR(Ebp, Esp), PushI(m.address), AluRI(Add, Esp, Wrap(StoredFrameSize(m) + 4))]
  }

  function Epilog(m: Method): Code
    requires m.argWords < 0x100
  {
    [MovRR(Esp, Ebp), PopR(Ebp), if m.argWords == 0 then Ret else RetI(4 * m.argWords)]
  }
}
