/** The int/reference subset of the bytecodes: reading them, and their meaning as section 6.5 of
    The Java Virtual Machine Specification gives it. Words on the operand stack are listed bottom
    first; a long occupies two words with its low word on top. */
module Bytecode {
  import opened Wrappers
  import opened Words
  import opened X86

  datatype ArithOp = IAdd | ISub | IAnd | IOr | IXor

  datatype Insn =
    | Nop
    | AconstNull
    | Iconst(n: int)
    | Lconst(n: int)
    | Bipush(b: Byte)
    | Sipush(u: int)
    | Load(index: int)
    | Store(index: int)
    | Pop | Pop2 | Dup | DupX1 | DupX2 | Dup2 | Dup2X1 | Dup2X2 | Swap
    | Arith(aop: ArithOp)
    | IntMul
    | IntDiv
    | IntRem
    | IntNeg
    | LongNeg
    | Iinc(index: int, delta: int)
    | I2b
    | I2c
    | I2s
    | IfZero(cond: Cond, target: int)
    | IfCmp(cond: Cond, target: int)
    | Goto(target: int)
    | ReturnWords(count: int)

  /** An instruction and the pc of the one that follows it. */
  datatype Parsed = Parsed(insn: Insn, next: nat)

  function Index8(code: seq<Byte>, at: nat): int
    requires at < |code|
  {
    code[at]
  }

  function Index16(code: seq<Byte>, at: nat): (u: int)
    requires at + 1 < |code|
    ensures 0 <= u < TWO_16
  {
    var hi: int, lo: int := code[at], code[at + 1];
    hi * 0x100 + lo
  }

  function Offset32(code: seq<Byte>, at: nat): Int32
    requires at + 3 < |code|
  {
    Signed(Index16(code, at) * TWO_16 + Index16(code, at + 2))
  }

  function CondAt(op: int, base: int): (c: Cond)
    requires base <= op < base + 6
  {
    if op == base then CcEq else if op == base + 1 then CcNe else if op == base + 2 then CcLt
    else if op == base + 3 then CcGe else if op == base + 4 then CcGt else CcLe
  }

  /** Opcodes without operand bytes. */
  function ParsePlain(op: Byte): Option<Insn> {
    if op == 0x00 then Some(Nop)
    else if op == 0x01 then Some(AconstNull)
    else if 0x02 <= op <= 0x08 then Some(Iconst(op - 0x03))
    else if 0x09 <= op <= 0x0a then Some(Lconst(op - 0x09))
    else if 0x1a <= op <= 0x1d then Some(Load(op - 0x1a))
    else if 0x2a <= op <= 0x2d then Some(Load(op - 0x2a))
    else if 0x3b <= op <= 0x3e then Some(Store(op - 0x3b))
    else if 0x4b <= op <= 0x4e then Some(Store(op - 0x4b))
    else if op == 0x57 then Some(Pop)
    else if op == 0x58 then Some(Pop2)
    else if op == 0x59 then Some(Dup)
    else if op == 0x5a then Some(DupX1)
    else if op == 0x5b then Some(DupX2)
    else if op == 0x5c then Some(Dup2)
    else if op == 0x5d then Some(Dup2X1)
    else if op == 0x5e then Some(Dup2X2)
    else if op == 0x5f then Some(Swap)
    else if op == 0x60 then Some(Arith(IAdd))
    else if op == 0x64 then Some(Arith(ISub))
    else if op == 0x68 then Some(IntMul)
    else if op == 0x6c then Some(IntDiv)
    else if op == 0x70 then Some(IntRem)
    else if op == 0x74 then Some(IntNeg)
    else if op == 0x75 then Some(LongNeg)
    else if op == 0x7e then Some(Arith(IAnd))
    else if op == 0x80 then Some(Arith(IOr))
    else if op == 0x82 then Some(Arith(IXor))
    else if op == 0x91 then Some(I2b)
    else if op == 0x92 then Some(I2c)
    else if op == 0x93 then Some(I2s)
    else if op == 0xac || op == 0xb0 then Some(ReturnWords(1))
    else if op == 0xad then Some(ReturnWords(2))
    else if op == 0xb1 then Some(ReturnWords(0))
    else None
  }

  /** Opcodes whose two operand bytes are a branch offset. */
  function ParseBranch(op: Byte, target: int): Option<Insn> {
    if 0x99 <= op <= 0x9e then Some(IfZero(CondAt(op, 0x99), target))
    else if 0x9f <= op <= 0xa4 then Some(IfCmp(CondAt(op, 0x9f), target))
    else if op == 0xa5 then Some(IfCmp(CcEq, target))
    else if op == 0xa6 then Some(IfCmp(CcNe, target))
    else if op == 0xa7 then Some(Goto(target))
    else if op == 0xc6 then Some(IfZero(CcEq, target))
    else if op == 0xc7 then Some(IfZero(CcNe, target))
    else None
  }

  /** The instruction at `pc`; `None` when it is cut off or outside the subset. */
  function Parse(code: seq<Byte>, pc: nat): Option<Parsed> {
    if pc >= |code| then None else
    var op := code[pc];
    match ParsePlain(op)
    case Some(i) => Some(Parsed(i, pc + 1))
    case None =>
      if pc + 1 >= |code| then None
      else if op == 0x10 then Some(Parsed(Bipush(code[pc + 1]), pc + 2))
      else if op == 0x15 || op == 0x19 then Some(Parsed(Load(Index8(code, pc + 1)), pc + 2))
      else if op == 0x36 || op == 0x3a then Some(Parsed(Store(Index8(code, pc + 1)), pc + 2))
      else if pc + 2 >= |code| then None
      else if op == 0x11 then Some(Parsed(Sipush(Index16(code, pc + 1)), pc + 3))
      else if op == 0x84 then Some(Parsed(Iinc(Index8(code, pc + 1), SignExtend8(code[pc + 2])), pc + 3))
      else match ParseBranch(op, pc + SignExtend16(Index16(code, pc + 1)))
        case Some(i) => Some(Parsed(i, pc + 3))
        case None =>
          if op == 0xc8 && pc + 4 < |code| then Some(Parsed(Goto(pc + Offset32(code, pc + 1)), pc + 5)) else None
  }

  function Succs(p: Parsed): seq<int> {
    match p.insn
    case IfZero(_, t) => [p.next, t]
    case IfCmp(_, t) => [p.next, t]
    case Goto(t) => [t]
    case ReturnWords(_) => []
    case _ => [p.next]
  }

  predicate IsBranch(i: Insn) {
    i.IfZero? || i.IfCmp? || i.Goto? || i.ReturnWords?
  }

  predicate IsConditional(i: Insn) {
    i.IfZero? || i.IfCmp?
  }

  // ----- operand stack effect -----

  function Pops(i: Insn): (n: int)
    ensures 0 <= n <= 4
  {
    match i
    case Store(_) => 1
    case Pop => 1
    case Pop2 => 2
    case Dup => 1
    case DupX1 => 2
    case DupX2 => 3
    case Dup2 => 2
    case Dup2X1 => 3
    case Dup2X2 => 4
    case Swap => 2
    case Arith(_) => 2
    case IntMul => 2
    case IntDiv => 2
    case IntRem => 2
    case IntNeg => 1
    case LongNeg => 2
    case I2b => 1
    case I2c => 1
    case I2s => 1
    case IfZero(_, _) => 1
    case IfCmp(_, _) => 2
    case ReturnWords(n) => if 0 <= n <= 2 then n else 0
    case _ => 0
  }

  function Pushes(i: Insn): (n: int)
    ensures 0 <= n <= 6
  {
    match i
    case AconstNull => 1
    case Iconst(_) => 1
    case Lconst(_) => 2
    case Bipush(_) => 1
    case Sipush(_) => 1
    case Load(_) => 1
    case Dup => 2
    case DupX1 => 3
    case DupX2 => 4
    case Dup2 => 4
    case Dup2X1 => 5
    case Dup2X2 => 6
    case Swap => 2
    case Arith(_) => 1
    case IntMul => 1
    case IntDiv => 1
    case IntRem => 1
    case IntNeg => 1
    case LongNeg => 2
    case I2b => 1
    case I2c => 1
    case I2s => 1
    case _ => 0
  }

  datatype Method = Method(code: seq<Byte>, maxLocals: nat, maxStack: nat, argWords: nat,
                           handlers: seq<nat>, address: Word)

  predicate LocalOk(m: Method, i: Insn) {
    match i
    case Load(x) => 0 <= x < m.maxLocals
    case Store(x) => 0 <= x < m.maxLocals
    case Iinc(x, d) => 0 <= x < m.maxLocals && -128 <= d < 128
    case Iconst(n) => -1 <= n <= 5
    case Lconst(n) => 0 <= n <= 1
    case Sipush(u) => 0 <= u < TWO_16
    case ReturnWords(n) => 0 <= n <= 2
    case _ => true
  }

  /** What the class file verifier guarantees of a method, with the stack depth of every pc it
      reaches: section 4.10 of The Java Virtual Machine Specification. `depths` may cover more pcs
      than are reachable. */
  ghost predicate Verified(m: Method, depths: map<nat, nat>) {
    && 0 in depths && depths[0] == 0
    && (forall h :: h in m.handlers ==> h in depths && depths[h] == 1)
    && |m.code| < TWO_15
    && m.argWords <= m.maxLocals
    && m.argWords < 0x100
    && forall p :: p in depths ==> PcOk(m, depths, p)
  }

  ghost predicate PcOk(m: Method, depths: map<nat, nat>, p: nat)
    requires p in depths
  {
    && Parse(m.code, p).Some?
    && var r := Parse(m.code, p).value;
       && LocalOk(m, r.insn)
       && Pops(r.insn) <= depths[p] <= m.maxStack
       && depths[p] - Pops(r.insn) + Pushes(r.insn) <= m.maxStack
       && forall q :: q in Succs(r) ==> q in depths && depths[q] == depths[p] - Pops(r.insn) + Pushes(r.insn)
  }

  // ----- meaning -----

  /** Local variables and operand stack of a frame. */
  datatype Vars = Vars(locals: seq<Word>, stack: seq<Word>)

  function ArithWords(op: ArithOp, a: Word, b: Word): Word {
    match op
    case IAdd => Wrap(Signed(a) + Signed(b))
    case ISub => Wrap(Signed(a) - Signed(b))
    case IAnd => Logic(LogicAnd, a, b)
    case IOr => Logic(LogicOr, a, b)
    case IXor => Logic(LogicXor, a, b)
  }

  predicate Compare(c: Cond, a: int, b: int) {
    match c
    case CcEq => a == b
    case CcNe => a != b
    case CcLt => a < b
    case CcGe => a >= b
    case CcLe => a <= b
    case CcGt => a > b
  }

  /** The 64-bit negation of a long given as high and low word. */
  function NegateLong(hi: Word, lo: Word): (Word, Word) {
    var two64 := TWO_32 * TWO_32;
    var r := if hi == 0 && lo == 0 then 0 else two64 - (hi * TWO_32 + lo);
    (r / TWO_32, r % TWO_32)
  }

  predicate Fits(m: Method, i: Insn, v: Vars) {
    LocalOk(m, i) && |v.locals| == m.maxLocals && |v.stack| >= Pops(i)
  }

  /** What an instruction that does not branch does to the frame. `None` is the division by zero,
      where the Java language throws an exception. */
  function Effect(m: Method, i: Insn, v: Vars): (r: Option<Vars>)
    requires Fits(m, i, v) && !IsBranch(i)
  {
    var s, n := v.stack, |v.stack|;
    match i
    case Nop => Some(v)
    case AconstNull => Some(v.(stack := s + [0]))
    case Iconst(k) => Some(v.(stack := s + [Wrap(k)]))
    case Lconst(k) => Some(v.(stack := s + [0, Wrap(k)]))
    case Bipush(b) => Some(v.(stack := s + [Wrap(SignExtend8(b))]))
    case Sipush(u) => Some(v.(stack := s + [Wrap(SignExtend16(u))]))
    case Load(x) => Some(v.(stack := s + [v.locals[x]]))
    case Store(x) => Some(Vars(v.locals[x := s[n - 1]], s[..n - 1]))
    case Pop => Some(v.(stack := s[..n - 1]))
    case Pop2 => Some(v.(stack := s[..n - 2]))
    case Dup => Some(v.(stack := s + [s[n - 1]]))
    case DupX1 => Some(v.(stack := s[..n - 2] + [s[n - 1], s[n - 2], s[n - 1]]))
    case DupX2 => Some(v.(stack := s[..n - 3] + [s[n - 1], s[n - 3], s[n - 2], s[n - 1]]))
    case Dup2 => Some(v.(stack := s + [s[n - 2], s[n - 1]]))
    case Dup2X1 => Some(v.(stack := s[..n - 3] + [s[n - 2], s[n - 1], s[n - 3], s[n - 2], s[n - 1]]))
    case Dup2X2 =>
      Some(v.(stack := s[..n - 4] + [s[n - 2], s[n - 1], s[n - 4], s[n - 3], s[n - 2], s[n - 1]]))
    case Swap => Some(v.(stack := s[..n - 2] + [s[n - 1], s[n - 2]]))
    case Arith(op) => Some(v.(stack := s[..n - 2] + [ArithWords(op, s[n - 2], s[n - 1])]))
    case IntMul => Some(v.(stack := s[..n - 2] + [Wrap(Product(s[n - 2], s[n - 1]))]))
    case IntDiv =>
      if s[n - 1] == 0 then None
      else Some(v.(stack := s[..n - 2] + [Wrap(TruncDiv(Signed(s[n - 2]), Signed(s[n - 1])))]))
    case IntRem =>
      if s[n - 1] == 0 then None
      else Some(v.(stack := s[..n - 2] + [Wrap(TruncRem(Signed(s[n - 2]), Signed(s[n - 1])))]))
    case IntNeg => Some(v.(stack := s[..n - 1] + [Wrap(0 - Signed(s[n - 1]))]))
    case LongNeg =>
      var (hi, lo) := NegateLong(s[n - 2], s[n - 1]);
      Some(v.(stack := s[..n - 2] + [hi, lo]))
    case Iinc(x, d) => Some(v.(locals := v.locals[x := Wrap(Signed(v.locals[x]) + d)]))
    case I2b => Some(v.(stack := s[..n - 1] + [Wrap(SignExtend8(s[n - 1] % TWO_8))]))
    case I2c => Some(v.(stack := s[..n - 1] + [s[n - 1] % TWO_16]))
    case I2s => Some(v.(stack := s[..n - 1] + [Wrap(SignExtend16(s[n - 1] % TWO_16))]))
  }

  /** Whether a conditional branch is taken; it removes its operands either way. */
  predicate Taken(i: Insn, s: seq<Word>)
    requires IsConditional(i) && |s| >= Pops(i)
  {
    match i
    case IfZero(c, _) => Compare(c, Signed(s[|s| - 1]), 0)
    case IfCmp(c, _) => Compare(c, Signed(s[|s| - 2]), Signed(s[|s| - 1]))
  }

  /** A running method, the words it returned, or an exception. */
  datatype Outcome = Running(pc: int, vars: Vars) | Finished(words: seq<Word>) | Thrown

  /** One bytecode instruction. */
  function JavaStep(m: Method, pc: nat, v: Vars): Outcome
    requires Parse(m.code, pc).Some? && Fits(m, Parse(m.code, pc).value.insn, v)
  {
    var r := Parse(m.code, pc).value;
    var i, n := r.insn, |v.stack|;
    match i
    case Goto(t) => Running(t, v)
    case ReturnWords(k) => Finished(v.stack[n - k..])
    case IfZero(_, t) => Running(if Taken(i, v.stack) then t else r.next, v.(stack := v.stack[..n - 1]))
    case IfCmp(_, t) => Running(if Taken(i, v.stack) then t else r.next, v.(stack := v.stack[..n - 2]))
    case _ =>
      match Effect(m, i, v)
      case None => Thrown
      case Some(w) => Running(r.next, w)
  }

  lemma EffectShape(m: Method, i: Insn, v: Vars)
    requires Fits(m, i, v) && !IsBranch(i)
    ensures Effect(m, i, v).Some? ==>
              |Effect(m, i, v).value.locals| == m.maxLocals &&
              |Effect(m, i, v).value.stack| == |v.stack| - Pops(i) + Pushes(i)
  {
  }
}
