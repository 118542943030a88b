/** The part of the IA-32 instruction set the just-in-time compiler emits, and a machine that runs it.

    Memory is a map from 4-aligned addresses to words: an access to an unmapped or unaligned
    address faults. Instructions that leave the straight line are given by `Transfer`. */
module X86 {
  import opened Wrappers
  import opened Words

  datatype Reg = Eax | Ecx | Edx | Ebx | Esp | Ebp | Esi | Edi

  /** The 8-bit registers: the low and the second bytes of the first four. */
  datatype ByteReg = Al | Cl | Dl | Bl | Ah | Ch | Dh | Bh

  /** The two memory operand kinds the compiler uses: base + displacement and scaled index. */
  datatype Mem =
    | BaseDisp(base: Reg, disp: Int32)
    | SibDisp(scale: int, index: Reg, base: Reg, disp: Int32)
  {
    predicate Valid() {
      SibDisp? ==> 0 <= scale < 4 && index != Esp
    }
  }

  datatype AluOp = Add | OrOp | Adc | Sbb | AndOp | Sub | XorOp | Cmp

  datatype MulDivOp = Mul | Imul | Div | Idiv

  /** Condition codes of the short and near conditional jumps the compiler uses. */
  datatype Cond = CcEq | CcNe | CcLt | CcGe | CcLe | CcGt

  datatype Instr =
    | MovRM(dst: Reg, src: Mem)
    | MovMR(mem: Mem, reg: Reg)
    | MovRR(dst: Reg, from: Reg)
    | MovRI(dst: Reg, imm: Word)
    | MovRM8(dst8: ByteReg, src: Mem)
    | MovMR8(mem: Mem, reg8: ByteReg)
    | MovRM16(dst: Reg, src: Mem)
    | MovMR16(mem: Mem, reg: Reg)
    | AluMR(op: AluOp, mem: Mem, reg: Reg)
    | AluRR(op: AluOp, dst: Reg, from: Reg)
    | AluRM(op: AluOp, dst: Reg, src: Mem)
    | AluRI(op: AluOp, dst: Reg, imm: Word)
    | AluMI(op: AluOp, mem: Mem, imm: Word)
    | NegR(reg: Reg)
    | NegM(mem: Mem)
    | DecR(reg: Reg)
    | MulDivR(mop: MulDivOp, reg: Reg)
    | MulDivM(mop: MulDivOp, mem: Mem)
    | Cdq
    | Widen(dst: Reg, src: Mem, signed: bool, wide: bool)
    | PushR(reg: Reg)
    | PushI(imm: Word)
    | PushM(mem: Mem)
    | PopR(reg: Reg)
    | Ret
    | RetI(bytes: int)
    | CallR(reg: Reg)
    | CallM(mem: Mem)
    | CallRel(rel: Int32)
    | JmpRel(rel: Int32)
    | JmpShort(short: int)
    | JmpR(reg: Reg)
    | JmpM(mem: Mem)
    | JccRel(cc: Cond, rel: Int32)
    | JccShort(cc: Cond, short: int)

  /** The operands are ones the encoder can express. */
  predicate Encodable(i: Instr) {
    match i
    case MovRM(_, m) => m.Valid()
    case MovMR(m, _) => m.Valid()
    case MovRR(_, from) => from != Eax // `mov` reads a register number as a pointer when the source is eax
    case MovRM8(_, m) => m.Valid()
    case MovMR8(m, _) => m.Valid()
    case MovRM16(_, m) => m.Valid()
    case MovMR16(m, from) => m.Valid() && from != Eax // `mov` puts an address size prefix in front of it
    case AluMR(_, m, _) => m.Valid()
    case AluRM(_, _, m) => m.Valid()
    case AluMI(_, m, _) => m.Valid()
    case NegM(m) => m.Valid()
    case MulDivM(_, m) => m.Valid()
    case Widen(_, m, _, _) => m.Valid()
    case PushM(m) => m.Valid()
    case CallM(m) => m.Valid()
    case JmpM(m) => m.Valid()
    case RetI(n) => 0 < n < TWO_16
    case JmpShort(d) => -128 <= d < 128
    case JccShort(_, d) => -128 <= d < 128
    case _ => true
  }

  datatype Cpu = Cpu(eax: Word, ecx: Word, edx: Word, ebx: Word, esp: Word, ebp: Word, esi: Word, edi: Word,
                     zf: bool, sf: bool, of: bool, cf: bool, mem: map<int, Word>)
  {
    function Get(r: Reg): Word {
      match r
      case Eax => eax
      case Ecx => ecx
      case Edx => edx
      case Ebx => ebx
      case Esp => esp
      case Ebp => ebp
      case Esi => esi
      case Edi => edi
    }

    function Set(r: Reg, v: Word): Cpu {
      match r
      case Eax => this.(eax := v)
      case Ecx => this.(ecx := v)
      case Edx => this.(edx := v)
      case Ebx => this.(ebx := v)
      case Esp => this.(esp := v)
      case Ebp => this.(ebp := v)
      case Esi => this.(esi := v)
      case Edi => this.(edi := v)
    }

    function Address(m: Mem): Word {
      match m
      case BaseDisp(b, d) => Wrap(Get(b) + d)
      case SibDisp(s, x, b, d) =>
        Wrap(Get(b) + Get(x) * (if s == 0 then 1 else if s == 1 then 2 else if s == 2 then 4 else 8) + d)
    }

    predicate Mapped(a: int) {
      a % 4 == 0 && a in mem
    }

    predicate Holds(cc: Cond) {
      match cc
      case CcEq => zf
      case CcNe => !zf
      case CcLt => sf != of
      case CcGe => sf == of
      case CcLe => zf || sf != of
      case CcGt => !zf && sf == of
    }

    function Store(a: int, v: Word): Option<Cpu> {
      if Mapped(a) then Some(this.(mem := mem[a := v])) else None
    }

    function Push(v: Word): Option<Cpu> {
      var sp := Wrap(esp - 4);
      if Mapped(sp) then Some(this.(esp := sp, mem := mem[sp := v])) else None
    }
  }

  /** A result together with the flags an arithmetic instruction leaves. */
  datatype Flagged = Flagged(value: Word, cf: bool, of: bool)

  predicate OutOfRange(x: int) {
    !(-TWO_31 <= x < TWO_31)
  }

  function Alu(op: AluOp, a: Word, b: Word, carry: bool): Flagged {
    var c := if carry then 1 else 0;
    match op
    case Add => Flagged(Wrap(a + b), a + b >= TWO_32, OutOfRange(Signed(a) + Signed(b)))
    case Adc => Flagged(Wrap(a + b + c), a + b + c >= TWO_32, OutOfRange(Signed(a) + Signed(b) + c))
    case Sub => Flagged(Wrap(a - b), a < b, OutOfRange(Signed(a) - Signed(b)))
    case Cmp => Flagged(Wrap(a - b), a < b, OutOfRange(Signed(a) - Signed(b)))
    case Sbb => Flagged(Wrap(a - b - c), a < b + c, OutOfRange(Signed(a) - Signed(b) - c))
    case AndOp => Flagged(Logic(LogicAnd, a, b), false, false)
    case OrOp => Flagged(Logic(LogicOr, a, b), false, false)
    case XorOp => Flagged(Logic(LogicXor, a, b), false, false)
  }

  function WithFlags(c: Cpu, f: Flagged): Cpu {
    c.(zf := f.value == 0, sf := f.value >= TWO_31, of := f.of, cf := f.cf)
  }

  /** `mul`, `imul`, `div`, `idiv` on edx:eax; division faults on zero and on a quotient that does not fit. */
  function MulDiv(op: MulDivOp, c: Cpu, v: Word): Option<Cpu> {
    match op
    case Mul =>
      var p := c.eax * v;
      Some(c.(eax := Wrap(p), edx := Wrap(p / TWO_32)))
    case Imul =>
      var p := Product(c.eax, v);
      Some(c.(eax := Wrap(p), edx := Wrap(p / TWO_32)))
    case Div =>
      var n := c.edx * TWO_32 + c.eax;
      if v == 0 || n / v >= TWO_32 then None
      else Some(c.(eax := Wrap(n / v), edx := Wrap(n % v)))
    case Idiv =>
      var n := Signed(c.edx) * TWO_32 + c.eax;
      if v == 0 || OutOfRange(TruncDiv(n, Signed(v))) then None
      else Some(c.(eax := Wrap(TruncDiv(n, Signed(v))), edx := Wrap(TruncRem(n, Signed(v)))))
  }

  function WidenWord(w: Word, signed: bool, wide: bool): Word {
    if wide then Wrap(if signed then SignExtend16(w % TWO_16) else w % TWO_16)
    else Wrap(if signed then SignExtend8(w % TWO_8) else w % TWO_8)
  }

  /** The effect of an instruction that continues with the next one; `None` is a fault,
      an instruction that transfers control, or an 8-bit or 16-bit move, which this machine of words
      does not run. */
  function Exec(i: Instr, c: Cpu): Option<Cpu> {
    match i
    case MovRM(r, m) =>
      var a := c.Address(m);
      if c.Mapped(a) then Some(c.Set(r, c.mem[a])) else None
    case MovMR(m, r) => c.Store(c.Address(m), c.Get(r))
    case MovRR(d, s) => Some(c.Set(d, c.Get(s)))
    case MovRI(d, v) => Some(c.Set(d, v))
    case AluMR(op, m, r) =>
      var a := c.Address(m);
      if !c.Mapped(a) then None else
      var f := Alu(op, c.mem[a], c.Get(r), c.cf);
      if op == Cmp then Some(WithFlags(c, f)) else WithFlags(c, f).Store(a, f.value)
    case AluRR(op, d, s) =>
      var f := Alu(op, c.Get(d), c.Get(s), c.cf);
      if op == Cmp then Some(WithFlags(c, f)) else Some(WithFlags(c, f).Set(d, f.value))
    case AluRM(op, d, m) =>
      var a := c.Address(m);
      if !c.Mapped(a) then None else
      var f := Alu(op, c.Get(d), c.mem[a], c.cf);
      if op == Cmp then Some(WithFlags(c, f)) else Some(WithFlags(c, f).Set(d, f.value))
    case AluRI(op, d, v) =>
      var f := Alu(op, c.Get(d), v, c.cf);
      if op == Cmp then Some(WithFlags(c, f)) else Some(WithFlags(c, f).Set(d, f.value))
    case AluMI(op, m, v) =>
      var a := c.Address(m);
      if !c.Mapped(a) then None else
      var f := Alu(op, c.mem[a], v, c.cf);
      if op == Cmp then Some(WithFlags(c, f)) else WithFlags(c, f).Store(a, f.value)
    case NegR(r) =>
      var f := Alu(Sub, 0, c.Get(r), false);
      Some(WithFlags(c, f).Set(r, f.value))
    case NegM(m) =>
      var a := c.Address(m);
      if !c.Mapped(a) then None else
      var f := Alu(Sub, 0, c.mem[a], false);
      WithFlags(c, f).Store(a, f.value)
    case DecR(r) =>
      var f := Alu(Sub, c.Get(r), 1, false);
      Some(WithFlags(c, f.(cf := c.cf)).Set(r, f.value))
    case MulDivR(op, r) => MulDiv(op, c, c.Get(r))
    case MulDivM(op, m) =>
      var a := c.Address(m);
      if c.Mapped(a) then MulDiv(op, c, c.mem[a]) else None
    case Cdq => Some(c.(edx := if c.eax < TWO_31 then 0 else TWO_32 - 1))
    case Widen(d, m, signed, wide) =>
      var a := c.Address(m);
      if c.Mapped(a) then Some(c.Set(d, WidenWord(c.mem[a], signed, wide))) else None
    case PushR(r) => c.Push(c.Get(r))
    case PushI(v) => c.Push(v)
    case PushM(m) =>
      var a := c.Address(m);
      if c.Mapped(a) then c.Push(c.mem[a]) else None
    case PopR(r) =>
      if c.Mapped(c.esp) then Some(c.(esp := Wrap(c.esp + 4)).Set(r, c.mem[c.esp])) else None
    case _ => None
  }

  /** Where execution goes on: at a byte offset of the code, or at a word taken from the stack. */
  datatype Target = At(offset: int) | Returned(address: Word)

  /** The effect of an instruction that transfers control; `next` is the offset after it.
      Calls and indirect jumps leave the code and are not part of the machine. */
  function Transfer(i: Instr, next: int, c: Cpu): Option<(Target, Cpu)> {
    match i
    case JmpRel(d) => Some((At(next + d), c))
    case JmpShort(d) => Some((At(next + d), c))
    case JccRel(cc, d) => Some((At(if c.Holds(cc) then next + d else next), c))
    case JccShort(cc, d) => Some((At(if c.Holds(cc) then next + d else next), c))
    case Ret =>
      if c.Mapped(c.esp) then Some((Returned(c.mem[c.esp]), c.(esp := Wrap(c.esp + 4)))) else None
    case RetI(n) =>
      if c.Mapped(c.esp) then Some((Returned(c.mem[c.esp]), c.(esp := Wrap(c.esp + 4 + n)))) else None
    case _ => None
  }

  /** Straight-line execution of a list of instructions. */
  function RunBlock(code: seq<Instr>, c: Cpu): Option<Cpu> {
    if code == [] then Some(c) else
    match Exec(code[0], c)
    case None => None
    case Some(d) => RunBlock(code[1..], d)
  }

  lemma {:induction false} RunBlockAppend(code: seq<Instr>, more: seq<Instr>, c: Cpu)
    ensures RunBlock(code + more, c) ==
            match RunBlock(code, c) case None => None case Some(d) => RunBlock(more, d)
  {
    if code == [] {
      assert code + more == more;
    } else {
      assert (code + more)[1..] == code[1..] + more;
      if Exec(code[0], c).Some? {
        RunBlockAppend(code[1..], more, Exec(code[0], c).value);
      }
    }
  }

  lemma RunBlockSnoc(code: seq<Instr>, i: Instr, c: Cpu)
    requires RunBlock(code, c).Some?
    ensures RunBlock(code + [i], c) == Exec(i, RunBlock(code, c).value)
  {
    RunBlockAppend(code, [i], c);
    var d := RunBlock(code, c).value;
    assert [i][1..] == [];
    match Exec(i, d)
    case None =>
    case Some(e) => assert RunBlock([], e) == Some(e);
  }
}
