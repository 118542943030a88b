/** Instruction encoding, section 2.1 of the Intel 64 and IA-32 Architectures Software Developer's
    Manual, Volume 2: the bytes of every instruction the compiler emits, the decoder that reads
    them back, and the fact that a stream of encoded instructions decodes to the same stream. */
module Encoding {
  import opened Wrappers
  import opened Words
  import opened X86

  function Num(r: Reg): (n: int)
    ensures 0 <= n < 8
  {
    match r
    case Eax => 0
    case Ecx => 1
    case Edx => 2
    case Ebx => 3
    case Esp => 4
    case Ebp => 5
    case Esi => 6
    case Edi => 7
  }

  function RegOf(n: int): (r: Reg)
    requires 0 <= n < 8
    ensures Num(r) == n
  {
    if n == 0 then Eax else if n == 1 then Ecx else if n == 2 then Edx else if n == 3 then Ebx
    else if n == 4 then Esp else if n == 5 then Ebp else if n == 6 then Esi else Edi
  }

  function ByteNum(r: ByteReg): (n: int)
    ensures 0 <= n < 8
  {
    match r
    case Al => 0
    case Cl => 1
    case Dl => 2
    case Bl => 3
    case Ah => 4
    case Ch => 5
    case Dh => 6
    case Bh => 7
  }

  function ByteRegOf(n: int): (r: ByteReg)
    requires 0 <= n < 8
    ensures ByteNum(r) == n
  {
    if n == 0 then Al else if n == 1 then Cl else if n == 2 then Dl else if n == 3 then Bl
    else if n == 4 then Ah else if n == 5 then Ch else if n == 6 then Dh else Bh
  }

  function AluNum(op: AluOp): (n: int)
    ensures 0 <= n < 8
  {
    match op
    case Add => 0
    case OrOp => 1
    case Adc => 2
    case Sbb => 3
    case AndOp => 4
    case Sub => 5
    case XorOp => 6
    case Cmp => 7
  }

  function AluOf(n: int): (op: AluOp)
    requires 0 <= n < 8
    ensures AluNum(op) == n
  {
    if n == 0 then Add else if n == 1 then OrOp else if n == 2 then Adc else if n == 3 then Sbb
    else if n == 4 then AndOp else if n == 5 then Sub else if n == 6 then XorOp else Cmp
  }

  function MulDivNum(op: MulDivOp): (n: int)
    ensures 4 <= n < 8
  {
    match op
    case Mul => 4
    case Imul => 5
    case Div => 6
    case Idiv => 7
  }

  function MulDivOf(n: int): (op: MulDivOp)
    requires 4 <= n < 8
    ensures MulDivNum(op) == n
  {
    if n == 4 then Mul else if n == 5 then Imul else if n == 6 then Div else Idiv
  }

  /** The opcode of the short form; the near form is 0x10 higher. */
  function CondByte(cc: Cond): (b: int)
    ensures 0x74 <= b <= 0x7f
  {
    match cc
    case CcEq => 0x74
    case CcNe => 0x75
    case CcLt => 0x7c
    case CcGe => 0x7d
    case CcLe => 0x7e
    case CcGt => 0x7f
  }

  function CondOf(b: int): (cc: Option<Cond>)
    ensures cc.Some? ==> CondByte(cc.value) == b
  {
    if b == 0x74 then Some(CcEq) else if b == 0x75 then Some(CcNe)
    else if b == 0x7c then Some(CcLt) else if b == 0x7d then Some(CcGe)
    else if b == 0x7e then Some(CcLe) else if b == 0x7f then Some(CcGt)
    else None
  }

  // ----- bytes of operands -----

  function Imm32(w: Word): (s: seq<Byte>)
    ensures |s| == 4
  {
    [w % 0x100, w / 0x100 % 0x100, w / 0x1_0000 % 0x100, w / 0x100_0000]
  }

  function ReadImm32(s: seq<Byte>): Word
    requires |s| >= 4
  {
    var a: int, b: int, c: int, d: int := s[0], s[1], s[2], s[3];
    a + 0x100 * b + 0x1_0000 * c + 0x100_0000 * d
  }

  lemma Imm32RoundTrip(w: Word, rest: seq<Byte>)
    ensures ReadImm32(Imm32(w) + rest) == w
  {
    assert w / 0x100 / 0x100 == w / 0x1_0000;
    assert w / 0x1_0000 / 0x100 == w / 0x100_0000;
  }

  function ReadImm16(s: seq<Byte>): int
    requires |s| >= 2
  {
    var a: int, b: int := s[0], s[1];
    a + 0x100 * b
  }

  function Rel32(d: Int32): (s: seq<Byte>)
    ensures |s| == 4
  {
    Imm32(Wrap(d))
  }

  function ReadRel32(s: seq<Byte>): Int32
    requires |s| >= 4
  {
    Signed(ReadImm32(s))
  }

  lemma Rel32RoundTrip(d: Int32, rest: seq<Byte>)
    ensures ReadRel32(Rel32(d) + rest) == d
  {
    Imm32RoundTrip(Wrap(d), rest);
    SignedWrap(d);
  }

  function Byte8(d: int): Byte
    requires -128 <= d < 128
  {
    if d < 0 then d + 256 else d
  }

  /** The ModR/M byte, and the SIB byte with its three fields in the same places. */
  function ModRM(mode: int, regop: int, rm: int): Byte
    requires 0 <= mode < 4 && 0 <= regop < 8 && 0 <= rm < 8
  {
    mode * 64 + regop * 8 + rm
  }

  function Disp(d: Int32): (s: seq<Byte>)
    ensures |s| <= 4
  {
    if -128 <= d < 128 then [Byte8(d)] else Rel32(d)
  }

  function EncodeMem(m: Mem, regop: int): (s: seq<Byte>)
    requires m.Valid() && 0 <= regop < 8
    ensures 2 <= |s| <= 6
    ensures m.BaseDisp? && m.base == Ebp ==> |s| <= 5
  {
    var mode := if -128 <= m.disp < 128 then 1 else 2;
    match m
    case BaseDisp(b, d) =>
      [ModRM(mode, regop, Num(b))] + (if b == Esp then [ModRM(0, 4, 4)] else []) + Disp(d)
    case SibDisp(s, x, b, d) =>
      [ModRM(mode, regop, 4), ModRM(s, Num(x), Num(b))] + Disp(d)
  }

  function EncodeReg(r: Reg, regop: int): (s: seq<Byte>)
    requires 0 <= regop < 8
    ensures |s| == 1
  {
    [ModRM(3, regop, Num(r))]
  }

  // ----- instructions -----

  function Encode(i: Instr): (s: seq<Byte>)
    requires Encodable(i)
    ensures 1 <= |s| <= 11
  {
    hide EncodeMem, EncodeReg, Imm32, Rel32, Mem.Valid;
    match i
    case MovRM(r, m) => [0x8b] + EncodeMem(m, Num(r))
    case MovMR(m, r) => [0x89] + EncodeMem(m, Num(r))
    case MovRR(d, s) => [0x89] + EncodeReg(d, Num(s))
    case MovRI(d, v) => [0xb8 + Num(d)] + Imm32(v)
    case MovRM8(r, m) => [0x8a] + EncodeMem(m, ByteNum(r))
    case MovMR8(m, r) => [0x88] + EncodeMem(m, ByteNum(r))
    case MovRM16(r, m) => [0x66, 0x8b] + EncodeMem(m, Num(r))
    case MovMR16(m, r) => [0x66, 0x89] + EncodeMem(m, Num(r))
    case AluMR(op, m, r) => [8 * AluNum(op) + 1] + EncodeMem(m, Num(r))
    case AluRR(op, d, s) => [8 * AluNum(op) + 1] + EncodeReg(d, Num(s))
    case AluRM(op, d, m) => [8 * AluNum(op) + 3] + EncodeMem(m, Num(d))
    case AluRI(op, d, v) =>
      if d == Eax then [8 * AluNum(op) + 5] + Imm32(v)
      else [0x81] + EncodeReg(d, AluNum(op)) + Imm32(v)
    case AluMI(op, m, v) => [0x81] + EncodeMem(m, AluNum(op)) + Imm32(v)
    case NegR(r) => [0xf7] + EncodeReg(r, 3)
    case NegM(m) => [0xf7] + EncodeMem(m, 3)
    case DecR(r) => [0x48 + Num(r)]
    case MulDivR(op, r) => [0xf7] + EncodeReg(r, MulDivNum(op))
    case MulDivM(op, m) => [0xf7] + EncodeMem(m, MulDivNum(op))
    case Cdq => [0x99]
    case Widen(d, m, signed, wide) =>
      [0x0f, (if signed then 0xbe else 0xb6) + (if wide then 1 else 0)] + EncodeMem(m, Num(d))
    case PushR(r) => [0x50 + Num(r)]
    case PushI(v) => [0x68] + Imm32(v)
    case PushM(m) => [0xff] + EncodeMem(m, 6)
    case PopR(r) => [0x58 + Num(r)]
    case Ret => [0xc3]
    case RetI(n) => [0xc2, n % 0x100, n / 0x100]
    case CallR(r) => [0xff] + EncodeReg(r, 2)
    case CallM(m) => [0xff] + EncodeMem(m, 2)
    case CallRel(d) => [0xe8] + Rel32(d)
    case JmpRel(d) => [0xe9] + Rel32(d)
    case JmpShort(d) => [0xeb, Byte8(d)]
    case JmpR(r) => [0xff] + EncodeReg(r, 4)
    case JmpM(m) => [0xff] + EncodeMem(m, 4)
    case JccRel(cc, d) => [0x0f, CondByte(cc) + 0x10] + Rel32(d)
    case JccShort(cc, d) => [CondByte(cc), Byte8(d)]
  }

  // ----- the decoder -----

  datatype Rm = RegRm(reg: Reg) | MemRm(mem: Mem)

  datatype RmField = RmField(rm: Rm, regop: int, len: nat)

  /** A displacement of the size the mode field announces. */
  function DecodeDisp(mode: int, s: seq<Byte>): (r: Option<(Int32, nat)>) {
    if mode == 1 && |s| >= 1 then Some((SignExtend8(s[0]), 1))
    else if mode == 2 && |s| >= 4 then Some((ReadRel32(s), 4))
    else None
  }

  /** Reads a ModR/M byte and what it calls for. Operands without a displacement are not emitted. */
  function DecodeRm(s: seq<Byte>): (r: Option<RmField>)
    ensures r.Some? ==> 0 <= r.value.regop < 8
  {
    if |s| == 0 then None else
    var mode, regop, rm := s[0] / 64, s[0] / 8 % 8, s[0] % 8;
    if mode == 3 then Some(RmField(RegRm(RegOf(rm)), regop, 1))
    else if rm != 4 then
      match DecodeDisp(mode, s[1..])
      case None => None
      case Some((d, n)) => Some(RmField(MemRm(BaseDisp(RegOf(rm), d)), regop, 1 + n))
    else if |s| == 1 then None
    else
      var scale, index, base := s[1] / 64, s[1] / 8 % 8, s[1] % 8;
      match DecodeDisp(mode, s[2..])
      case None => None
      case Some((d, n)) =>
        Some(RmField(MemRm(if index == 4 then BaseDisp(RegOf(base), d)
                           else SibDisp(scale, RegOf(index), RegOf(base), d)), regop, 2 + n))
  }

  /** Instructions made of an opcode byte and a ModR/M operand, without an immediate. */
  function RmInstr(opcode: Byte, f: RmField): Option<Instr>
    requires 0 <= f.regop < 8
  {
    var r := f.regop;
    match f.rm
    case RegRm(g) =>
      if opcode == 0x89 then Some(MovRR(g, RegOf(r)))
      else if opcode < 0x40 && opcode % 8 == 1 then Some(AluRR(AluOf(opcode / 8), g, RegOf(r)))
      else if opcode == 0xf7 && r == 3 then Some(NegR(g))
      else if opcode == 0xf7 && r >= 4 then Some(MulDivR(MulDivOf(r), g))
      else if opcode == 0xff && r == 2 then Some(CallR(g))
      else if opcode == 0xff && r == 4 then Some(JmpR(g))
      else None
    case MemRm(m) =>
      if opcode == 0x8b then Some(MovRM(RegOf(r), m))
      else if opcode == 0x89 then Some(MovMR(m, RegOf(r)))
      else if opcode == 0x8a then Some(MovRM8(ByteRegOf(r), m))
      else if opcode == 0x88 then Some(MovMR8(m, ByteRegOf(r)))
      else if opcode < 0x40 && opcode % 8 == 1 then Some(AluMR(AluOf(opcode / 8), m, RegOf(r)))
      else if opcode < 0x40 && opcode % 8 == 3 then Some(AluRM(AluOf(opcode / 8), RegOf(r), m))
      else if opcode == 0xf7 && r == 3 then Some(NegM(m))
      else if opcode == 0xf7 && r >= 4 then Some(MulDivM(MulDivOf(r), m))
      else if opcode == 0xff && r == 6 then Some(PushM(m))
      else if opcode == 0xff && r == 2 then Some(CallM(m))
      else if opcode == 0xff && r == 4 then Some(JmpM(m))
      else None
  }

  predicate IsRmOpcode(b: Byte) {
    0x88 <= b <= 0x8b || (b < 0x40 && (b % 8 == 1 || b % 8 == 3)) || b == 0xf7 || b == 0xff
  }

  /** Reads one instruction: what it is and how many bytes it takes. */
  function Decode(s: seq<Byte>): Option<(Instr, nat)> {
    if |s| == 0 then None else
    var b, t := s[0], s[1..];
    if IsRmOpcode(b) then
      match DecodeRm(t)
      case None => None
      case Some(f) => (match RmInstr(b, f) case None => None case Some(i) => Some((i, 1 + f.len)))
    else if b == 0x81 then
      match DecodeRm(t)
      case None => None
      case Some(f) =>
        if |t| < f.len + 4 then None else
        var v := ReadImm32(t[f.len..]);
        Some((match f.rm case RegRm(g) => AluRI(AluOf(f.regop), g, v) case MemRm(m) => AluMI(AluOf(f.regop), m, v),
              5 + f.len))
    else if b == 0x0f then DecodeTwoByte(t)
    else if b == 0x66 then DecodeWordMove(t)
    else DecodeSimple(b, t)
  }

  /** Opcodes behind the 0x0f escape byte. */
  function DecodeTwoByte(t: seq<Byte>): Option<(Instr, nat)> {
    if |t| == 0 then None
    else if t[0] == 0xb6 || t[0] == 0xb7 || t[0] == 0xbe || t[0] == 0xbf then
      match DecodeRm(t[1..])
      case None => None
      case Some(f) =>
        (match f.rm
         case RegRm(_) => None
         case MemRm(m) => Some((Widen(RegOf(f.regop), m, t[0] >= 0xbe, t[0] % 2 == 1), 2 + f.len)))
    else if t[0] >= 0x10 && CondOf(t[0] - 0x10).Some? && |t| >= 5 then
      Some((JccRel(CondOf(t[0] - 0x10).value, ReadRel32(t[1..])), 6))
    else None
  }

  /** The 16-bit moves behind the operand size prefix. */
  function DecodeWordMove(t: seq<Byte>): Option<(Instr, nat)> {
    if |t| == 0 || (t[0] != 0x8b && t[0] != 0x89) then None else
    match DecodeRm(t[1..])
    case None => None
    case Some(f) =>
      (match f.rm
       case RegRm(_) => None
       case MemRm(m) =>
         Some((if t[0] == 0x8b then MovRM16(RegOf(f.regop), m) else MovMR16(m, RegOf(f.regop)), 2 + f.len)))
  }

  /** One-byte opcodes whose operands are immediates or a register in the opcode. */
  function DecodeSimple(b: Byte, t: seq<Byte>): Option<(Instr, nat)> {
    if b < 0x40 && b % 8 == 5 then
      if |t| >= 4 then Some((AluRI(AluOf(b / 8), Eax, ReadImm32(t)), 5)) else None
    else if 0x48 <= b < 0x50 then Some((DecR(RegOf(b - 0x48)), 1))
    else if 0x50 <= b < 0x58 then Some((PushR(RegOf(b - 0x50)), 1))
    else if 0x58 <= b < 0x60 then Some((PopR(RegOf(b - 0x58)), 1))
    else if b == 0x68 then if |t| >= 4 then Some((PushI(ReadImm32(t)), 5)) else None
    else if CondOf(b).Some? then
      if |t| >= 1 then Some((JccShort(CondOf(b).value, SignExtend8(t[0])), 2)) else None
    else if b == 0x99 then Some((Cdq, 1))
    else if 0xb8 <= b < 0xc0 then if |t| >= 4 then Some((MovRI(RegOf(b - 0xb8), ReadImm32(t)), 5)) else None
    else if b == 0xc2 then if |t| >= 2 then Some((RetI(ReadImm16(t)), 3)) else None
    else if b == 0xc3 then Some((Ret, 1))
    else if b == 0xe8 then if |t| >= 4 then Some((CallRel(ReadRel32(t)), 5)) else None
    else if b == 0xe9 then if |t| >= 4 then Some((JmpRel(ReadRel32(t)), 5)) else None
    else if b == 0xeb then if |t| >= 1 then Some((JmpShort(SignExtend8(t[0])), 2)) else None
    else None
  }

  // ----- decoding undoes encoding -----

  lemma DispRoundTrip(d: Int32, rest: seq<Byte>)
    ensures DecodeDisp(if -128 <= d < 128 then 1 else 2, Disp(d) + rest) == Some((d, |Disp(d)|))
  {
    if !(-128 <= d < 128) {
      Rel32RoundTrip(d, rest);
    }
  }

  lemma Div64(q: int, r: int)
    requires 0 <= r < 64
    ensures (q * 64 + r) / 64 == q
  {
  }

  lemma DivMod8(q: int, r: int)
    requires 0 <= r < 8
    ensures (q * 8 + r) / 8 == q && (q * 8 + r) % 8 == r
  {
  }

  lemma FieldsOfByte(mode: int, regop: int, rm: int)
    requires 0 <= mode < 4 && 0 <= regop < 8 && 0 <= rm < 8
    ensures var b := ModRM(mode, regop, rm); b / 64 == mode && b / 8 % 8 == regop && b % 8 == rm
  {
    var b: int := ModRM(mode, regop, rm);
    Div64(mode, regop * 8 + rm);
    assert b == (mode * 8 + regop) * 8 + rm;
    DivMod8(mode * 8 + regop, rm);
    DivMod8(mode, regop);
  }

  lemma NumInjective(r: Reg)
    ensures RegOf(Num(r)) == r
  {
  }

  /** Memory operands, with the escape byte an esp base needs and both displacement sizes. */
  lemma MemRoundTrip(m: Mem, regop: int, rest: seq<Byte>)
    requires m.Valid() && 0 <= regop < 8
    ensures DecodeRm(EncodeMem(m, regop) + rest) == Some(RmField(MemRm(m), regop, |EncodeMem(m, regop)|))
  {
    var s := EncodeMem(m, regop) + rest;
    var mode := if -128 <= m.disp < 128 then 1 else 2;
    DispRoundTrip(m.disp, rest);
    NumInjective(m.base);
    match m
    case BaseDisp(b, d) =>
      FieldsOfByte(mode, regop, Num(b));
      if b == Esp {
        FieldsOfByte(0, 4, 4);
        assert s[2..] == Disp(d) + rest;
      } else {
        assert s[1..] == Disp(d) + rest;
      }
    case SibDisp(sc, x, b, d) =>
      FieldsOfByte(mode, regop, 4);
      FieldsOfByte(sc, Num(x), Num(b));
      NumInjective(x);
      assert s[2..] == Disp(d) + rest;
  }

  lemma ByteNumInjective(r: ByteReg)
    ensures ByteRegOf(ByteNum(r)) == r
  {
  }

  lemma RegRoundTrip(r: Reg, regop: int, rest: seq<Byte>)
    requires 0 <= regop < 8
    ensures DecodeRm(EncodeReg(r, regop) + rest) == Some(RmField(RegRm(r), regop, 1))
  {
    FieldsOfByte(3, regop, Num(r));
    NumInjective(r);
  }

  lemma AluRoundTrip(op: AluOp)
    ensures AluOf(AluNum(op)) == op
  {
  }

  lemma CondRoundTrip(cc: Cond)
    ensures CondOf(CondByte(cc)) == Some(cc)
  {
  }

  lemma MulDivRoundTrip(op: MulDivOp)
    ensures MulDivOf(MulDivNum(op)) == op
  {
  }

  /** Opcode, ModR/M operand, nothing else. */
  lemma RmForm(opcode: Byte, field: seq<Byte>, f: RmField, i: Instr, rest: seq<Byte>)
    requires IsRmOpcode(opcode)
    requires DecodeRm(field + rest) == Some(f) && RmInstr(opcode, f) == Some(i)
    ensures Decode([opcode] + field + rest) == Some((i, 1 + f.len))
  {
    var s := [opcode] + field + rest;
    assert s[1..] == field + rest;
  }

  lemma MemForm(opcode: Byte, m: Mem, regop: int, i: Instr, rest: seq<Byte>)
    requires IsRmOpcode(opcode) && m.Valid() && 0 <= regop < 8
    requires Encodable(i) && Encode(i) == [opcode] + EncodeMem(m, regop)
    requires RmInstr(opcode, RmField(MemRm(m), regop, |EncodeMem(m, regop)|)) == Some(i)
    ensures Decode(Encode(i) + rest) == Some((i, |Encode(i)|))
  {
    MemRoundTrip(m, regop, rest);
    RmForm(opcode, EncodeMem(m, regop), RmField(MemRm(m), regop, |EncodeMem(m, regop)|), i, rest);
  }

  lemma RegForm(opcode: Byte, r: Reg, regop: int, i: Instr, rest: seq<Byte>)
    requires IsRmOpcode(opcode) && 0 <= regop < 8
    requires Encodable(i) && Encode(i) == [opcode] + EncodeReg(r, regop)
    requires RmInstr(opcode, RmField(RegRm(r), regop, 1)) == Some(i)
    ensures Decode(Encode(i) + rest) == Some((i, |Encode(i)|))
  {
    RegRoundTrip(r, regop, rest);
    RmForm(opcode, EncodeReg(r, regop), RmField(RegRm(r), regop, 1), i, rest);
  }

  lemma DecodeMovForms(i: Instr, rest: seq<Byte>)
    requires Encodable(i)
    requires i.MovRM? || i.MovMR? || i.MovRR?
    ensures Decode(Encode(i) + rest) == Some((i, |Encode(i)|))
  {
    match i
    case MovRM(r, m) =>
      NumInjective(r);
      MemForm(0x8b, m, Num(r), i, rest);
    case MovMR(m, r) =>
      NumInjective(r);
      MemForm(0x89, m, Num(r), i, rest);
    case MovRR(d, r) =>
      NumInjective(r);
      RegForm(0x89, d, Num(r), i, rest);
  }

  lemma DecodeByteMoves(i: Instr, rest: seq<Byte>)
    requires Encodable(i)
    requires i.MovRM8? || i.MovMR8?
    ensures Decode(Encode(i) + rest) == Some((i, |Encode(i)|))
  {
    match i
    case MovRM8(r, m) =>
      ByteNumInjective(r);
      MemForm(0x8a, m, ByteNum(r), i, rest);
    case MovMR8(m, r) =>
      ByteNumInjective(r);
      MemForm(0x88, m, ByteNum(r), i, rest);
  }

  lemma DecodeWordMoves(i: Instr, rest: seq<Byte>)
    requires Encodable(i)
    requires i.MovRM16? || i.MovMR16?
    ensures Decode(Encode(i) + rest) == Some((i, |Encode(i)|))
  {
    hide EncodeMem, DecodeRm;
    var m, r := if i.MovRM16? then i.src else i.mem, if i.MovRM16? then i.dst else i.reg;
    NumInjective(r);
    MemRoundTrip(m, Num(r), rest);
    var s := Encode(i) + rest;
    assert s[1..][1..] == EncodeMem(m, Num(r)) + rest;
  }

  lemma DecodeAluForms(i: Instr, rest: seq<Byte>)
    requires Encodable(i)
    requires i.AluMR? || i.AluRR? || i.AluRM?
    ensures Decode(Encode(i) + rest) == Some((i, |Encode(i)|))
  {
    AluRoundTrip(i.op);
    var n := 8 * AluNum(i.op);
    assert (n + 1) / 8 == (n + 3) / 8 == AluNum(i.op) && (n + 1) % 8 == 1 && (n + 3) % 8 == 3;
    match i
    case AluMR(op, m, r) =>
      NumInjective(r);
      MemForm(n + 1, m, Num(r), i, rest);
    case AluRR(op, d, r) =>
      NumInjective(r);
      RegForm(n + 1, d, Num(r), i, rest);
    case AluRM(op, r, m) =>
      NumInjective(r);
      MemForm(n + 3, m, Num(r), i, rest);
  }

  lemma DecodeGroup3Forms(i: Instr, rest: seq<Byte>)
    requires Encodable(i)
    requires i.NegR? || i.NegM? || i.MulDivR? || i.MulDivM?
    ensures Decode(Encode(i) + rest) == Some((i, |Encode(i)|))
  {
    match i
    case NegR(r) => RegForm(0xf7, r, 3, i, rest);
    case NegM(m) => MemForm(0xf7, m, 3, i, rest);
    case MulDivR(op, r) =>
      MulDivRoundTrip(op);
      RegForm(0xf7, r, MulDivNum(op), i, rest);
    case MulDivM(op, m) =>
      MulDivRoundTrip(op);
      MemForm(0xf7, m, MulDivNum(op), i, rest);
  }

  lemma DecodeGroup5Forms(i: Instr, rest: seq<Byte>)
    requires Encodable(i)
    requires i.PushM? || i.CallR? || i.CallM? || i.JmpR? || i.JmpM?
    ensures Decode(Encode(i) + rest) == Some((i, |Encode(i)|))
  {
    match i
    case PushM(m) => MemForm(0xff, m, 6, i, rest);
    case CallR(r) => RegForm(0xff, r, 2, i, rest);
    case CallM(m) => MemForm(0xff, m, 2, i, rest);
    case JmpR(r) => RegForm(0xff, r, 4, i, rest);
    case JmpM(m) => MemForm(0xff, m, 4, i, rest);
  }

  lemma DecodeAluRI(op: AluOp, d: Reg, v: Word, rest: seq<Byte>)
    ensures var i := AluRI(op, d, v); Decode(Encode(i) + rest) == Some((i, |Encode(i)|))
  {
    var i := AluRI(op, d, v);
    var s := Encode(i) + rest;
    AluRoundTrip(op);
    Imm32RoundTrip(v, rest);
    if d == Eax {
      assert s[1..] == Imm32(v) + rest;
      assert (8 * AluNum(op) + 5) / 8 == AluNum(op);
    } else {
      RegRoundTrip(d, AluNum(op), Imm32(v) + rest);
      assert s[1..] == EncodeReg(d, AluNum(op)) + (Imm32(v) + rest);
      assert s[1..][1..] == Imm32(v) + rest;
    }
  }

  lemma DecodeAluMI(op: AluOp, m: Mem, v: Word, rest: seq<Byte>)
    requires m.Valid()
    ensures var i := AluMI(op, m, v); Decode(Encode(i) + rest) == Some((i, |Encode(i)|))
  {
    var s := Encode(AluMI(op, m, v)) + rest;
    AluRoundTrip(op);
    Imm32RoundTrip(v, rest);
    var f := EncodeMem(m, AluNum(op));
    MemRoundTrip(m, AluNum(op), Imm32(v) + rest);
    assert s[1..] == f + (Imm32(v) + rest);
    assert s[1..][|f|..] == Imm32(v) + rest;
  }

  lemma DecodeWiden(d: Reg, m: Mem, signed: bool, wide: bool, rest: seq<Byte>)
    requires m.Valid()
    ensures var i := Widen(d, m, signed, wide); Decode(Encode(i) + rest) == Some((i, |Encode(i)|))
  {
    var s := Encode(Widen(d, m, signed, wide)) + rest;
    MemRoundTrip(m, Num(d), rest);
    NumInjective(d);
    assert s[1..][1..] == EncodeMem(m, Num(d)) + rest;
  }

  lemma DecodeRegisterForms(i: Instr, rest: seq<Byte>)
    requires i.DecR? || i.Cdq? || i.PushR? || i.PopR? || i.Ret?
    ensures Decode(Encode(i) + rest) == Some((i, |Encode(i)|))
  {
    match i
    case DecR(r) => NumInjective(r);
    case Cdq =>
    case PushR(r) => NumInjective(r);
    case PopR(r) => NumInjective(r);
    case Ret =>
  }

  lemma DecodeImmediateForms(i: Instr, rest: seq<Byte>)
    requires Encodable(i)
    requires i.MovRI? || i.PushI? || i.RetI?
    ensures Decode(Encode(i) + rest) == Some((i, |Encode(i)|))
  {
    var s := Encode(i) + rest;
    match i
    case MovRI(d, v) =>
      Imm32RoundTrip(v, rest);
      NumInjective(d);
      assert s[1..] == Imm32(v) + rest;
    case PushI(v) =>
      Imm32RoundTrip(v, rest);
      assert s[1..] == Imm32(v) + rest;
    case RetI(n) =>
  }

  lemma DecodeRelativeForms(i: Instr, rest: seq<Byte>)
    requires Encodable(i)
    requires i.CallRel? || i.JmpRel? || i.JmpShort?
    ensures Decode(Encode(i) + rest) == Some((i, |Encode(i)|))
  {
    var s := Encode(i) + rest;
    match i
    case CallRel(d) =>
      Rel32RoundTrip(d, rest);
      assert s[1..] == Rel32(d) + rest;
    case JmpRel(d) =>
      Rel32RoundTrip(d, rest);
      assert s[1..] == Rel32(d) + rest;
    case JmpShort(d) =>
  }

  lemma DecodeConditionalForms(i: Instr, rest: seq<Byte>)
    requires Encodable(i)
    requires i.JccRel? || i.JccShort?
    ensures Decode(Encode(i) + rest) == Some((i, |Encode(i)|))
  {
    var s := Encode(i) + rest;
    CondRoundTrip(i.cc);
    match i
    case JccRel(cc, d) =>
      Rel32RoundTrip(d, rest);
      assert s[1..][1..] == Rel32(d) + rest;
    case JccShort(cc, d) =>
  }

  /** Decoding the bytes of an instruction, followed by anything, gives back the instruction and its length. */
  lemma DecodeEncode(i: Instr, rest: seq<Byte>)
    requires Encodable(i)
    ensures Decode(Encode(i) + rest) == Some((i, |Encode(i)|))
  {
    match i
    case MovRM(_, _) => DecodeMovForms(i, rest);
    case MovMR(_, _) => DecodeMovForms(i, rest);
    case MovRR(_, _) => DecodeMovForms(i, rest);
    case MovRM8(_, _) => DecodeByteMoves(i, rest);
    case MovMR8(_, _) => DecodeByteMoves(i, rest);
    case MovRM16(_, _) => DecodeWordMoves(i, rest);
    case MovMR16(_, _) => DecodeWordMoves(i, rest);
    case AluMR(_, _, _) => DecodeAluForms(i, rest);
    case AluRR(_, _, _) => DecodeAluForms(i, rest);
    case AluRM(_, _, _) => DecodeAluForms(i, rest);
    case AluRI(op, d, v) => DecodeAluRI(op, d, v, rest);
    case AluMI(op, m, v) => DecodeAluMI(op, m, v, rest);
    case NegR(_) => DecodeGroup3Forms(i, rest);
    case NegM(_) => DecodeGroup3Forms(i, rest);
    case MulDivR(_, _) => DecodeGroup3Forms(i, rest);
    case MulDivM(_, _) => DecodeGroup3Forms(i, rest);
    case Widen(d, m, signed, wide) => DecodeWiden(d, m, signed, wide, rest);
    case PushM(_) => DecodeGroup5Forms(i, rest);
    case CallR(_) => DecodeGroup5Forms(i, rest);
    case CallM(_) => DecodeGroup5Forms(i, rest);
    case JmpR(_) => DecodeGroup5Forms(i, rest);
    case JmpM(_) => DecodeGroup5Forms(i, rest);
    case DecR(_) => DecodeRegisterForms(i, rest);
    case Cdq => DecodeRegisterForms(i, rest);
    case PushR(_) => DecodeRegisterForms(i, rest);
    case PopR(_) => DecodeRegisterForms(i, rest);
    case Ret => DecodeRegisterForms(i, rest);
    case MovRI(_, _) => DecodeImmediateForms(i, rest);
    case PushI(_) => DecodeImmediateForms(i, rest);
    case RetI(_) => DecodeImmediateForms(i, rest);
    case CallRel(_) => DecodeRelativeForms(i, rest);
    case JmpRel(_) => DecodeRelativeForms(i, rest);
    case JmpShort(_) => DecodeRelativeForms(i, rest);
    case JccRel(_, _) => DecodeConditionalForms(i, rest);
    case JccShort(_, _) => DecodeConditionalForms(i, rest);
  }
}
