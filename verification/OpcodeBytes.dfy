/** The bytes of the instructions, written out: opcodes, register numbers, condition codes and operand
    bytes as the Intel 64 and IA-32 Architectures Software Developer's Manual, Volume 2, lists them, without
    the tables the encoder uses. */
module OpcodeBytes {
  import opened Words
  import opened X86
  import opened Encoding

  // ----- numbers -----

  /** The eight registers in the order of their numbers. */
  function Code(r: Reg): (n: int)
    ensures 0 <= n < 8
  {
    match r
    case Eax => 0 case Ecx => 1 case Edx => 2 case Ebx => 3
    case Esp => 4 case Ebp => 5 case Esi => 6 case Edi => 7
  }

  lemma RegistersInOpcode(r: Reg)
    ensures Encode(PushR(r)) == [0x50 + Code(r)]
    ensures Encode(PopR(r)) == [0x58 + Code(r)]
    ensures Encode(DecR(r)) == [0x48 + Code(r)]
  {
  }

  lemma OneRegister(r: Reg)
    ensures Encode(NegR(r)) == [0xf7, 0xd8 + Code(r)]
  {
  }

  lemma CallRegister(r: Reg)
    ensures Encode(CallR(r)) == [0xff, 0xd0 + Code(r)]
  {
  }

  lemma JumpRegister(r: Reg)
    ensures Encode(JmpR(r)) == [0xff, 0xe0 + Code(r)]
  {
  }

  lemma Moves(d: Reg, s: Reg, w: Word)
    ensures s != Eax ==> Encode(MovRR(d, s)) == [0x89, 0xc0 + 8 * Code(s) + Code(d)]
    ensures Encode(MovRI(d, w)) == [0xb8 + Code(d)] + Imm32(w)
  {
  }

  /** Four bytes, the lowest first. */
  lemma LittleEndian(w: Word, d: Int32)
    ensures var a: int, b: int, c: int, e: int := Imm32(w)[0], Imm32(w)[1], Imm32(w)[2], Imm32(w)[3];
            a + 0x100 * b + 0x1_0000 * c + 0x100_0000 * e == w
    ensures Rel32(d) == Imm32(if d < 0 then d + 0x1_0000_0000 else d)
  {
    Imm32RoundTrip(w, []);
    assert Imm32(w) + [] == Imm32(w);
  }

  // ----- arithmetic -----

  /** The opcode of an operation on a memory or register operand and a register. */
  function AluOpcode(op: AluOp): (b: int)
    ensures 0 <= b <= 0x39
  {
    match op
    case Add => 0x01 case OrOp => 0x09 case Adc => 0x11 case Sbb => 0x19
    case AndOp => 0x21 case Sub => 0x29 case XorOp => 0x31 case Cmp => 0x39
  }

  lemma AluOpcodeIs(op: AluOp)
    ensures 8 * AluNum(op) + 1 == AluOpcode(op)
  {
  }

  lemma TwoRegisters(op: AluOp, d: Reg, s: Reg)
    ensures Encode(AluRR(op, d, s)) == [AluOpcode(op), 0xc0 + 8 * Code(s) + Code(d)]
  {
    AluOpcodeIs(op);
    hide AluNum, AluOpcode;
  }

  lemma AccumulatorImmediate(op: AluOp, w: Word)
    ensures Encode(AluRI(op, Eax, w)) == [AluOpcode(op) + 4] + Imm32(w)
  {
    AluOpcodeIs(op);
    hide Imm32, AluNum, AluOpcode;
  }

  lemma RegisterImmediate(op: AluOp, d: Reg, w: Word)
    requires d != Eax
    ensures Encode(AluRI(op, d, w)) == [0x81, 0xbf + AluOpcode(op) + Code(d)] + Imm32(w)
  {
    AluOpcodeIs(op);
    hide Imm32, AluNum, AluOpcode;
  }

  /** Multiplication and division with the accumulator, four operations of one opcode. */
  function GroupRow(op: MulDivOp): (b: int)
    ensures 0xe0 <= b <= 0xf8
  {
    match op
    case Mul => 0xe0 case Imul => 0xe8 case Div => 0xf0 case Idiv => 0xf8
  }

  lemma MultiplyDivide(op: MulDivOp, r: Reg)
    ensures Encode(MulDivR(op, r)) == [0xf7, GroupRow(op) + Code(r)]
    ensures Encode(Cdq) == [0x99]
  {
  }

  /** `sub ecx, eax`, `or eax, eax` and the two moves of a frame. */
  lemma KnownInstructions()
    ensures Encode(AluRR(Sub, Ecx, Eax)) == [0x29, 0xc1] && Encode(AluRR(OrOp, Eax, Eax)) == [0x09, 0xc0]
    ensures Encode(MovRR(Ebp, Esp)) == [0x89, 0xe5] && Encode(MovRR(Esp, Ebp)) == [0x89, 0xec]
  {
    TwoRegisters(Sub, Ecx, Eax);
    TwoRegisters(OrOp, Eax, Eax);
    Moves(Ebp, Esp, 0);
    Moves(Esp, Ebp, 0);
    hide Encode;
  }

  // ----- memory operands -----

  function LowByte(d: int): Byte
    requires -128 <= d < 128
  {
    if d < 0 then 256 + d else d
  }

  /** A base register with one byte of displacement where it fits. */
  lemma LoadBase(r: Reg, b: Reg, d: Int32)
    requires b != Esp
    ensures Encode(MovRM(r, BaseDisp(b, d))) ==
            if -128 <= d < 128 then [0x8b, 0x40 + 8 * Code(r) + Code(b), LowByte(d)]
            else [0x8b, 0x80 + 8 * Code(r) + Code(b)] + Rel32(d)
  {
    hide Rel32;
  }

  /** The byte 0x24 stands behind ModR/M when the base is esp. */
  lemma LoadStack(r: Reg, d: Int32)
    ensures Encode(MovRM(r, BaseDisp(Esp, d))) ==
            if -128 <= d < 128 then [0x8b, 0x44 + 8 * Code(r), 0x24, LowByte(d)]
            else [0x8b, 0x84 + 8 * Code(r), 0x24] + Rel32(d)
  {
    hide Rel32;
  }

  lemma LoadScaled(r: Reg, s: int, x: Reg, b: Reg, d: Int32)
    requires 0 <= s < 4 && x != Esp
    ensures var sib: Byte := 64 * s + 8 * Code(x) + Code(b);
            Encode(MovRM(r, SibDisp(s, x, b, d))) ==
            if -128 <= d < 128 then [0x8b, 0x44 + 8 * Code(r), sib, LowByte(d)]
            else [0x8b, 0x84 + 8 * Code(r), sib] + Rel32(d)
  {
    hide Rel32;
  }

  /** The operand bytes of a load, by which the other memory forms are told. */
  function OperandBytes(r: Reg, m: Mem): seq<Byte>
    requires m.Valid()
  {
    Encode(MovRM(r, m))[1..]
  }

  lemma OperandBytesAre(r: Reg, m: Mem)
    requires m.Valid()
    ensures OperandBytes(r, m) == EncodeMem(m, Num(r))
  {
    hide EncodeMem, Mem.Valid;
  }

  lemma MemoryMoves(r: Reg, m: Mem)
    requires m.Valid()
    ensures Encode(MovMR(m, r)) == [0x89] + OperandBytes(r, m)
    ensures Encode(MovRM16(r, m)) == [0x66, 0x8b] + OperandBytes(r, m)
    ensures r != Eax ==> Encode(MovMR16(m, r)) == [0x66, 0x89] + OperandBytes(r, m)
  {
    OperandBytesAre(r, m);
    hide EncodeMem, Mem.Valid, OperandBytes;
  }

  /** The register whose number a byte register has: the high bytes follow the low ones. */
  function SameNumber(b: ByteReg): Reg {
    match b
    case Al => Eax case Cl => Ecx case Dl => Edx case Bl => Ebx
    case Ah => Esp case Ch => Ebp case Dh => Esi case Bh => Edi
  }

  lemma ByteMoves(b: ByteReg, m: Mem)
    requires m.Valid()
    ensures Encode(MovRM8(b, m)) == [0x8a] + OperandBytes(SameNumber(b), m)
    ensures Encode(MovMR8(m, b)) == [0x88] + OperandBytes(SameNumber(b), m)
  {
    OperandBytesAre(SameNumber(b), m);
    assert Num(SameNumber(b)) == ByteNum(b);
    hide EncodeMem, Mem.Valid, OperandBytes, Num, ByteNum, SameNumber;
  }

  lemma MemoryArithmetic(op: AluOp, r: Reg, m: Mem)
    requires m.Valid()
    ensures Encode(AluMR(op, m, r)) == [AluOpcode(op)] + OperandBytes(r, m)
    ensures Encode(AluRM(op, r, m)) == [AluOpcode(op) + 2] + OperandBytes(r, m)
  {
    AluOpcodeIs(op);
    OperandBytesAre(r, m);
    hide EncodeMem, Mem.Valid, OperandBytes, AluNum, AluOpcode;
  }

  /** Opcodes with an operation in the register field: /0 to /7 are the fields of eax to edi. */
  function AluField(op: AluOp): Reg {
    match op
    case Add => Eax case OrOp => Ecx case Adc => Edx case Sbb => Ebx
    case AndOp => Esp case Sub => Ebp case XorOp => Esi case Cmp => Edi
  }

  lemma MemoryImmediate(op: AluOp, m: Mem, w: Word)
    requires m.Valid()
    ensures Encode(AluMI(op, m, w)) == [0x81] + OperandBytes(AluField(op), m) + Imm32(w)
  {
    OperandBytesAre(AluField(op), m);
    assert Num(AluField(op)) == AluNum(op);
    hide EncodeMem, Imm32, Mem.Valid, OperandBytes, Num, AluNum, AluField;
  }

  function GroupField(op: MulDivOp): Reg {
    match op
    case Mul => Esp case Imul => Ebp case Div => Esi case Idiv => Edi
  }

  lemma MemoryMultiply(op: MulDivOp, m: Mem)
    requires m.Valid()
    ensures Encode(MulDivM(op, m)) == [0xf7] + OperandBytes(GroupField(op), m)
  {
    OperandBytesAre(GroupField(op), m);
    assert Num(GroupField(op)) == MulDivNum(op);
    hide EncodeMem, Mem.Valid, OperandBytes, Num, MulDivNum, GroupField;
  }

  lemma OneMemoryOperand(m: Mem)
    requires m.Valid()
    ensures Encode(NegM(m)) == [0xf7] + OperandBytes(Ebx, m)
    ensures Encode(PushM(m)) == [0xff] + OperandBytes(Esi, m)
  {
    OperandBytesAre(Ebx, m);
    OperandBytesAre(Esi, m);
    hide EncodeMem, Mem.Valid, OperandBytes;
  }

  lemma TransferOperand(m: Mem)
    requires m.Valid()
    ensures Encode(CallM(m)) == [0xff] + OperandBytes(Edx, m)
    ensures Encode(JmpM(m)) == [0xff] + OperandBytes(Esp, m)
  {
    OperandBytesAre(Edx, m);
    OperandBytesAre(Esp, m);
    hide EncodeMem, Mem.Valid, OperandBytes;
  }

  lemma Extensions(r: Reg, m: Mem, signed: bool, wide: bool)
    requires m.Valid()
    ensures Encode(Widen(r, m, signed, wide)) ==
            [0x0f, if signed then (if wide then 0xbf else 0xbe) else if wide then 0xb7 else 0xb6]
            + OperandBytes(r, m)
  {
    OperandBytesAre(r, m);
    hide EncodeMem, Mem.Valid, OperandBytes;
  }

  // ----- transfers -----

  /** The opcode of the short conditional jump. */
  function CondOpcode(cc: Cond): (b: int)
    ensures 0x74 <= b <= 0x7f
  {
    match cc
    case CcEq => 0x74 case CcNe => 0x75 case CcLt => 0x7c
    case CcGe => 0x7d case CcLe => 0x7e case CcGt => 0x7f
  }

  lemma ConditionalJumps(cc: Cond, d: Int32)
    ensures Encode(JccRel(cc, d)) == [0x0f, 0x10 + CondOpcode(cc)] + Rel32(d)
    ensures -128 <= d < 128 ==> Encode(JccShort(cc, d)) == [CondOpcode(cc), LowByte(d)]
  {
    assert CondByte(cc) == CondOpcode(cc);
    hide Rel32, CondByte, CondOpcode;
  }

  lemma JumpsAndCalls(d: Int32, w: Word)
    ensures Encode(JmpRel(d)) == [0xe9] + Rel32(d)
    ensures Encode(CallRel(d)) == [0xe8] + Rel32(d)
    ensures Encode(PushI(w)) == [0x68] + Imm32(w)
  {
    hide Rel32, Imm32;
  }

  lemma ReturnsAndShortJump(n: int, d: int)
    requires 0 < n < 65536 && -128 <= d < 128
    ensures Encode(Ret) == [0xc3] && |Encode(RetI(n))| == 3 && Encode(RetI(n))[0] == 0xc2
    ensures var low: int, high: int := Encode(RetI(n))[1], Encode(RetI(n))[2]; low + 256 * high == n
    ensures Encode(JmpShort(d)) == [0xeb, LowByte(d)]
  {
  }
}
