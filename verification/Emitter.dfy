/** The code emitters: they write the bytes of an instruction through an advancing position. */
module Emitter {
  import opened Words
  import opened X86
  import opened Encoding
  import opened CodeStream

  /** The bytes below `at` encode the listing `done`. */
  ghost predicate Holds(buf: array<Byte>, at: nat, done: Code)
    reads buf
  {
    at <= buf.Length && buf[..at] == EncodeAll(done)
  }

  /** The same, with `n` more bytes to spare. */
  ghost predicate HasRoom(buf: array<Byte>, at: nat, done: Code, n: int)
    reads buf
  {
    Holds(buf, at, done) && at + n <= buf.Length
  }

  lemma LessRoom(buf: array<Byte>, at: nat, done: Code, n: int, k: int)
    requires HasRoom(buf, at, done, n) && k <= n
    ensures HasRoom(buf, at, done, k)
  {
  }

  // ----- bytes -----

  method PutByte(buf: array<Byte>, at: nat, b: Byte) returns (r: nat)
    requires at < buf.Length
    modifies buf
    ensures r == at + 1 && buf[..r] == old(buf[..at]) + [b]
  {
    buf[at] := b;
    r := at + 1;
  }

  /** `imm_opnd_inst` for a 32-bit operand: least significant byte first. */
  method PutImm32(buf: array<Byte>, at: nat, w: Word) returns (r: nat)
    requires at + 4 <= buf.Length
    modifies buf
    ensures r == at + 4 && buf[..r] == old(buf[..at]) + Imm32(w) && buf[r..] == old(buf[at + 4..])
  {
    buf[at] := w % 0x100;
    buf[at + 1] := w / 0x100 % 0x100;
    buf[at + 2] := w / 0x1_0000 % 0x100;
    buf[at + 3] := w / 0x100_0000;
    r := at + 4;
    assert buf[..r] == buf[..at] + [buf[at], buf[at + 1], buf[at + 2], buf[at + 3]];
  }

  method PutDisp(buf: array<Byte>, at: nat, d: Int32) returns (r: nat)
    requires at + 4 <= buf.Length
    modifies buf
    ensures r == at + |Disp(d)| && buf[..r] == old(buf[..at]) + Disp(d)
  {
    if -128 <= d <= 127 {
      r := PutByte(buf, at, Byte8(d));
    } else {
      r := PutImm32(buf, at, Wrap(d));
    }
  }

  /** `mem_inst`: the ModR/M byte, the SIB byte an esp base or an index needs, the displacement in
      one byte if it fits and four otherwise. */
  method MemInst(buf: array<Byte>, at: nat, m: Mem, regop: int) returns (r: nat)
    requires m.Valid() && 0 <= regop < 8 && at + 6 <= buf.Length
    modifies buf
    ensures r == at + |EncodeMem(m, regop)| && buf[..r] == old(buf[..at]) + EncodeMem(m, regop)
  {
    var small := -128 <= m.disp <= 127;
    match m
    case BaseDisp(base, disp) =>
      r := PutByte(buf, at, ModRM(if small then 1 else 2, regop, Num(base)));
      if base == Esp {
        r := PutByte(buf, r, ModRM(0, 4, 4));
      }
      r := PutDisp(buf, r, disp);
    case SibDisp(scale, index, base, disp) =>
      r := PutByte(buf, at, ModRM(if small then 1 else 2, regop, 4));
      r := PutByte(buf, r, ModRM(scale, Num(index), Num(base)));
      r := PutDisp(buf, r, disp);
  }

  method RegInst(buf: array<Byte>, at: nat, reg: Reg, regop: int) returns (r: nat)
    requires 0 <= regop < 8 && at < buf.Length
    modifies buf
    ensures r == at + 1 && buf[..r] == old(buf[..at]) + EncodeReg(reg, regop)
  {
    r := PutByte(buf, at, ModRM(3, regop, Num(reg)));
  }

  /** An opcode byte and a memory operand. */
  method PutMem(buf: array<Byte>, at: nat, opcode: Byte, m: Mem, regop: int) returns (r: nat)
    requires m.Valid() && 0 <= regop < 8 && at + 7 <= buf.Length
    modifies buf
    ensures r == at + 1 + |EncodeMem(m, regop)| && buf[..r] == old(buf[..at]) + ([opcode] + EncodeMem(m, regop))
  {
    hide EncodeMem, Mem.Valid;
    r := PutByte(buf, at, opcode);
    r := MemInst(buf, r, m, regop);
  }

  /** An opcode byte and a register operand. */
  method PutReg(buf: array<Byte>, at: nat, opcode: Byte, reg: Reg, regop: int) returns (r: nat)
    requires 0 <= regop < 8 && at + 2 <= buf.Length
    modifies buf
    ensures r == at + 2 && buf[..r] == old(buf[..at]) + ([opcode] + EncodeReg(reg, regop))
  {
    hide EncodeReg;
    r := PutByte(buf, at, opcode);
    r := RegInst(buf, r, reg, regop);
  }

  /** An opcode byte and a 32-bit immediate. */
  method PutImm(buf: array<Byte>, at: nat, opcode: Byte, w: Word) returns (r: nat)
    requires at + 5 <= buf.Length
    modifies buf
    ensures r == at + 5 && buf[..r] == old(buf[..at]) + ([opcode] + Imm32(w))
  {
    hide Imm32;
    r := PutByte(buf, at, opcode);
    r := PutImm32(buf, r, w);
  }

  // ----- instructions -----

  /** Bytes appended to the listing's are the listing's with the instruction appended. */
  lemma Written(buf: array<Byte>, at: nat, r: nat, before: seq<Byte>, done: Code, i: EncInstr, n: int)
    requires before == EncodeAll(done) && at == |before| && at + n <= buf.Length && n >= 11
    requires r <= buf.Length && buf[..r] == before + Encode(i)
    ensures HasRoom(buf, r, done + [i], n - 11) && r == at + |Encode(i)|
  {
    hide Encode;
    EncodeAllSnoc(done, i);
  }

  /** The 8-bit and 16-bit forms of `mov`. */
  method MovNarrow(buf: array<Byte>, at: nat, i: EncInstr, ghost done: Code, ghost n: int) returns (r: nat)
    requires i.MovRM8? || i.MovMR8? || i.MovRM16? || i.MovMR16?
    requires HasRoom(buf, at, done, n) && n >= 11
    modifies buf
    ensures HasRoom(buf, r, done + [i], n - 11) && r == at + |Encode(i)|
  {
    hide EncodeMem, EncodeReg, EncodeAll, Imm32, ModRM, Mem.Valid;
    ghost var before := buf[..at];
    match i {
      case MovRM8(dst, src) =>
        r := PutMem(buf, at, 0x8a, src, ByteNum(dst));
      case MovMR8(mem, reg) =>
        r := PutMem(buf, at, 0x88, mem, ByteNum(reg));
      case MovRM16(dst, src) =>
        r := PutByte(buf, at, 0x66);
        r := PutMem(buf, r, 0x8b, src, Num(dst));
      case MovMR16(mem, reg) =>
        r := PutByte(buf, at, 0x66);
        r := PutMem(buf, r, 0x89, mem, Num(reg));
    }
    Written(buf, at, r, before, done, i, n);
  }

  method Mov(buf: array<Byte>, at: nat, i: EncInstr, ghost done: Code, ghost n: int) returns (r: nat)
    requires i.MovRM? || i.MovMR? || i.MovRR? || i.MovRI? || i.MovRM8? || i.MovMR8? || i.MovRM16? || i.MovMR16?
    requires HasRoom(buf, at, done, n) && n >= 11
    modifies buf
    ensures HasRoom(buf, r, done + [i], n - 11) && r == at + |Encode(i)|
  {
    hide EncodeMem, EncodeReg, EncodeAll, Imm32, ModRM, Mem.Valid;
    ghost var before := buf[..at];
    if i.MovRM8? || i.MovMR8? || i.MovRM16? || i.MovMR16? {
      r := MovNarrow(buf, at, i, done, n);
      return;
    }
    match i {
      case MovRI(dst, imm) =>
        r := PutImm(buf, at, 0xb8 + Num(dst), imm);
      case MovRM(dst, src) =>
        r := PutMem(buf, at, 0x8b, src, Num(dst));
      case MovMR(mem, reg) =>
        r := PutMem(buf, at, 0x89, mem, Num(reg));
      case MovRR(dst, from) =>
        r := PutReg(buf, at, 0x89, dst, Num(from));
    }
    Written(buf, at, r, before, done, i, n);
  }

  /** The immediate forms of `binalu`: the short eax form, or opcode 0x81. */
  lemma ImmediateForms(i: EncInstr)
    ensures i.AluRI? ==>
              Encode(i) == (if i.dst == Eax then [8 * AluNum(i.op) + 5] else [0x81] + EncodeReg(i.dst, AluNum(i.op)))
                           + Imm32(i.imm)
    ensures i.AluMI? ==> Encode(i) == [0x81] + EncodeMem(i.mem, AluNum(i.op)) + Imm32(i.imm)
  {
    hide EncodeMem, EncodeReg, Imm32, Mem.Valid;
  }

  method AluImmediate(buf: array<Byte>, at: nat, i: EncInstr, ghost done: Code, ghost n: int) returns (r: nat)
    requires i.AluRI? || i.AluMI?
    requires HasRoom(buf, at, done, n) && n >= 11
    modifies buf
    ensures HasRoom(buf, r, done + [i], n - 11) && r == at + |Encode(i)|
  {
    hide EncodeMem, EncodeReg, EncodeAll, Imm32, ModRM, Mem.Valid, Encode;
    ImmediateForms(i);
    ghost var before := buf[..at];
    ghost var head;
    match i {
      case AluRI(op, dst, imm) =>
        if dst == Eax {
          r := PutByte(buf, at, 8 * AluNum(op) + 5);
          head := [8 * AluNum(op) + 5];
        } else {
          r := PutReg(buf, at, 0x81, dst, AluNum(op));
          head := [0x81] + EncodeReg(dst, AluNum(op));
        }
      case AluMI(op, mem, imm) =>
        r := PutMem(buf, at, 0x81, mem, AluNum(op));
        head := [0x81] + EncodeMem(mem, AluNum(op));
    }
    assert buf[..r] == before + head && Encode(i) == head + Imm32(i.imm);
    r := PutImm32(buf, r, i.imm);
    Written(buf, at, r, before, done, i, n);
  }

  method BinAlu(buf: array<Byte>, at: nat, i: EncInstr, ghost done: Code, ghost n: int) returns (r: nat)
    requires i.AluMR? || i.AluRR? || i.AluRM? || i.AluRI? || i.AluMI?
    requires HasRoom(buf, at, done, n) && n >= 11
    modifies buf
    ensures HasRoom(buf, r, done + [i], n - 11) && r == at + |Encode(i)|
  {
    if i.AluRI? || i.AluMI? {
      r := AluImmediate(buf, at, i, done, n);
      return;
    }
    r := AluRegister(buf, at, i, done, n);
  }

  method AluRegister(buf: array<Byte>, at: nat, i: EncInstr, ghost done: Code, ghost n: int) returns (r: nat)
    requires i.AluMR? || i.AluRR? || i.AluRM?
    requires HasRoom(buf, at, done, n) && n >= 11
    modifies buf
    ensures HasRoom(buf, r, done + [i], n - 11) && r == at + |Encode(i)|
  {
    hide EncodeMem, EncodeReg, EncodeAll, Imm32, ModRM, Mem.Valid;
    ghost var before := buf[..at];
    match i {
      case AluRM(op, dst, src) =>
        r := PutMem(buf, at, 8 * AluNum(op) + 3, src, Num(dst));
      case AluMR(op, mem, reg) =>
        r := PutMem(buf, at, 8 * AluNum(op) + 1, mem, Num(reg));
      case AluRR(op, dst, from) =>
        r := PutReg(buf, at, 8 * AluNum(op) + 1, dst, Num(from));
    }
    Written(buf, at, r, before, done, i, n);
  }

  /** `unialu`: the negations and the register decrement. */
  method UniAlu(buf: array<Byte>, at: nat, i: EncInstr, ghost done: Code, ghost n: int) returns (r: nat)
    requires i.NegR? || i.NegM? || i.DecR?
    requires HasRoom(buf, at, done, n) && n >= 11
    modifies buf
    ensures HasRoom(buf, r, done + [i], n - 11) && r == at + |Encode(i)|
  {
    hide EncodeMem, EncodeReg, EncodeAll, Imm32;
    EncodeAllSnoc(done, i);
    match i
    case DecR(reg) =>
      r := PutByte(buf, at, 0x48 + Num(reg));
    case NegR(reg) =>
      r := PutReg(buf, at, 0xf7, reg, 3);
    case NegM(mem) =>
      r := PutMem(buf, at, 0xf7, mem, 3);
  }

  /** `muldiv`; CDQ is written directly by its caller. */
  method MulDivide(buf: array<Byte>, at: nat, i: EncInstr, ghost done: Code, ghost n: int) returns (r: nat)
    requires i.MulDivR? || i.MulDivM?
    requires HasRoom(buf, at, done, n) && n >= 11
    modifies buf
    ensures HasRoom(buf, r, done + [i], n - 11) && r == at + |Encode(i)|
  {
    hide EncodeMem, EncodeReg, EncodeAll, Imm32, ModRM, Mem.Valid;
    ghost var before := buf[..at];
    r := PutByte(buf, at, 0xf7);
    match i {
      case MulDivR(op, reg) => r := RegInst(buf, r, reg, MulDivNum(op));
      case MulDivM(op, mem) => r := MemInst(buf, r, mem, MulDivNum(op));
    }
    Written(buf, at, r, before, done, i, n);
  }

  method PutCdq(buf: array<Byte>, at: nat, ghost done: Code, ghost n: int) returns (r: nat)
    requires HasRoom(buf, at, done, n) && n >= 11
    modifies buf
    ensures HasRoom(buf, r, done + [Cdq], n - 11) && r == at + |Encode(Cdq)|
  {
    EncodeAllSnoc(done, Cdq);
    r := PutByte(buf, at, 0x99);
  }

  method WidenToFull(buf: array<Byte>, at: nat, i: EncInstr, ghost done: Code, ghost n: int) returns (r: nat)
    requires i.Widen?
    requires HasRoom(buf, at, done, n) && n >= 11
    modifies buf
    ensures HasRoom(buf, r, done + [i], n - 11) && r == at + |Encode(i)|
  {
    hide EncodeMem, EncodeReg, EncodeAll, Imm32, ModRM, Mem.Valid;
    ghost var before := buf[..at];
    var opcode := if i.signed then 0xbe else 0xb6;
    if i.wide {
      opcode := opcode + 1;
    }
    r := PutByte(buf, at, 0x0f);
    r := PutMem(buf, r, opcode, i.src, Num(i.dst));
    Written(buf, at, r, before, done, i, n);
  }

  method PushOpnd(buf: array<Byte>, at: nat, i: EncInstr, ghost done: Code, ghost n: int) returns (r: nat)
    requires i.PushR? || i.PushI? || i.PushM?
    requires HasRoom(buf, at, done, n) && n >= 11
    modifies buf
    ensures HasRoom(buf, r, done + [i], n - 11) && r == at + |Encode(i)|
  {
    hide EncodeMem, EncodeReg, EncodeAll, Imm32, ModRM, Mem.Valid;
    ghost var before := buf[..at];
    match i {
      case PushR(reg) =>
        r := PutByte(buf, at, 0x50 + Num(reg));
      case PushM(mem) =>
        r := PutMem(buf, at, 0xff, mem, 6);
      case PushI(imm) =>
        r := PutImm(buf, at, 0x68, imm);
    }
    Written(buf, at, r, before, done, i, n);
  }

  method PopOpnd(buf: array<Byte>, at: nat, i: EncInstr, ghost done: Code, ghost n: int) returns (r: nat)
    requires i.PopR?
    requires HasRoom(buf, at, done, n) && n >= 11
    modifies buf
    ensures HasRoom(buf, r, done + [i], n - 11) && r == at + |Encode(i)|
  {
    hide EncodeMem, EncodeReg, EncodeAll, Imm32;
    EncodeAllSnoc(done, i);
    r := PutByte(buf, at, 0x58 + Num(i.reg));
  }

  /** `ret`: with an operand, the operand's two bytes are written but the position returned does not
      count them. */
  method Return(buf: array<Byte>, at: nat, i: EncInstr, ghost done: Code, ghost n: int) returns (r: nat)
    requires i.Ret? || i.RetI?
    requires HasRoom(buf, at, done, n) && n >= 11
    modifies buf
    ensures Holds(buf, at + |Encode(i)|, done + [i])
    ensures r == at + 1
  {
    hide EncodeMem, EncodeReg, EncodeAll, Imm32;
    EncodeAllSnoc(done, i);
    match i
    case Ret =>
      r := PutByte(buf, at, 0xc3);
    case RetI(k) =>
      r := PutByte(buf, at, 0xc2);
      buf[r], buf[r + 1] := k % 0x100, k / 0x100;
      assert buf[..r + 2] == buf[..r] + [buf[r], buf[r + 1]];
  }

  method Branch(buf: array<Byte>, at: nat, i: EncInstr, ghost done: Code, ghost n: int) returns (r: nat)
    requires i.JccRel? || i.JccShort?
    requires HasRoom(buf, at, done, n) && n >= 11
    modifies buf
    ensures HasRoom(buf, r, done + [i], n - 11) && r == at + |Encode(i)|
  {
    hide EncodeMem, EncodeReg, EncodeAll, Imm32;
    EncodeAllSnoc(done, i);
    match i
    case JccShort(cc, d) =>
      r := PutByte(buf, at, CondByte(cc));
      r := PutByte(buf, r, Byte8(d));
    case JccRel(cc, d) =>
      r := PutByte(buf, at, 0x0f);
      r := PutImm(buf, r, CondByte(cc) + 0x10, Wrap(d));
  }

  method Jump(buf: array<Byte>, at: nat, i: EncInstr, ghost done: Code, ghost n: int) returns (r: nat)
    requires i.JmpRel? || i.JmpShort? || i.JmpR? || i.JmpM?
    requires HasRoom(buf, at, done, n) && n >= 11
    modifies buf
    ensures HasRoom(buf, r, done + [i], n - 11) && r == at + |Encode(i)|
  {
    hide EncodeMem, EncodeReg, EncodeAll, Imm32, ModRM, Mem.Valid;
    ghost var before := buf[..at];
    match i {
      case JmpShort(d) =>
        r := PutByte(buf, at, 0xeb);
        r := PutByte(buf, r, Byte8(d));
      case JmpRel(d) =>
        r := PutImm(buf, at, 0xe9, Wrap(d));
      case JmpR(reg) =>
        r := PutReg(buf, at, 0xff, reg, 4);
      case JmpM(mem) =>
        r := PutMem(buf, at, 0xff, mem, 4);
    }
    Written(buf, at, r, before, done, i, n);
  }

  method Call(buf: array<Byte>, at: nat, i: EncInstr, ghost done: Code, ghost n: int) returns (r: nat)
    requires i.CallRel? || i.CallR? || i.CallM?
    requires HasRoom(buf, at, done, n) && n >= 11
    modifies buf
    ensures HasRoom(buf, r, done + [i], n - 11) && r == at + |Encode(i)|
  {
    hide EncodeMem, EncodeReg, EncodeAll, Imm32, ModRM, Mem.Valid;
    ghost var before := buf[..at];
    match i {
      case CallRel(d) =>
        r := PutImm(buf, at, 0xe8, Wrap(d));
      case CallR(reg) =>
        r := PutReg(buf, at, 0xff, reg, 2);
      case CallM(mem) =>
        r := PutMem(buf, at, 0xff, mem, 2);
    }
    Written(buf, at, r, before, done, i, n);
  }
}
