/** What each opcode byte means, without naming the instructions it is read as: section 6.5 of The Java
    Virtual Machine Specification, byte by byte. */
module OpcodeMeaning {
  import opened Wrappers
  import opened Words
  import opened X86
  import opened Bytecode

  /** The byte at `pc` is `op`, with `n` operand bytes behind it, in a frame of the method. */
  predicate Reads(m: Method, pc: nat, op: Byte, n: nat, v: Vars) {
    pc + n < |m.code| && m.code[pc] == op && |v.locals| == m.maxLocals
  }

  /** The instruction at `pc` can be executed and has outcome `o`. */
  ghost predicate Does(m: Method, pc: nat, v: Vars, o: Outcome) {
    && Parse(m.code, pc).Some? && Fits(m, Parse(m.code, pc).value.insn, v)
    && JavaStep(m, pc, v) == o
  }

  /** One operand byte, two operand bytes, and both read as signed numbers. */
  function Low(m: Method, pc: nat): int
    requires pc + 1 < |m.code|
  {
    m.code[pc + 1]
  }

  function LowSigned(m: Method, pc: nat): int
    requires pc + 1 < |m.code|
  {
    var b: int := m.code[pc + 1];
    if b < 128 then b else b - 256
  }

  function PairSigned(m: Method, pc: nat): int
    requires pc + 2 < |m.code|
  {
    var hi: int, lo: int := m.code[pc + 1], m.code[pc + 2];
    if hi < 128 then 256 * hi + lo else 256 * hi + lo - 65536
  }

  function QuadSigned(m: Method, pc: nat): int
    requires pc + 4 < |m.code|
  {
    var a: int, b: int, c: int, d: int := m.code[pc + 1], m.code[pc + 2], m.code[pc + 3], m.code[pc + 4];
    var u := 0x100_0000 * a + 0x1_0000 * b + 256 * c + d;
    if a < 128 then u else u - 0x1_0000_0000
  }

  function Next(pc: nat, n: nat, v: Vars): Outcome {
    Running(pc + n, v)
  }

  // ----- constants -----

  lemma Constants(m: Method, pc: nat, op: Byte, v: Vars)
    requires Reads(m, pc, op, 0, v)
    ensures op == 0x00 ==> Does(m, pc, v, Next(pc, 1, v))
    ensures op == 0x01 ==> Does(m, pc, v, Next(pc, 1, v.(stack := v.stack + [0])))
    ensures op == 0x02 ==> Does(m, pc, v, Next(pc, 1, v.(stack := v.stack + [0xffff_ffff])))
    ensures op == 0x03 ==> Does(m, pc, v, Next(pc, 1, v.(stack := v.stack + [0])))
    ensures op == 0x04 ==> Does(m, pc, v, Next(pc, 1, v.(stack := v.stack + [1])))
    ensures op == 0x05 ==> Does(m, pc, v, Next(pc, 1, v.(stack := v.stack + [2])))
    ensures op == 0x06 ==> Does(m, pc, v, Next(pc, 1, v.(stack := v.stack + [3])))
    ensures op == 0x07 ==> Does(m, pc, v, Next(pc, 1, v.(stack := v.stack + [4])))
    ensures op == 0x08 ==> Does(m, pc, v, Next(pc, 1, v.(stack := v.stack + [5])))
    ensures op == 0x09 ==> Does(m, pc, v, Next(pc, 1, v.(stack := v.stack + [0, 0])))
    ensures op == 0x0a ==> Does(m, pc, v, Next(pc, 1, v.(stack := v.stack + [0, 1])))
  {
  }

  lemma Immediates(m: Method, pc: nat, op: Byte, v: Vars)
    ensures Reads(m, pc, 0x10, 1, v) ==>
              Does(m, pc, v, Next(pc, 2, v.(stack := v.stack + [Wrap(LowSigned(m, pc))])))
    ensures Reads(m, pc, 0x11, 2, v) ==>
              Does(m, pc, v, Next(pc, 3, v.(stack := v.stack + [Wrap(PairSigned(m, pc))])))
  {
  }

  // ----- locals -----

  /** The local read or written, where the opcode holds its number. */
  lemma LoadsAndStores(m: Method, pc: nat, op: Byte, v: Vars, i: nat)
    requires Reads(m, pc, op, 0, v) && i < 4 && i < |v.locals|
    ensures op == 0x1a + i || op == 0x2a + i ==>
              Does(m, pc, v, Next(pc, 1, v.(stack := v.stack + [v.locals[i]])))
    ensures (op == 0x3b + i || op == 0x4b + i) && v.stack != [] ==>
              var n := |v.stack| - 1; Does(m, pc, v, Next(pc, 1, Vars(v.locals[i := v.stack[n]], v.stack[..n])))
  {
  }

  lemma IndexedLocals(m: Method, pc: nat, op: Byte, v: Vars)
    requires Reads(m, pc, op, 1, v) && Low(m, pc) < |v.locals|
    ensures op == 0x15 || op == 0x19 ==>
              Does(m, pc, v, Next(pc, 2, v.(stack := v.stack + [v.locals[Low(m, pc)]])))
    ensures (op == 0x36 || op == 0x3a) && v.stack != [] ==>
              var n := |v.stack| - 1;
              Does(m, pc, v, Next(pc, 2, Vars(v.locals[Low(m, pc) := v.stack[n]], v.stack[..n])))
  {
  }

  lemma Increment(m: Method, pc: nat, v: Vars)
    requires Reads(m, pc, 0x84, 2, v) && Low(m, pc) < |v.locals|
    ensures var i, d: int := Low(m, pc), m.code[pc + 2];
            Does(m, pc, v, Next(pc, 3, v.(locals := v.locals[i :=
              Wrap(Signed(v.locals[i]) + if d < 128 then d else d - 256)])))
  {
  }

  // ----- operand stack -----

  lemma OneOnTop(m: Method, pc: nat, op: Byte, v: Vars, s: seq<Word>, a: Word)
    requires Reads(m, pc, op, 0, v) && v.stack == s + [a]
    ensures op == 0x57 ==> Does(m, pc, v, Next(pc, 1, v.(stack := s)))
    ensures op == 0x59 ==> Does(m, pc, v, Next(pc, 1, v.(stack := s + [a, a])))
  {
    assert v.stack[..|s|] == s;
    assert s + [a] + [a] == s + [a, a];
  }

  lemma TwoOnTop(m: Method, pc: nat, op: Byte, v: Vars, s: seq<Word>, b: Word, a: Word)
    requires Reads(m, pc, op, 0, v) && v.stack == s + [b, a]
    ensures op == 0x58 ==> Does(m, pc, v, Next(pc, 1, v.(stack := s)))
    ensures op == 0x5a ==> Does(m, pc, v, Next(pc, 1, v.(stack := s + [a, b, a])))
    ensures op == 0x5c ==> Does(m, pc, v, Next(pc, 1, v.(stack := s + [b, a, b, a])))
    ensures op == 0x5f ==> Does(m, pc, v, Next(pc, 1, v.(stack := s + [a, b])))
  {
    assert v.stack[..|s|] == s;
    assert s + [b, a] + [b, a] == s + [b, a, b, a];
  }

  lemma MoreOnTop(m: Method, pc: nat, op: Byte, v: Vars, s: seq<Word>, c: Word, b: Word, a: Word)
    requires Reads(m, pc, op, 0, v) && v.stack == s + [c, b, a]
    ensures op == 0x5b ==> Does(m, pc, v, Next(pc, 1, v.(stack := s + [a, c, b, a])))
    ensures op == 0x5d ==> Does(m, pc, v, Next(pc, 1, v.(stack := s + [b, a, c, b, a])))
    ensures op == 0x5e && s != [] ==>
              var k := |s| - 1; Does(m, pc, v, Next(pc, 1, v.(stack := s[..k] + [b, a, s[k], c, b, a])))
  {
    assert v.stack[..|s|] == s;
    if s != [] {
      assert v.stack[..|s| - 1] == s[..|s| - 1];
    }
  }

  // ----- arithmetic -----

  lemma SumAndDifference(m: Method, pc: nat, op: Byte, v: Vars, s: seq<Word>, a: Word, b: Word)
    requires Reads(m, pc, op, 0, v) && v.stack == s + [a, b]
    ensures op == 0x60 ==> Does(m, pc, v, Next(pc, 1, v.(stack := s + [(a + b) % TWO_32])))
    ensures op == 0x64 ==> Does(m, pc, v, Next(pc, 1, v.(stack := s + [(a - b) % TWO_32])))
  {
    hide Wrap, Signed;
    SumWraps(a, b);
    assert v.stack[..|s|] == s;
  }

  lemma SumWraps(a: Word, b: Word)
    ensures Wrap(Signed(a) + Signed(b)) == (a + b) % TWO_32
    ensures Wrap(Signed(a) - Signed(b)) == (a - b) % TWO_32
  {
  }

  lemma Multiplication(m: Method, pc: nat, v: Vars, s: seq<Word>, a: Word, b: Word)
    requires Reads(m, pc, 0x68, 0, v) && v.stack == s + [a, b]
    ensures Does(m, pc, v, Next(pc, 1, v.(stack := s + [Wrap(Signed(a) * Signed(b))])))
  {
    hide Wrap, Signed;
    assert v.stack[..|s|] == s;
  }

  /** What idiv and irem leave: the quotient rounded toward zero, and a remainder smaller than the
      divisor that is zero or has the dividend's sign. */
  ghost predicate Divides(x: int, y: int, q: int, r: int) {
    && x == y * q + r
    && (if y > 0 then -y < r < y else y < r < -y)
    && (r == 0 || (r > 0 <==> x > 0))
  }

  lemma TruncDivides(x: int, y: int)
    requires y != 0
    ensures Divides(x, y, TruncDiv(x, y), TruncRem(x, y))
  {
    var m, n := if x >= 0 then x else -x, if y > 0 then y else -y;
    TruncMagnitude(x, y);
    QuotientBound(m, n);
  }

  lemma Division(m: Method, pc: nat, op: Byte, v: Vars, s: seq<Word>, a: Word, b: Word)
    returns (q: int, r: int)
    requires Reads(m, pc, op, 0, v) && v.stack == s + [a, b]
    ensures (op == 0x6c || op == 0x70) && b == 0 ==> Does(m, pc, v, Thrown)
    ensures b != 0 ==> Divides(Signed(a), Signed(b), q, r)
    ensures op == 0x6c && b != 0 ==> Does(m, pc, v, Next(pc, 1, v.(stack := s + [Wrap(q)])))
    ensures op == 0x70 && b != 0 ==> Does(m, pc, v, Next(pc, 1, v.(stack := s + [Wrap(r)])))
  {
    hide TruncDiv, TruncRem, Divides;
    assert v.stack[..|s|] == s;
    q, r := 0, 0;
    if b != 0 {
      TruncDivides(Signed(a), Signed(b));
      q, r := TruncDiv(Signed(a), Signed(b)), TruncRem(Signed(a), Signed(b));
    }
  }

  lemma Negation(m: Method, pc: nat, op: Byte, v: Vars, s: seq<Word>, a: Word)
    requires Reads(m, pc, op, 0, v) && v.stack == s + [a]
    ensures op == 0x74 ==> Does(m, pc, v, Next(pc, 1, v.(stack := s + [(0 - a) % TWO_32])))
  {
    assert v.stack[..|s|] == s;
  }

  /** The two words of the result make up the negated 64-bit number. */
  lemma LongNegation(m: Method, pc: nat, v: Vars, s: seq<Word>, hi: Word, lo: Word) returns (h: Word, l: Word)
    requires Reads(m, pc, 0x75, 0, v) && v.stack == s + [hi, lo]
    ensures Does(m, pc, v, Next(pc, 1, v.(stack := s + [h, l])))
    ensures h * TWO_32 + l == if hi == 0 && lo == 0 then 0 else TWO_32 * TWO_32 - (hi * TWO_32 + lo)
  {
    hide NegateLong;
    assert v.stack[..|s|] == s;
    NegatedWords(hi, lo);
    h, l := NegateLong(hi, lo).0, NegateLong(hi, lo).1;
  }

  lemma NegatedWords(hi: Word, lo: Word)
    ensures var (h, l) := NegateLong(hi, lo);
            h * TWO_32 + l == if hi == 0 && lo == 0 then 0 else TWO_32 * TWO_32 - (hi * TWO_32 + lo)
  {
  }

  /** Bit `k` of a number. */
  function BitOf(x: nat, k: nat): nat {
    if k == 0 then x % 2 else BitOf(x / 2, k - 1)
  }

  /** `r` has the bits of `x` and `y` combined: both, one at least, or exactly one. */
  ghost predicate Combines(op: Byte, x: Word, y: Word, r: Word) {
    forall k: nat :: k < 32 ==>
      BitOf(r, k) ==
      if op == 0x7e then BitOf(x, k) * BitOf(y, k)
      else if op == 0x80 then (if BitOf(x, k) + BitOf(y, k) > 0 then 1 else 0)
      else (BitOf(x, k) + BitOf(y, k)) % 2
  }

  lemma {:induction false} BitwiseBits(op: LogicOp, x: nat, y: nat, n: nat, k: nat)
    requires k < n
    ensures BitOf(Bitwise(op, x, y, n), k) ==
            match op
            case LogicAnd => BitOf(x, k) * BitOf(y, k)
            case LogicOr => if BitOf(x, k) + BitOf(y, k) > 0 then 1 else 0
            case LogicXor => (BitOf(x, k) + BitOf(y, k)) % 2
  {
    var r := Bitwise(op, x, y, n);
    assert r / 2 == Bitwise(op, x / 2, y / 2, n - 1) && r % 2 == Bit(op, x, y);
    if k > 0 {
      BitwiseBits(op, x / 2, y / 2, n - 1, k - 1);
    }
  }

  lemma LogicCombines(op: LogicOp, code: Byte, x: Word, y: Word)
    requires code == match op case LogicAnd => 0x7e case LogicOr => 0x80 case LogicXor => 0x82
    ensures Combines(code, x, y, Logic(op, x, y))
  {
    hide Bitwise, BitOf;
    forall k: nat | k < 32 {
      BitwiseBits(op, x, y, 32, k);
    }
  }

  lemma BitwiseOps(m: Method, pc: nat, op: Byte, v: Vars, s: seq<Word>, a: Word, b: Word) returns (r: Word)
    requires Reads(m, pc, op, 0, v) && v.stack == s + [a, b] && op in [0x7e, 0x80, 0x82]
    ensures Does(m, pc, v, Next(pc, 1, v.(stack := s + [r]))) && Combines(op, a, b, r)
  {
    hide Logic, Combines;
    assert v.stack[..|s|] == s;
    var l := if op == 0x7e then LogicAnd else if op == 0x80 then LogicOr else LogicXor;
    r := Logic(l, a, b);
    LogicCombines(l, op, a, b);
  }

  lemma Narrowing(m: Method, pc: nat, op: Byte, v: Vars, s: seq<Word>, a: Word)
    requires Reads(m, pc, op, 0, v) && v.stack == s + [a]
    ensures op == 0x91 ==>
              var b := a % 256; Does(m, pc, v, Next(pc, 1, v.(stack := s + [if b < 128 then b else 0xffff_ff00 + b])))
    ensures op == 0x92 ==> Does(m, pc, v, Next(pc, 1, v.(stack := s + [a % 65536])))
    ensures op == 0x93 ==>
              var h := a % 65536;
              Does(m, pc, v, Next(pc, 1, v.(stack := s + [if h < 32768 then h else 0xffff_0000 + h])))
  {
    assert v.stack[..|s|] == s;
  }

  // ----- branches and returns -----

  /** Two bytes of offset: to the target if the condition holds, else behind the instruction. */
  function Branch(m: Method, pc: nat, v: Vars, s: seq<Word>, taken: bool): Outcome
    requires pc + 2 < |m.code|
  {
    Running(if taken then pc + PairSigned(m, pc) else pc + 3, v.(stack := s))
  }

  lemma OffsetRead(m: Method, pc: nat)
    requires pc + 2 < |m.code|
    ensures SignExtend16(Index16(m.code, pc + 1)) == PairSigned(m, pc)
  {
  }

  lemma ConditionalRead(code: seq<Byte>, pc: nat)
    requires pc + 2 < |code| && (0x99 <= code[pc] <= 0xa6 || code[pc] == 0xc6 || code[pc] == 0xc7)
    ensures var i := ParseBranch(code[pc], pc + SignExtend16(Index16(code, pc + 1)));
            i.Some? && Parse(code, pc) == Some(Parsed(i.value, pc + 3))
  {
    hide Index16, SignExtend16;
  }

  lemma ZeroTests(m: Method, pc: nat, op: Byte, v: Vars, s: seq<Word>, a: Word)
    requires Reads(m, pc, op, 2, v) && v.stack == s + [a]
    ensures op == 0x99 || op == 0xc6 ==> Does(m, pc, v, Branch(m, pc, v, s, a == 0))
    ensures op == 0x9a || op == 0xc7 ==> Does(m, pc, v, Branch(m, pc, v, s, a != 0))
  {
    hide Parse, Index16, SignExtend16, PairSigned;
    OffsetRead(m, pc);
    if 0x99 <= op <= 0xa6 || op == 0xc6 || op == 0xc7 {
      ConditionalRead(m.code, pc);
    }
    assert v.stack[..|s|] == s;
  }

  lemma SignTests(m: Method, pc: nat, op: Byte, v: Vars, s: seq<Word>, a: Word)
    requires Reads(m, pc, op, 2, v) && v.stack == s + [a]
    ensures op == 0x9b ==> Does(m, pc, v, Branch(m, pc, v, s, Signed(a) < 0))
    ensures op == 0x9c ==> Does(m, pc, v, Branch(m, pc, v, s, Signed(a) >= 0))
    ensures op == 0x9d ==> Does(m, pc, v, Branch(m, pc, v, s, Signed(a) > 0))
    ensures op == 0x9e ==> Does(m, pc, v, Branch(m, pc, v, s, Signed(a) <= 0))
  {
    hide Parse, Index16, SignExtend16, PairSigned, Signed;
    OffsetRead(m, pc);
    if 0x99 <= op <= 0xa6 || op == 0xc6 || op == 0xc7 {
      ConditionalRead(m.code, pc);
    }
    assert v.stack[..|s|] == s;
  }

  lemma EqualityTests(m: Method, pc: nat, op: Byte, v: Vars, s: seq<Word>, a: Word, b: Word)
    requires Reads(m, pc, op, 2, v) && v.stack == s + [a, b]
    ensures op == 0x9f || op == 0xa5 ==> Does(m, pc, v, Branch(m, pc, v, s, a == b))
    ensures op == 0xa0 || op == 0xa6 ==> Does(m, pc, v, Branch(m, pc, v, s, a != b))
  {
    hide Parse, Index16, SignExtend16, PairSigned;
    OffsetRead(m, pc);
    if 0x99 <= op <= 0xa6 || op == 0xc6 || op == 0xc7 {
      ConditionalRead(m.code, pc);
    }
    assert v.stack[..|s|] == s;
  }

  lemma OrderTests(m: Method, pc: nat, op: Byte, v: Vars, s: seq<Word>, a: Word, b: Word)
    requires Reads(m, pc, op, 2, v) && v.stack == s + [a, b]
    ensures op == 0xa1 ==> Does(m, pc, v, Branch(m, pc, v, s, Signed(a) < Signed(b)))
    ensures op == 0xa2 ==> Does(m, pc, v, Branch(m, pc, v, s, Signed(a) >= Signed(b)))
    ensures op == 0xa3 ==> Does(m, pc, v, Branch(m, pc, v, s, Signed(a) > Signed(b)))
    ensures op == 0xa4 ==> Does(m, pc, v, Branch(m, pc, v, s, Signed(a) <= Signed(b)))
  {
    hide Parse, Index16, SignExtend16, PairSigned, Signed;
    OffsetRead(m, pc);
    if 0x99 <= op <= 0xa6 || op == 0xc6 || op == 0xc7 {
      ConditionalRead(m.code, pc);
    }
    assert v.stack[..|s|] == s;
  }

  lemma Jumps(m: Method, pc: nat, v: Vars)
    ensures Reads(m, pc, 0xa7, 2, v) ==> Does(m, pc, v, Running(pc + PairSigned(m, pc), v))
    ensures Reads(m, pc, 0xc8, 4, v) ==> Does(m, pc, v, Running(pc + QuadSigned(m, pc), v))
  {
  }

  lemma ReturnsNothing(m: Method, pc: nat, v: Vars)
    requires Reads(m, pc, 0xb1, 0, v)
    ensures Does(m, pc, v, Finished([]))
  {
    assert v.stack[|v.stack|..] == [];
  }

  lemma ReturnsOne(m: Method, pc: nat, op: Byte, v: Vars, s: seq<Word>, a: Word)
    requires Reads(m, pc, op, 0, v) && v.stack == s + [a]
    ensures op == 0xac || op == 0xb0 ==> Does(m, pc, v, Finished([a]))
  {
    assert v.stack[|s|..] == [a];
  }

  lemma ReturnsTwo(m: Method, pc: nat, v: Vars, s: seq<Word>, b: Word, a: Word)
    requires Reads(m, pc, 0xad, 0, v) && v.stack == s + [b, a]
    ensures Does(m, pc, v, Finished([b, a]))
  {
    assert v.stack[|s|..] == [b, a];
  }

  predicate Between(op: Byte, first: Byte, last: Byte) {
    first <= op <= last
  }

  /** The opcodes above and no others are read. */
  lemma NoOthers(code: seq<Byte>, pc: nat)
    requires Parse(code, pc).Some?
    ensures var op := code[pc];
            || Between(op, 0x00, 0x0a) || op == 0x10 || op == 0x11 || op == 0x15 || op == 0x19
            || Between(op, 0x1a, 0x1d) || Between(op, 0x2a, 0x2d) || op == 0x36 || op == 0x3a
            || Between(op, 0x3b, 0x3e) || Between(op, 0x4b, 0x4e) || Between(op, 0x57, 0x5f)
            || op == 0x60 || op == 0x64 || op == 0x68 || op == 0x6c || op == 0x70 || op == 0x74 || op == 0x75
            || op == 0x7e || op == 0x80 || op == 0x82 || op == 0x84 || Between(op, 0x91, 0x93)
            || Between(op, 0x99, 0xa7) || op == 0xac || op == 0xad || op == 0xb0 || op == 0xb1
            || Between(op, 0xc6, 0xc8)
  {
  }
}
