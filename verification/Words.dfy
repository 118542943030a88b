/** 32-bit machine words and the C conversions the virtual machine relies on. */
module Words {
  const TWO_8: int := 0x100
  const TWO_15: int := 0x8000
  const TWO_16: int := 0x1_0000
  const TWO_31: int := 0x8000_0000
  const TWO_32: int := 0x1_0000_0000

  type Byte = x: int | 0 <= x < 0x100
  type Word = x: int | 0 <= x < 0x1_0000_0000
  type Int32 = x: int | -0x8000_0000 <= x < 0x8000_0000

  /** The value of an unbounded integer reduced to 32 bits. */
  function Wrap(x: int): (w: Word)
    ensures 0 <= x < TWO_32 ==> w == x
    ensures w == x % TWO_32
  {
    if 0 <= x < TWO_32 then x else x % TWO_32
  }

  /** A word read as a two's-complement number. */
  function Signed(w: Word): (x: Int32) {
    if w < TWO_31 then w else w - TWO_32
  }

  lemma SignedWrap(x: Int32)
    ensures Signed(Wrap(x)) == x
  {
    assert x < 0 ==> x % TWO_32 == x + TWO_32;
  }

  lemma WrapSigned(w: Word)
    ensures Wrap(Signed(w)) == w
  {
    if w >= TWO_31 {
      assert (w - TWO_32) % TWO_32 == w;
    }
  }

  /** `(int16)x`: the low 16 bits read as a two's-complement number. */
  function ToInt16(x: int): (r: int)
    ensures -TWO_15 <= r < TWO_15
    ensures -TWO_15 <= x < TWO_15 ==> r == x
  {
    var u := x % TWO_16;
    if u < TWO_15 then u else u - TWO_16
  }

  /** `(int8)b`. */
  function SignExtend8(b: Byte): (r: int)
    ensures -128 <= r < 128
  {
    if b < 128 then b else b - 256
  }

  /** A 16-bit big-endian operand read as a signed number. */
  function SignExtend16(u: int): (r: int)
    requires 0 <= u < TWO_16
    ensures -TWO_15 <= r < TWO_15
  {
    if u < TWO_15 then u else u - TWO_16
  }

  /** The bitwise operations, one bit at a time; `m` is the power of two both operands lie below. */
  datatype LogicOp = LogicAnd | LogicOr | LogicXor

  function Bit(op: LogicOp, x: int, y: int): (b: int)
    ensures 0 <= b <= 1
  {
    var p, q := x % 2 == 1, y % 2 == 1;
    match op
    case LogicAnd => if p && q then 1 else 0
    case LogicOr => if p || q then 1 else 0
    case LogicXor => if p != q then 1 else 0
  }

  function Pow2(n: nat): (r: nat)
    ensures r >= 1
  {
    if n == 0 then 1 else 2 * Pow2(n - 1)
  }

  lemma Pow2Of32()
    ensures Pow2(32) == TWO_32
  {
    assert Pow2(4) == 0x10;
    assert Pow2(8) == 0x100;
    assert Pow2(12) == 0x1000;
    assert Pow2(16) == 0x1_0000;
    assert Pow2(20) == 0x10_0000;
    assert Pow2(24) == 0x100_0000;
    assert Pow2(28) == 0x1000_0000;
  }

  function Bitwise(op: LogicOp, x: nat, y: nat, n: nat): (r: nat)
    ensures r < Pow2(n)
  {
    if n == 0 then 0 else 2 * Bitwise(op, x / 2, y / 2, n - 1) + Bit(op, x, y)
  }

  function Logic(op: LogicOp, a: Word, b: Word): Word {
    Pow2Of32();
    Bitwise(op, a, b, 32)
  }

  lemma {:induction false} BitwiseSelf(x: nat, n: nat)
    requires x < Pow2(n)
    ensures Bitwise(LogicOr, x, x, n) == Bitwise(LogicAnd, x, x, n) == x
    ensures Bitwise(LogicXor, x, x, n) == 0
  {
    if n > 0 {
      BitwiseSelf(x / 2, n - 1);
    }
  }

  /** `or r, r` leaves the register as it is (the compiler's test for zero and sign),
      and `xor r, r` clears it. */
  lemma LogicSelf(a: Word)
    ensures Logic(LogicOr, a, a) == Logic(LogicAnd, a, a) == a
    ensures Logic(LogicXor, a, a) == 0
  {
    Pow2Of32();
    BitwiseSelf(a, 32);
  }

  /** `and` with a number whose low bits are set, and no others, leaves a multiple of the next power out. */
  lemma {:induction false} LowBits(x: nat, k: nat, n: nat) returns (q: nat)
    requires k <= n
    ensures x == Pow2(k) * q + Bitwise(LogicAnd, x, Pow2(k) - 1, n)
    ensures Bitwise(LogicAnd, x, Pow2(k) - 1, n) < Pow2(k)
  {
    hide Bitwise;
    if k == 0 {
      q := x;
      NoBits(x, n);
    } else {
      q := LowBits(x / 2, k - 1, n - 1);
      var p, b := Pow2(k - 1), Bitwise(LogicAnd, x / 2, Pow2(k - 1) - 1, n - 1);
      LowBitsStep(x, 2 * p - 1, n);
      assert (2 * p - 2) / 2 == p - 1 && x == 2 * (x / 2) + x % 2;
      TwiceProduct(p, q);
    }
  }

  lemma {:induction false} NoBits(x: nat, n: nat)
    ensures Bitwise(LogicAnd, x, 0, n) == 0
  {
    if n > 0 {
      NoBits(x / 2, n - 1);
    }
  }

  lemma LowBitsStep(x: nat, y: nat, n: nat)
    requires n > 0 && y % 2 == 1
    ensures Bitwise(LogicAnd, x, y, n) == 2 * Bitwise(LogicAnd, x / 2, (y - 1) / 2, n - 1) + x % 2
  {
  }

  lemma TwiceProduct(p: nat, q: nat)
    ensures 2 * (p * q) == (2 * p) * q
  {
  }

  /** The product of two words read as signed numbers. */
  function Product(a: Word, b: Word): int {
    Signed(a) * Signed(b)
  }

  lemma ProductCommutes(a: Word, b: Word)
    ensures Product(a, b) == Product(b, a)
  {
  }

  /** Division rounding toward zero, as the hardware and the Java language do it. */
  function TruncDiv(a: int, b: int): (q: int)
    requires b != 0
  {
    if a >= 0 then (if b > 0 then a / b else -(a / -b))
    else (if b > 0 then -(-a / b) else -a / -b)
  }

  function TruncRem(a: int, b: int): (r: int)
    requires b != 0
  {
    a - b * TruncDiv(a, b)
  }

  lemma QuotientBound(m: nat, n: nat)
    requires n > 0
    ensures n == 1 ==> m / n == m
    ensures n > 1 ==> m / n <= m / 2
    ensures 0 <= m / n
    ensures 0 <= m - n * (m / n) < n
  {
    var q := m / n;
    assert m == n * q + m % n;
    if n > 1 {
      assert n * q >= 2 * q by { MulMono(q, 2, n); }
    }
  }

  lemma MulMono(k: nat, x: int, y: int)
    requires x <= y
    ensures k * x <= k * y
  {
    assert k * (y - x) >= 0;
  }

  lemma MulSigns(x: int, y: int)
    ensures (-x) * (-y) == x * y
    ensures x * (-y) == -(x * y)
    ensures (-x) * y == -(x * y)
  {
  }

  lemma TruncMagnitude(a: int, b: int)
    requires b != 0
    ensures var m, n := if a >= 0 then a else -a, if b > 0 then b else -b;
            TruncDiv(a, b) == (if (a >= 0) == (b > 0) then m / n else -(m / n)) &&
            TruncRem(a, b) == (if a >= 0 then m - n * (m / n) else -(m - n * (m / n)))
  {
    MulSigns(if b > 0 then b else -b, (if a >= 0 then a else -a) / if b > 0 then b else -b);
  }

  /** The quotient of two 32-bit numbers fits 32 bits except for the one overflowing pair. */
  lemma QuotientFits(a: Int32, b: Int32)
    requires b != 0
    ensures -TWO_31 <= TruncDiv(a, b) < TWO_31 <==> !(a == -TWO_31 && b == -1)
    ensures -TWO_31 <= TruncRem(a, b) < TWO_31
  {
    var m := if a >= 0 then a else 0 - a;
    var n := if b > 0 then b else 0 - b;
    TruncMagnitude(a, b);
    QuotientBound(m, n);
  }
}
