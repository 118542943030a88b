/** Modified UTF-8 (section 4.4.7 of The Java Virtual Machine Specification): 16-bit units packed into
    bytes none of which is zero, and back. Masks and shifts are written as `%`, `*` and `/`. */
module Utf8 {
  import opened Wrappers
  import opened Words

  type Unit = u: int | 0 <= u < 0x1_0000

  // ----- packing -----

  function PackUnit(ch: Unit): (r: seq<Byte>)
    ensures 1 <= |r| <= 3
  {
    if ch == 0 then [0xc0, 0x80]
    else if ch < 0x80 then [ch]
    else if ch < 0x800 then [0xc0 + ch / 0x40 % 0x20, 0x80 + ch % 0x40]
    else [0xe0 + ch / 0x1000 % 0x10, 0x80 + ch / 0x40 % 0x40, 0x80 + ch % 0x40]
  }

  function Pack(us: seq<Unit>): seq<Byte> {
    if us == [] then [] else PackUnit(us[0]) + Pack(us[1..])
  }

  function UnitLength(ch: Unit): nat {
    if ch == 0 then 2 else if ch < 0x80 then 1 else if ch < 0x800 then 2 else 3
  }

  // ----- unpacking -----

  /** The first character of a buffer and the number of its bytes; None at a byte 10xxxxxx, where the
      source stops at an assertion, and when the buffer ends inside the character. */
  function UnpackUnit(b: seq<Byte>): (r: Option<(Unit, nat)>)
    requires b != []
    ensures r.Some? ==> 1 <= r.value.1 <= |b|
  {
    var x: int := b[0];
    if x / 0x80 % 2 == 0 then Some((x, 1))
    else if x / 0x40 % 2 == 0 then None
    else if x / 0x20 % 2 == 1 then
      if |b| < 3 then None else Some((Join3(x, b[1], b[2]), 3))
    else
      if |b| < 2 then None else Some((Join2(x, b[1]), 2))
  }

  function Join2(x: int, y: int): Unit {
    x % 0x20 * 0x40 + y % 0x40
  }

  function Join3(x: int, y: int, z: int): Unit {
    x % 0x10 * 0x1000 + y % 0x40 * 0x40 + z % 0x40
  }

  /** The units up to the terminating zero byte. */
  function Unpack(b: seq<Byte>): Option<seq<Unit>> {
    if b == [] then None
    else if b[0] == 0 then Some([])
    else
      var first := UnpackUnit(b);
      if first.None? then None
      else
        var rest := Unpack(b[first.value.1..]);
        if rest.None? then None else Some([first.value.0] + rest.value)
  }

  // ----- well-formed shortest form -----

  predicate Continuation(b: Byte) {
    0x80 <= b < 0xc0
  }

  /** The length of the well-formed character a text begins with; 0 if it begins with none. */
  function FormLength(t: seq<Byte>): (n: nat)
    ensures n <= |t| && n <= 3
  {
    if t == [] then 0
    else if 1 <= t[0] < 0x80 then 1
    else if |t| >= 2 && t[0] == 0xc0 && t[1] == 0x80 then 2
    else if |t| >= 2 && 0xc2 <= t[0] < 0xe0 && Continuation(t[1]) then 2
    else if |t| >= 3 && 0xe0 <= t[0] < 0xf0 && Continuation(t[1]) && Continuation(t[2])
      && (t[0] == 0xe0 ==> t[1] >= 0xa0)
    then 3
    else 0
  }

  predicate WellFormed(t: seq<Byte>) {
    t == [] || (FormLength(t) > 0 && WellFormed(t[FormLength(t)..]))
  }

  /** The three forms, the bits of a unit from the highest on spread over the bytes. */
  lemma PackedForms(a: int, b: int, c: int)
    requires 0 <= a < 0x10 && 0 <= b < 0x40 && 0 <= c < 0x40
    ensures a == 0 && b < 2 && (b, c) != (0, 0) ==> PackUnit(0x40 * b + c) == [0x40 * b + c]
    ensures a == 0 && 2 <= b < 0x20 ==> PackUnit(0x40 * b + c) == [0xc0 + b, 0x80 + c]
    ensures a > 0 || b >= 0x20 ==> PackUnit(0x1000 * a + 0x40 * b + c) == [0xe0 + a, 0x80 + b, 0x80 + c]
    ensures PackUnit(0) == [0xc0, 0x80]
  {
    if a > 0 || b >= 0x20 {
      var u := 0x1000 * a + 0x40 * b + c;
      assert u / 0x40 == 0x40 * a + b && u / 0x1000 == a;
    }
  }

  // ----- one character -----

  lemma Split2(ch: Unit)
    requires ch < 0x800
    ensures Join2(0xc0 + ch / 0x40 % 0x20, 0x80 + ch % 0x40) == ch
  {
  }

  lemma Split3(ch: Unit)
    ensures Join3(0xe0 + ch / 0x1000 % 0x10, 0x80 + ch / 0x40 % 0x40, 0x80 + ch % 0x40) == ch
  {
  }

  lemma UnpackPackUnit(ch: Unit, rest: seq<Byte>)
    ensures UnpackUnit(PackUnit(ch) + rest) == Some((ch, UnitLength(ch)))
    ensures |PackUnit(ch)| == UnitLength(ch) && (PackUnit(ch) + rest)[UnitLength(ch)..] == rest
    ensures forall i :: 0 <= i < UnitLength(ch) ==> PackUnit(ch)[i] != 0
    ensures FormLength(PackUnit(ch) + rest) == UnitLength(ch)
  {
    hide Join2, Join3;
    if ch < 0x800 {
      Split2(ch);
    } else {
      Split3(ch);
    }
  }

  lemma PackJoin2(x: Byte, y: Byte)
    requires 0xc2 <= x < 0xe0 && Continuation(y)
    ensures PackUnit(Join2(x, y)) == [x, y]
  {
  }

  lemma Join3Value(x: Byte, y: Byte, z: Byte)
    requires 0xe0 <= x < 0xf0 && Continuation(y) && Continuation(z)
    ensures Join3(x, y, z) == (x - 0xe0) * 0x1000 + (y - 0x80) * 0x40 + (z - 0x80)
  {
  }

  lemma Digits3(a: int, b: int, c: int)
    requires 0 <= a < 0x10 && 0 <= b < 0x40 && 0 <= c < 0x40
    ensures var ch := a * 0x1000 + b * 0x40 + c;
            ch / 0x1000 % 0x10 == a && ch / 0x40 % 0x40 == b && ch % 0x40 == c
  {
    var ch := a * 0x1000 + b * 0x40 + c;
    assert ch / 0x40 == a * 0x40 + b;
  }

  lemma PackJoin3(x: Byte, y: Byte, z: Byte)
    requires 0xe0 <= x < 0xf0 && Continuation(y) && Continuation(z) && (x == 0xe0 ==> y >= 0xa0)
    ensures PackUnit(Join3(x, y, z)) == [x, y, z]
  {
    hide Join3;
    Join3Value(x, y, z);
    Digits3(x - 0xe0, y - 0x80, z - 0x80);
  }

  lemma PackUnpackUnit(t: seq<Byte>, tail: seq<Byte>)
    requires FormLength(t) > 0
    ensures UnpackUnit(t + tail).Some?
    ensures var first := UnpackUnit(t + tail).value; first.1 == FormLength(t) && PackUnit(first.0) == t[..FormLength(t)]
  {
    hide Join2, Join3, PackUnit;
    if FormLength(t) == 1 {
      PackAscii(t[0]);
    } else if FormLength(t) == 2 {
      if t[0] == 0xc0 {
        PackZero();
      } else {
        PackJoin2(t[0], t[1]);
      }
    } else {
      PackJoin3(t[0], t[1], t[2]);
    }
  }

  lemma PackAscii(x: Byte)
    requires 1 <= x < 0x80
    ensures PackUnit(x) == [x]
  {
  }

  lemma PackZero()
    ensures Join2(0xc0, 0x80) == 0 && PackUnit(0) == [0xc0, 0x80]
  {
  }

  // ----- texts -----

  /** Unpacking undoes packing, and the packed text has no zero byte and is well formed. */
  lemma {:induction false} UnpackPack(us: seq<Unit>, rest: seq<Byte>)
    ensures Unpack(Pack(us) + [0] + rest) == Some(us)
    ensures 0 !in Pack(us) && WellFormed(Pack(us))
  {
    hide PackUnit, UnpackUnit, FormLength;
    if us != [] {
      var p := PackUnit(us[0]);
      var tail := Pack(us[1..]) + [0] + rest;
      UnpackPack(us[1..], rest);
      UnpackPackUnit(us[0], tail);
      UnpackPackUnit(us[0], Pack(us[1..]));
      var b := p + tail;
      assert Pack(us) + [0] + rest == b && b[0] == p[0];
      assert UnpackUnit(b) == Some((us[0], |p|)) && b[|p|..] == tail;
      assert [us[0]] + us[1..] == us;
    }
  }

  /** Packing undoes unpacking exactly on the well-formed shortest-form texts. */
  lemma PackUnpackIff(t: seq<Byte>, rest: seq<Byte>)
    ensures (Unpack(t + [0] + rest).Some? && Pack(Unpack(t + [0] + rest).value) == t) <==> WellFormed(t)
  {
    if WellFormed(t) {
      WellFormedUnpacks(t, rest);
    } else if Unpack(t + [0] + rest).Some? {
      UnpackPack(Unpack(t + [0] + rest).value, rest);
    }
  }

  lemma {:induction false} WellFormedUnpacks(t: seq<Byte>, rest: seq<Byte>)
    requires WellFormed(t)
    ensures Unpack(t + [0] + rest).Some? && Pack(Unpack(t + [0] + rest).value) == t
  {
    hide PackUnit, UnpackUnit, FormLength;
    if t != [] {
      var n := FormLength(t);
      var b := t + [0] + rest;
      assert b == t + ([0] + rest) && b[0] == t[0] && b[n..] == t[n..] + [0] + rest;
      PackUnpackUnit(t, [0] + rest);
      FirstNotZero(t);
      WellFormedUnpacks(t[n..], rest);
      var u := UnpackUnit(b).value.0;
      var us := Unpack(b[n..]).value;
      assert Unpack(b) == Some([u] + us);
      PackCons(u, us);
      assert t == t[..n] + t[n..];
    }
  }

  lemma FirstNotZero(t: seq<Byte>)
    requires FormLength(t) > 0
    ensures t != [] && t[0] != 0
  {
  }

  lemma PackCons(u: Unit, us: seq<Unit>)
    ensures Pack([u] + us) == PackUnit(u) + Pack(us)
  {
    assert ([u] + us)[1..] == us;
  }

  /** Different unit sequences have different packed texts. */
  lemma PackInjective(us: seq<Unit>, vs: seq<Unit>)
    requires Pack(us) == Pack(vs)
    ensures us == vs
  {
    UnpackPack(us, []);
    UnpackPack(vs, []);
  }

  // ----- the loops -----

  lemma {:induction false} PackAppend(us: seq<Unit>, ch: Unit)
    ensures Pack(us + [ch]) == Pack(us) + PackUnit(ch)
  {
    if us != [] {
      PackAppend(us[1..], ch);
      assert (us + [ch])[1..] == us[1..] + [ch];
    } else {
      assert [ch][1..] == [];
    }
  }

  lemma PackStep(us: seq<Unit>, i: nat)
    requires i < |us|
    ensures Pack(us[..i + 1]) == Pack(us[..i]) + PackUnit(us[i]) && |PackUnit(us[i])| == UnitLength(us[i])
  {
    PackAppend(us[..i], us[i]);
    UnpackPackUnit(us[i], []);
    assert us[..i + 1] == us[..i] + [us[i]];
  }

  lemma {:induction false} PackPrefix(us: seq<Unit>, i: nat)
    requires i <= |us|
    ensures |Pack(us[..i])| <= |Pack(us)|
    decreases |us| - i
  {
    if i < |us| {
      PackStep(us, i);
      PackPrefix(us, i + 1);
    } else {
      assert us[..i] == us;
    }
  }

  /** `get_utf8_length_of_unicode`, whose result is cut to 16 bits. */
  method GetUtf8Length(unicode: seq<Unit>) returns (len: nat)
    ensures len == |Pack(unicode)| % 0x1_0000
  {
    var n := 0;
    for i := 0 to |unicode|
      invariant n == |Pack(unicode[..i])|
    {
      PackStep(unicode, i);
      var ch := unicode[i];
      if ch == 0 {
        n := n + 2;
      } else if ch < 0x80 {
        n := n + 1;
      } else if ch < 0x800 {
        n := n + 2;
      } else {
        n := n + 3;
      }
    }
    assert unicode[..|unicode|] == unicode;
    len := n % 0x1_0000;
  }

  /** `pack_utf8`: the packed units and a terminating zero byte. */
  method PackUtf8(buf: array<Byte>, unicode: seq<Unit>)
    requires |Pack(unicode)| < buf.Length
    modifies buf
    ensures buf[..|Pack(unicode)| + 1] == Pack(unicode) + [0]
  {
    hide Pack;
    var s := 0;
    assert Pack(unicode[..0]) == [] by { PackNothing(unicode); }
    for i := 0 to |unicode|
      invariant s == |Pack(unicode[..i])| < buf.Length && buf[..s] == Pack(unicode[..i])
    {
      PackStep(unicode, i);
      PackPrefix(unicode, i + 1);
      var ch := unicode[i];
      if ch == 0 {
        buf[s], buf[s + 1] := 0xc0, 0x80;
        s := s + 2;
      } else if ch < 0x80 {
        buf[s] := ch;
        s := s + 1;
      } else if ch < 0x800 {
        buf[s], buf[s + 1] := 0xc0 + ch / 0x40 % 0x20, 0x80 + ch % 0x40;
        s := s + 2;
      } else {
        buf[s], buf[s + 1], buf[s + 2] := 0xe0 + ch / 0x1000 % 0x10, 0x80 + ch / 0x40 % 0x40, 0x80 + ch % 0x40;
        s := s + 3;
      }
    }
    assert unicode[..|unicode|] == unicode;
    buf[s] := 0;
  }

  lemma PackNothing(us: seq<Unit>)
    ensures Pack(us[..0]) == []
  {
  }

  /** `get_unicode_length_of_utf8`, on a buffer that unpacks; the result is cut to 16 bits. */
  method GetUnicodeLength(utf8: seq<Byte>) returns (length: nat)
    requires Unpack(utf8).Some?
    ensures length == |Unpack(utf8).value| % 0x1_0000
  {
    var at, len := 0, 0;
    while utf8[at] != 0
      invariant at < |utf8| && Unpack(utf8[at..]).Some?
      invariant len + |Unpack(utf8[at..]).value| == |Unpack(utf8).value|
      decreases |utf8| - at
    {
      var ch: int := utf8[at];
      UnpackStep(utf8, at);
      at, len := at + 1, len + 1;
      if ch / 0x80 % 2 == 1 {
        if ch / 0x20 % 2 == 1 {
          at := at + 2;
        } else {
          at := at + 1;
        }
      }
    }
    length := len % 0x1_0000;
  }

  lemma UnpackStep(utf8: seq<Byte>, at: nat)
    requires at < |utf8| && utf8[at] != 0 && Unpack(utf8[at..]).Some?
    ensures UnpackUnit(utf8[at..]).Some?
    ensures var first := UnpackUnit(utf8[at..]).value;
            && at + first.1 < |utf8| && Unpack(utf8[at + first.1..]).Some?
            && Unpack(utf8[at..]).value == [first.0] + Unpack(utf8[at + first.1..]).value
  {
    var n := UnpackUnit(utf8[at..]).value.1;
    assert utf8[at..][n..] == utf8[at + n..];
  }

  /** `unpack_utf8`. */
  method UnpackUtf8(unicode: array<Unit>, utf8: seq<Byte>)
    requires Unpack(utf8).Some? && |Unpack(utf8).value| <= unicode.Length
    modifies unicode
    ensures unicode[..|Unpack(utf8).value|] == Unpack(utf8).value
  {
    hide Join2, Join3;
    var at, n := 0, 0;
    ghost var all := Unpack(utf8).value;
    while utf8[at] != 0
      invariant at < |utf8| && Unpack(utf8[at..]).Some? && n <= |all|
      invariant Unpack(utf8[at..]).value == all[n..] && unicode[..n] == all[..n]
      decreases |utf8| - at
    {
      UnpackStep(utf8, at);
      var ch: int := utf8[at];
      if ch / 0x80 % 2 == 1 {
        if ch / 0x20 % 2 == 1 {
          unicode[n] := Join3(ch, utf8[at + 1], utf8[at + 2]);
          at := at + 3;
        } else {
          unicode[n] := Join2(ch, utf8[at + 1]);
          at := at + 2;
        }
      } else {
        unicode[n] := ch;
        at := at + 1;
      }
      n := n + 1;
    }
  }
}
