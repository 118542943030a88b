/** Streams of encoded instructions, the byte offsets of their elements, and the machine running
    on the bytes. */
module CodeStream {
  import opened Wrappers
  import opened Words
  import opened X86
  import opened Encoding

  type EncInstr = i: Instr | Encodable(i) witness Cdq
  type Code = seq<EncInstr>

  function EncodeAll(l: Code): seq<Byte> {
    if l == [] then [] else EncodeAll(l[..|l| - 1]) + Encode(l[|l| - 1])
  }

  /** The byte offset at which instruction `k` of the stream starts. */
  function Offset(l: Code, k: int): (n: nat)
    requires 0 <= k <= |l|
  {
    if k == 0 then 0 else Offset(l, k - 1) + |Encode(l[k - 1])|
  }

  lemma EncodeAllSnoc(l: Code, i: EncInstr)
    ensures EncodeAll(l + [i]) == EncodeAll(l) + Encode(i)
  {
    assert (l + [i])[..|l + [i]| - 1] == l;
  }

  lemma {:induction false} OffsetPrefix(l: Code, m: Code, k: int)
    requires 0 <= k <= |l| && l <= m
    ensures Offset(l, k) == Offset(m, k)
  {
    hide Encode, Encodable;
    if k > 0 {
      OffsetPrefix(l, m, k - 1);
    }
  }

  lemma {:induction false} OffsetMono(l: Code, j: int, k: int)
    requires 0 <= j <= k <= |l|
    ensures Offset(l, j) + (k - j) <= Offset(l, k)
  {
    hide Encode, Encodable;
    if j < k {
      OffsetMono(l, j, k - 1);
    }
  }

  lemma {:induction false} EncodeAllLength(l: Code)
    ensures |EncodeAll(l)| == Offset(l, |l|)
  {
    hide Encode, Encodable;
    if l != [] {
      var init := l[..|l| - 1];
      EncodeAllLength(init);
      OffsetPrefix(init, l, |init|);
    }
  }

  lemma OffsetSnoc(l: Code, i: EncInstr)
    ensures Offset(l + [i], |l| + 1) == Offset(l, |l|) + |Encode(i)|
  {
    OffsetPrefix(l, l + [i], |l|);
  }

  lemma {:induction false} EncodeAllPrefix(l: Code, k: int)
    requires 0 <= k <= |l|
    ensures Offset(l, k) <= |EncodeAll(l)|
    ensures EncodeAll(l)[..Offset(l, k)] == EncodeAll(l[..k])
  {
    hide Encode, Encodable;
    EncodeAllLength(l);
    OffsetMono(l, k, |l|);
    if k < |l| {
      var init := l[..|l| - 1];
      EncodeAllPrefix(init, k);
      OffsetPrefix(init, l, k);
      assert init[..k] == l[..k];
      EncodeAllLength(init);
      OffsetPrefix(init, l, |init|);
      OffsetMono(l, k, |init|);
      assert EncodeAll(l)[..Offset(l, k)] == EncodeAll(init)[..Offset(l, k)];
    } else {
      assert l[..k] == l;
    }
  }

  lemma {:induction false} EncodeAllAppend(l: Code, m: Code)
    ensures EncodeAll(l + m) == EncodeAll(l) + EncodeAll(m)
  {
    hide Encode, Encodable, EncodeAll;
    if m == [] {
      assert l + m == l && EncodeAll(m) == [] by { EncodeNothing(); }
    } else {
      var init, last := m[..|m| - 1], m[|m| - 1];
      EncodeAllAppend(l, init);
      EncodeAllSnoc(l + init, last);
      EncodeAllSnoc(init, last);
      assert m == init + [last] && l + m == l + init + [last];
    }
  }

  lemma EncodeNothing()
    ensures EncodeAll([]) == []
  {
  }

  /** The bytes from instruction `k` on start with the encoding of instruction `k`. */
  lemma EncodeAllAt(l: Code, k: int)
    requires 0 <= k < |l|
    ensures Offset(l, k + 1) == Offset(l, k) + |Encode(l[k])| <= |EncodeAll(l)|
    ensures EncodeAll(l)[Offset(l, k)..] == Encode(l[k]) + EncodeAll(l)[Offset(l, k + 1)..]
  {
    hide Encode, Encodable, Decode;
    EncodeAllPrefix(l, k);
    EncodeAllPrefix(l, k + 1);
    assert l[..k + 1] == l[..k] + [l[k]];
    EncodeAllSnoc(l[..k], l[k]);
    var b := EncodeAll(l);
    assert b[..Offset(l, k + 1)] == b[..Offset(l, k)] + Encode(l[k]);
    assert b == b[..Offset(l, k + 1)] + b[Offset(l, k + 1)..];
  }

  /** Whatever was emitted decodes to the instruction emitted, at its offset. */
  lemma DecodeStream(l: Code, k: int, tail: seq<Byte>)
    requires 0 <= k < |l|
    ensures Offset(l, k) <= |EncodeAll(l)|
    ensures Decode((EncodeAll(l) + tail)[Offset(l, k)..]) == Some((l[k], |Encode(l[k])|))
    ensures Offset(l, k + 1) == Offset(l, k) + |Encode(l[k])|
  {
    hide Encode, Encodable, Decode;
    EncodeAllAt(l, k);
    var rest := EncodeAll(l)[Offset(l, k + 1)..] + tail;
    DecodeEncode(l[k], rest);
    assert (EncodeAll(l) + tail)[Offset(l, k)..] == Encode(l[k]) + rest;
  }

  // ----- replacing an instruction by one of the same length -----

  lemma {:induction false} OffsetUpdate(l: Code, k: int, i: EncInstr, n: int)
    requires 0 <= k < |l| && |Encode(i)| == |Encode(l[k])| && 0 <= n <= |l|
    ensures Offset(l[k := i], n) == Offset(l, n)
  {
    hide Encode, Encodable, Decode;
    if n > 0 {
      OffsetUpdate(l, k, i, n - 1);
    }
  }

  lemma EncodeAllUpdate(l: Code, k: int, i: EncInstr)
    requires 0 <= k < |l| && |Encode(i)| == |Encode(l[k])|
    ensures Offset(l, k) + |Encode(i)| <= |EncodeAll(l)|
    ensures EncodeAll(l[k := i]) == EncodeAll(l)[..Offset(l, k)] + Encode(i) + EncodeAll(l)[Offset(l, k + 1)..]
  {
    hide Encode, Encodable, Decode;
    EncodeAllAt(l, k);
    EncodeAllPrefix(l, k);
    assert l == l[..k] + [l[k]] + l[k + 1..];
    assert l[k := i] == l[..k] + [i] + l[k + 1..];
    EncodeAllAppend(l[..k] + [l[k]], l[k + 1..]);
    EncodeAllAppend(l[..k] + [i], l[k + 1..]);
    EncodeAllSnoc(l[..k], l[k]);
    EncodeAllSnoc(l[..k], i);
  }

  // ----- the machine on bytes -----

  function Step(code: seq<Byte>, at: int, c: Cpu): Option<(Target, Cpu)> {
    if !(0 <= at <= |code|) then None else
    match Decode(code[at..])
    case None => None
    case Some((i, n)) =>
      (match Exec(i, c)
       case Some(d) => Some((At(at + n), d))
       case None => Transfer(i, at + n, c))
  }

  function Run(code: seq<Byte>, t: Target, c: Cpu, n: nat): Option<(Target, Cpu)>
    decreases n
  {
    if n == 0 then Some((t, c)) else
    match t
    case Returned(_) => None
    case At(a) =>
      match Step(code, a, c)
      case None => None
      case Some((u, d)) => Run(code, u, d, n - 1)
  }

  lemma {:induction false} RunCompose(code: seq<Byte>, t: Target, c: Cpu, n: nat, m: nat)
    requires Run(code, t, c, n).Some?
    decreases n
    ensures Run(code, t, c, n + m) ==
            var (u, d) := Run(code, t, c, n).value; Run(code, u, d, m)
  {
    hide Step;
    if n > 0 {
      var (u, d) := Step(code, t.offset, c).value;
      RunCompose(code, u, d, n - 1, m);
    }
  }

  lemma RunTwo(code: seq<Byte>, t: Target, c: Cpu, n: nat, u: Target, d: Cpu, k: nat, x: Target, f: Cpu)
    requires Run(code, t, c, n) == Some((u, d)) && Run(code, u, d, k) == Some((x, f))
    ensures Run(code, t, c, n + k) == Some((x, f))
  {
    hide Run;
    RunCompose(code, t, c, n, k);
  }

  /** Instruction `k` of the stream, executed by the machine at its byte offset. */
  lemma StepAt(l: Code, tail: seq<Byte>, k: int, c: Cpu)
    requires 0 <= k < |l|
    ensures Step(EncodeAll(l) + tail, Offset(l, k), c) ==
            match Exec(l[k], c)
            case Some(d) => Some((At(Offset(l, k + 1)), d))
            case None => Transfer(l[k], Offset(l, k + 1), c)
  {
    hide Encode, Encodable, Decode, Exec, Transfer;
    DecodeStream(l, k, tail);
  }

  lemma RunOne(code: seq<Byte>, at: int, c: Cpu)
    ensures Run(code, At(at), c, 1) == Step(code, at, c)
  {
    hide Step;
    match Step(code, at, c)
    case None =>
    case Some((u, d)) => assert Run(code, u, d, 0) == Some((u, d));
  }

  /** A block of the stream runs as the block alone runs. */
  lemma {:induction false} RunBlockAt(l: Code, tail: seq<Byte>, k: int, block: Code, c: Cpu)
    requires 0 <= k && k + |block| <= |l| && l[k..k + |block|] == block
    requires RunBlock(block, c).Some?
    ensures Run(EncodeAll(l) + tail, At(Offset(l, k)), c, |block|) ==
            Some((At(Offset(l, k + |block|)), RunBlock(block, c).value))
    decreases |block|
  {
    hide Encode, Encodable, Step, Exec, Transfer;
    if block != [] {
      assert l[k] == block[0];
      StepAt(l, tail, k, c);
      assert l[k + 1..k + 1 + |block[1..]|] == block[1..];
      RunBlockAt(l, tail, k + 1, block[1..], Exec(block[0], c).value);
    }
  }

  /** Instructions that never leave the straight line. */
  predicate Straight(i: EncInstr) {
    !(i.JmpRel? || i.JmpShort? || i.JccRel? || i.JccShort? || i.Ret? || i.RetI?)
  }

  /** A block of the stream that faults stops the machine inside it. */
  lemma {:induction false} FaultAt(l: Code, tail: seq<Byte>, k: int, block: Code, c: Cpu)
    requires 0 <= k && k + |block| <= |l| && l[k..k + |block|] == block
    requires RunBlock(block, c).None? && forall j :: 0 <= j < |block| ==> Straight(block[j])
    ensures Run(EncodeAll(l) + tail, At(Offset(l, k)), c, |block|).None?
    decreases |block|
  {
    hide Encode, Encodable, Step, Exec;
    assert block != [] && l[k] == block[0];
    StepAt(l, tail, k, c);
    if Exec(block[0], c).Some? {
      assert l[k + 1..k + 1 + |block[1..]|] == block[1..];
      FaultAt(l, tail, k + 1, block[1..], Exec(block[0], c).value);
    } else {
      assert Transfer(block[0], Offset(l, k + 1), c) == None;
    }
  }
}
