/** Calls between compiled methods: the arguments a caller leaves on its operand stack become the
    callee's locals, and the callee's return takes them off again. */
module Calls {
  import opened Wrappers
  import opened Words
  import opened X86
  import opened CodeStream
  import opened Bytecode
  import opened Frame
  import opened Templates
  import opened FrameProofs
  import opened Placement
  import opened Reachability
  import opened Patching
  import opened Simulation
  import opened Correctness
  import opened Emitter
  import opened CodeGen
  import Descriptors
  import FieldLayout

  const POINTER_MASK: Word := 0x7fff_fffc

  /** The header of an object is the address of its class with three bits of its own: the Java and the lock bit
      below the address of a word, and the collector's above it. */
  predicate ClassHeader(h: Word, at: Word) {
    at % 4 == 0 && at < TWO_31 && (0 <= h - at < 4 || TWO_31 <= h - at < TWO_31 + 4)
  }

  lemma PeelBit(x: nat, y: nat, n: nat)
    requires n > 0 && y % 2 == 0
    ensures Bitwise(LogicAnd, x, y, n) == 2 * Bitwise(LogicAnd, x / 2, y / 2, n - 1)
  {
  }

  lemma Pow2Of29()
    ensures Pow2(29) == 0x2000_0000
  {
    assert Pow2(8) == 0x100;
    assert Pow2(16) == 0x1_0000;
    assert Pow2(24) == 0x100_0000;
  }

  /** The mask takes exactly the class out of a header. */
  lemma ClassOfHeader(h: Word, at: Word)
    ensures ClassHeader(h, at) <==> at == Logic(LogicAnd, h, POINTER_MASK)
  {
    hide Bitwise, Pow2;
    PeelBit(h, POINTER_MASK, 32);
    PeelBit(h / 2, POINTER_MASK / 2, 31);
    Pow2Of29();
    var q := LowBits(h / 2 / 2, 29, 30);
    assert Logic(LogicAnd, h, POINTER_MASK) == 4 * (h / 4 % 0x2000_0000);
  }

  // ----- the compile-time stack and the bytes of a call -----

  /** The operand words of a return type, told by the first character of its descriptor. */
  function ResultWords(result: char): (n: nat)
    ensures n <= 2
  {
    if FieldLayout.IsRef(result) then 1
    else if FieldLayout.TypeSize(result) == 8 then 2
    else if FieldLayout.TypeSize(result) != 0 then 1
    else 0
  }

  /** The result takes as many operand words as a parameter of its type would, and a void one none. */
  lemma ResultWidth(t: Descriptors.FieldType)
    requires Descriptors.ValidType(t)
    ensures Descriptors.Render(t) != "" && ResultWords(Descriptors.Render(t)[0]) == Descriptors.Width(t)
    ensures ResultWords('V') == 0
  {
  }

  /** Every return of the method leaves as many words. */
  ghost predicate ReturnsWords(m: Method, depths: map<nat, nat>, k: nat) {
    forall p :: p in depths && Parse(m.code, p).Some? && Parse(m.code, p).value.insn.ReturnWords? ==>
                  Parse(m.code, p).value.insn.count == k
  }

  lemma {:induction false} RunReturnsWords(m: Method, depths: map<nat, nat>, p: nat, v: Vars, n: nat, k: nat)
    requires Verified(m, depths) && Typed(m, depths, p, v) && ReturnsWords(m, depths, k)
    ensures var o := JavaRun(m, depths, p, v, n); o.Finished? ==> |o.words| == k
    decreases n
  {
    hide Parse, Verified, ReturnsWords;
    if n > 0 {
      TypedFits(m, depths, p, v);
      StepTyped(m, depths, p, v);
      ReturnCount(m, depths, p, v, k);
      match JavaStep(m, p, v)
      case Running(q, w) => RunReturnsWords(m, depths, q, w, n - 1, k);
      case _ =>
    }
  }

  lemma ReturnCount(m: Method, depths: map<nat, nat>, p: nat, v: Vars, k: nat)
    requires p in depths && Parse(m.code, p).Some? && Fits(m, Parse(m.code, p).value.insn, v)
    requires ReturnsWords(m, depths, k)
    ensures var o := JavaStep(m, p, v); o.Finished? ==> |o.words| == k
  {
    hide Parse;
  }

  function PushResult(k: nat): Code {
    if k == 0 then [] else if k == 1 then [PushR(Eax)] else [PushR(Edx), PushR(Eax)]
  }

  /** INVOKEVIRTUAL: the receiver's header leads to its class, the method's offset to the code. */
  function VirtualCall(m: Method, d: int, words: nat, offset: Int32, k: nat): Code {
    [MovRM(Eax, StackMem(m, d, words + 1)), MovRM(Eax, BaseDisp(Eax, 0)), AluRI(AndOp, Eax, POINTER_MASK),
     CallM(BaseDisp(Eax, offset))] + PushResult(k)
  }

  method EmitResult(buf: array<Byte>, at: nat, depth: int, result: char, ghost done: Code, ghost n: int)
    returns (r: nat, d: int)
    requires HasRoom(buf, at, done, n) && n >= 22
    modifies buf
    ensures HasRoom(buf, r, done + PushResult(ResultWords(result)), n - 12) && d == depth + ResultWords(result)
  {
    hide Holds, HasRoom, FieldLayout.TypeSize;
    r, d := at, depth;
    var bytes := FieldLayout.TypeSize(result);
    if FieldLayout.IsRef(result) {
      r, d := StackPushReg(buf, r, d, Eax, done, n);
      LessRoom(buf, r, done + [PushR(Eax)], n - 6, n - 12);
    } else if bytes != 0 {
      if bytes == 8 {
        r, d := StackPushReg(buf, r, d, Edx, done, n);
        r, d := StackPushReg(buf, r, d, Eax, done + [PushR(Edx)], n - 6);
        assert done + [PushR(Edx)] + [PushR(Eax)] == done + [PushR(Edx), PushR(Eax)];
      } else {
        r, d := StackPushReg(buf, r, d, Eax, done, n);
        LessRoom(buf, r, done + [PushR(Eax)], n - 6, n - 12);
      }
    } else {
      LessRoom(buf, r, done, n, n - 12);
      assert done + [] == done;
    }
  }

  /** From the receiver to the call; `words` is what the descriptor says. */
  method EmitReceiverCall(m: Method, locals: array<int>, stack: array<int>, buf: array<Byte>, at: nat,
                          words: nat, offset: nat, depth: nat, ghost done: Code)
    returns (r: nat)
    requires Tables(m, locals, stack) && buf as object != locals && buf as object != stack
    requires HasRoom(buf, at, done, 100) && offset < TWO_16 && words + 1 <= depth <= m.maxStack
    modifies buf
    ensures HasRoom(buf, r, done + VirtualCall(m, depth, words, offset, 0), 61)
  {
    hide Holds, HasRoom, Tables, StackMem;
    ghost var g := done;
    r := LoadStack(m, locals, stack, buf, at, depth, words + 1, Eax, g, 100);
    g := g + [MovRM(Eax, StackMem(m, depth, words + 1))];
    r := Mov(buf, r, MovRM(Eax, BaseDisp(Eax, 0)), g, 94);
    g := g + [MovRM(Eax, BaseDisp(Eax, 0))];
    r := BinAlu(buf, r, AluRI(AndOp, Eax, POINTER_MASK), g, 83);
    g := g + [AluRI(AndOp, Eax, POINTER_MASK)];
    r := Call(buf, r, CallM(BaseDisp(Eax, offset)), g, 72);
    g := g + [CallM(BaseDisp(Eax, offset))];
    assert g == done + VirtualCall(m, depth, words, offset, 0);
  }

  lemma CallWithResult(m: Method, d: int, words: nat, offset: Int32, k: nat)
    ensures VirtualCall(m, d, words, offset, k) == VirtualCall(m, d, words, offset, 0) + PushResult(k)
  {
    hide StackMem;
  }

  /** The case of INVOKEVIRTUAL: the words of the descriptor and the receiver leave the compile-time
      stack, the result enters it. */
  method EmitInvokeVirtual(m: Method, locals: array<int>, stack: array<int>, buf: array<Byte>, at: nat,
                           descriptor: string, offset: nat, depth: nat, ghost done: Code)
    returns (r: nat, d: int)
    requires Tables(m, locals, stack) && buf as object != locals && buf as object != stack
    requires HasRoom(buf, at, done, 100) && offset < TWO_16 && descriptor != ""
    requires Descriptors.Scan(descriptor, 1).Parsed?
    requires Descriptors.ArgWords(descriptor, false) <= depth <= m.maxStack
    modifies buf
    ensures Descriptors.Scan(descriptor, 1).at <= |descriptor|
    ensures var s := Descriptors.Scan(descriptor, 1);
            var k := ResultWords(Descriptors.At(descriptor, s.at));
            && HasRoom(buf, r, done + VirtualCall(m, depth, s.words, offset, k), 49)
            && d == depth - Descriptors.ArgWords(descriptor, false) + k
  {
    hide Holds, HasRoom, Descriptors.Scan, Tables, ResultWords, PushResult, VirtualCall;
    var ok, words, result := Descriptors.GetParamInfo(descriptor);
    ghost var g := done + VirtualCall(m, depth, words, offset, 0);
    r := EmitReceiverCall(m, locals, stack, buf, at, words, offset, depth, done);
    r, d := EmitResult(buf, r, depth - (words + 1), result, g, 61);
    CallWithResult(m, depth, words, offset, ResultWords(result));
    assert g + PushResult(ResultWords(result)) == done + VirtualCall(m, depth, words, offset, ResultWords(result));
  }

  // ----- balance -----

  /** The words of the descriptor and the receiver are what the caller takes off its compile-time stack
      and what the operand of the callee's return removes, in bytes. */
  lemma CallBalanced(m: Method, params: seq<Descriptors.FieldType>, result: string, isStatic: bool)
    requires (forall t :: t in params ==> Descriptors.ValidType(t)) && result != "" && m.argWords < 0x100
    ensures var d := Descriptors.Descriptor(params, result);
            var drop := Descriptors.Words(params) + if isStatic then 0 else 1;
            && (HasSignature(m, d, isStatic) <==> m.argWords == drop)
            && Descriptors.Scan(d, 1).Parsed? && Descriptors.ArgWords(d, isStatic) == drop
            && Descriptors.Scan(d, 1).at <= |d|
            && ResultWords(Descriptors.At(d, Descriptors.Scan(d, 1).at)) == ResultWords(result[0])
            && (HasSignature(m, d, isStatic) ==> Epilog(m)[2] == if drop == 0 then Ret else RetI(4 * drop))
  {
    hide Descriptors.Scan, ResultWords;
    Descriptors.DescriptorRead(params, result);
  }

  /** The machine at the entry of a callee: the call has pushed its return address. */
  function Entered(c: Cpu, ra: Word): Cpu
    requires c.esp >= 4
  {
    c.(esp := c.esp - 4, mem := c.mem[c.esp - 4 := ra])
  }

  /** A call from a frame whose operand stack holds the arguments. */
  ghost predicate AtCall(e: Env, v: Vars, c: Cpu, ra: Word, callee: Method) {
    && e.Valid() && Repr(e, v, c) && callee.argWords <= |v.stack|
    && c.esp >= 4 && c.Mapped(c.esp - 4) && Called(callee, Entered(c, ra))
  }

  /** The callee's first locals are the caller's topmost operands, in order: the receiver, where there
      is one, is local 0. */
  lemma ArgumentsArrive(e: Env, v: Vars, c: Cpu, ra: Word, callee: Method)
    requires AtCall(e, v, c, ra, callee)
    ensures callee.argWords <= |EntryVars(callee, Entered(c, ra)).locals|
    ensures EntryVars(callee, Entered(c, ra)).locals[..callee.argWords] == v.stack[|v.stack| - callee.argWords..]
  {
    var n := |v.stack| - callee.argWords;
    var b := Entered(c, ra);
    forall i | 0 <= i < callee.argWords ensures EntryVars(callee, b).locals[i] == v.stack[n + i] {
      assert EntryVars(callee, b).locals[i] == EntryLocal(callee, b, i);
      assert b.esp + 4 * (callee.argWords - i) == e.StackAddr(n + i);
    }
  }

  /** The caller's frame as it was, above the memory the callee may have used. */
  ghost function FrameAfter(e: Env, r: Cpu): (f: Env)
    ensures f.m == e.m && f.ebp == e.ebp && f.kept == e.kept && f.mem0.Keys == e.mem0.Keys
    ensures forall a :: a in e.mem0 && a >= e.Low() ==> f.mem0[a] == e.mem0[a]
  {
    e.(mem0 := map a | a in e.mem0 :: if a < e.Low() && a in r.mem then r.mem[a] else e.mem0[a])
  }

  /** The machine behind the return: the caller's stack pointer above the arguments, and the words from
      there on as before the call. */
  lemma ReturnedAbove(e: Env, v: Vars, c: Cpu, ra: Word, callee: Method, words: seq<Word>, r: Cpu)
    requires AtCall(e, v, c, ra, callee) && ReturnsTo(callee, Entered(c, ra), words, r)
    ensures r.mem.Keys == c.mem.Keys && r.ebp == c.ebp && KeptOf(r) == KeptOf(c)
    ensures r.esp == c.esp + 4 * callee.argWords == e.ebp + FrameSize(e.m) - 4 * (|v.stack| - callee.argWords)
    ensures forall a :: a in c.mem && a >= r.esp ==> r.mem[a] == c.mem[a]
  {
    hide Called;
    var b := Entered(c, ra);
    forall a | a in c.mem && a >= c.esp + 4 * callee.argWords ensures r.mem[a] == c.mem[a] {
      assert b.mem[a] == c.mem[a];
    }
  }

  /** A frame whose topmost operands are dropped, and whose memory above them is kept. */
  lemma FrameKept(e: Env, v: Vars, c: Cpu, n: nat, r: Cpu)
    requires e.Valid() && Repr(e, v, c) && n <= |v.stack|
    requires r.mem.Keys == c.mem.Keys && r.ebp == c.ebp && KeptOf(r) == KeptOf(c)
    requires r.esp == e.ebp + FrameSize(e.m) - 4 * (|v.stack| - n)
    requires forall a :: a in c.mem && a >= r.esp ==> r.mem[a] == c.mem[a]
    ensures FrameAfter(e, r).Valid() && Repr(FrameAfter(e, r), v.(stack := v.stack[..|v.stack| - n]), r)
  {
    var e' := FrameAfter(e, r);
    forall i | 0 <= i < |v.locals| ensures e'.LocalAddr(i) in r.mem && r.mem[e'.LocalAddr(i)] == v.locals[i] {
      assert e.LocalAddr(i) >= e.ebp + FrameSize(e.m);
    }
    forall k | 0 <= k < |v.stack| - n ensures e'.StackAddr(k) in r.mem && r.mem[e'.StackAddr(k)] == v.stack[k] {
      assert e.StackAddr(k) >= r.esp;
    }
    forall a | a in e'.mem0 && !e'.Owned(a) ensures r.mem[a] == e'.mem0[a] {
      assert !e.Owned(a) && (a >= e.Low() ==> a >= e.ebp + FrameSize(e.m));
    }
  }

  /** A callee that returned has taken exactly its arguments off the caller's operand stack. */
  lemma ArgumentsDropped(e: Env, v: Vars, c: Cpu, ra: Word, callee: Method, words: seq<Word>, r: Cpu)
    requires AtCall(e, v, c, ra, callee) && ReturnsTo(callee, Entered(c, ra), words, r)
    ensures FrameAfter(e, r).Valid()
    ensures Repr(FrameAfter(e, r), v.(stack := v.stack[..|v.stack| - callee.argWords]), r)
  {
    hide Repr, Called, ReturnsTo, FrameAfter;
    ReturnedAbove(e, v, c, ra, callee, words, r);
    FrameKept(e, v, c, callee.argWords, r);
  }

  /** Behind the call the pushes of the result complete the caller's operand stack. */
  lemma ResultPushed(e: Env, v: Vars, c: Cpu, words: seq<Word>) returns (d: Cpu)
    requires e.Valid() && Repr(e, v, c) && |words| <= 2 && |v.stack| + |words| <= e.m.maxStack
    requires |words| >= 1 ==> c.eax == words[|words| - 1]
    requires |words| >= 2 ==> c.edx == words[|words| - 2]
    ensures RunBlock(PushResult(|words|), c) == Some(d) && Repr(e, v.(stack := v.stack + words), d)
  {
    hide Repr, RunBlock;
    var cur := Begin(e, v, c);
    if |words| == 0 {
      assert v.stack + words == v.stack;
    } else if |words| == 1 {
      cur := DoPush(e, c, cur, Eax);
      assert cur.done == PushResult(1) && v.stack + words == v.stack + [c.eax];
    } else {
      cur := DoPush(e, c, cur, Edx);
      cur := DoPush(e, c, cur, Eax);
      assert cur.done == PushResult(2) && v.stack + words == v.stack + [c.edx] + [c.eax];
    }
    d := cur.c;
  }

  /** Conservation across a call: whatever the callee did, its arguments are gone and its result is
      there, and the rest of the caller's frame is as before. */
  lemma CallReturns(e: Env, v: Vars, c: Cpu, ra: Word, callee: Method, words: seq<Word>, r: Cpu) returns (d: Cpu)
    requires AtCall(e, v, c, ra, callee) && ReturnsTo(callee, Entered(c, ra), words, r)
    requires |words| <= 2 && |v.stack| - callee.argWords + |words| <= e.m.maxStack
    ensures RunBlock(PushResult(|words|), r) == Some(d)
    ensures FrameAfter(e, r).Valid()
    ensures Repr(FrameAfter(e, r), v.(stack := v.stack[..|v.stack| - callee.argWords] + words), d)
  {
    hide Repr, RunBlock, FrameAfter, PushResult;
    ArgumentsDropped(e, v, c, ra, callee, words, r);
    d := ResultPushed(FrameAfter(e, r), v.(stack := v.stack[..|v.stack| - callee.argWords]), r, words);
  }

  /** A call of a compiled method: its bytes run from the first one, on the words the caller pushed,
      come back to the return address, and the caller goes on with the words of the descriptor and
      the receiver replaced by what the bytecode returns. */
  lemma CompiledCall(e: Env, v: Vars, c: Cpu, ra: Word, callee: Method, descriptor: string, isStatic: bool,
                     depths: map<nat, nat>, tail: seq<Byte>, steps: nat)
    returns (n: nat, r: Cpu, d: Cpu)
    requires AtCall(e, v, c, ra, callee) && HasSignature(callee, descriptor, isStatic)
    requires Verified(callee, depths) && Compiled(callee, depths)
    requires Typed(callee, depths, 0, EntryVars(callee, Entered(c, ra)))
    requires ExactRun(callee, depths, 0, EntryVars(callee, Entered(c, ra)), steps)
    requires var o := JavaRun(callee, depths, 0, EntryVars(callee, Entered(c, ra)), steps);
             && o.Finished? && |o.words| <= 2
             && |v.stack| - Descriptors.ArgWords(descriptor, isStatic) + |o.words| <= e.m.maxStack
    ensures var o := JavaRun(callee, depths, 0, EntryVars(callee, Entered(c, ra)), steps);
            && Run(Bytes(callee, depths, tail), At(0), Entered(c, ra), n) == Some((Returned(ra), r))
            && RunBlock(PushResult(|o.words|), r) == Some(d)
            && Descriptors.ArgWords(descriptor, isStatic) <= |v.stack|
            && Repr(FrameAfter(e, r),
                    v.(stack := v.stack[..|v.stack| - Descriptors.ArgWords(descriptor, isStatic)] + o.words), d)
  {
    hide BodyPlan, Parse, FinalCode, Repr, Run, RunBlock, Verified, Compiled, Bytes, Called, ReturnsTo, JavaRun,
         ExactRun, EntryVars, FrameAfter, PushResult, Descriptors.Scan, Typed;
    n, r := MethodReturns(callee, depths, tail, Entered(c, ra), steps);
    var words := JavaRun(callee, depths, 0, EntryVars(callee, Entered(c, ra)), steps).words;
    d := CallReturns(e, v, c, ra, callee, words, r);
  }

  /** The pushes behind a call are those for what the callee returns, where its returns leave the words its
      descriptor tells. */
  lemma ResultMatches(m: Method, d: int, offset: Int32, callee: Method, descriptor: string, depths: map<nat, nat>,
                      v: Vars, steps: nat)
    requires Verified(callee, depths) && Typed(callee, depths, 0, v) && Descriptors.Scan(descriptor, 1).Parsed?
    requires Descriptors.Scan(descriptor, 1).at <= |descriptor|
    requires var s := Descriptors.Scan(descriptor, 1);
             ReturnsWords(callee, depths, ResultWords(Descriptors.At(descriptor, s.at)))
    requires JavaRun(callee, depths, 0, v, steps).Finished?
    ensures var s, o := Descriptors.Scan(descriptor, 1), JavaRun(callee, depths, 0, v, steps);
            VirtualCall(m, d, s.words, offset, ResultWords(Descriptors.At(descriptor, s.at)))[4..] ==
            PushResult(|o.words|)
  {
    hide Verified, Typed, JavaRun, ReturnsWords, PushResult, ResultWords, Descriptors.Scan;
    var s := Descriptors.Scan(descriptor, 1);
    RunReturnsWords(callee, depths, 0, v, steps, ResultWords(Descriptors.At(descriptor, s.at)));
  }

  lemma AndValue(a: Word, b: Word, carry: bool)
    ensures Alu(AndOp, a, b, carry).value == Logic(LogicAnd, a, b)
  {
    hide Logic;
  }

  /** The code in front of a virtual call finds the receiver below the words of the descriptor, which
      is where the callee finds its local 0, and its class pointer. */
  lemma VirtualCallReaches(e: Env, v: Vars, c: Cpu, words: nat, offset: Int32, k: nat) returns (d: Cpu)
    requires e.Valid() && Repr(e, v, c) && words + 1 <= |v.stack|
    requires c.Mapped(v.stack[|v.stack| - (words + 1)])
    ensures RunBlock(VirtualCall(e.m, |v.stack|, words, offset, k)[..3], c) == Some(d) && Repr(e, v, d)
    ensures ClassHeader(c.mem[v.stack[|v.stack| - (words + 1)]], d.eax) && d.mem == c.mem
  {
    hide Repr, RunBlock, Alu, StackMem, Logic;
    var cur := Begin(e, v, c);
    cur := DoLoadStack(e, c, cur, Eax, words + 1);
    var obj := v.stack[|v.stack| - (words + 1)];
    assert cur.c.mem == c.mem && cur.c.Address(BaseDisp(Eax, 0)) == obj;
    cur := DoScratch(e, c, cur, MovRM(Eax, BaseDisp(Eax, 0)), cur.c.(eax := c.mem[obj]));
    cur := DoAluRI(e, c, cur, AndOp, Eax, POINTER_MASK);
    AndValue(c.mem[obj], POINTER_MASK, c.cf);
    ClassOfHeader(c.mem[obj], cur.c.eax);
    assert cur.done == VirtualCall(e.m, |v.stack|, words, offset, k)[..3];
    d := cur.c;
  }
}
