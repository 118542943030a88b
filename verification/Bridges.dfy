/** The bridges between native and compiled code: pushing any number of arguments for a compiled
    method, and handing a compiled caller's arguments to a native function in reverse order. */
module Bridges {
  import opened Wrappers
  import opened Words
  import opened X86
  import opened Encoding
  import opened CodeStream

  // ----- from native code: the push loop -----

  /** or ecx, ecx; je behind; push [eax]; dec ecx; add eax, 4; jmp back. */
  const PUSH_LOOP: Code := [
    AluRR(OrOp, Ecx, Ecx), JccShort(CcEq, 11),
    PushM(BaseDisp(Eax, 0)), DecR(Ecx), AluRI(Add, Eax, 4), JmpShort(-15)]

  const SAVE: Code := [
    PushR(Ebp), MovRR(Ebp, Esp), PushR(Ebx), PushR(Esi), PushR(Edi),
    MovRM(Ecx, BaseDisp(Ebp, 8)), MovRM(Eax, BaseDisp(Ebp, 12))]

  const STORE_RESULT: Code := [
    MovRM(Ecx, BaseDisp(Ebp, 24)), MovMR(BaseDisp(Ecx, 0), Eax),
    MovRM(Ecx, BaseDisp(Ebp, 28)), MovMR(BaseDisp(Ecx, 0), Edx)]

  /** What follows the loop: the call, both result words, the test for an exception, and the return. */
  function AfterLoop(lastException: Int32): Code {
    [CallM(BaseDisp(Ebp, 16))] + STORE_RESULT
    + [CallRel(lastException), AluRR(OrOp, Eax, Eax), JccShort(CcEq, 3), AluRM(Add, Esp, BaseDisp(Ebp, 20)),
       PopR(Edi), PopR(Esi), PopR(Ebx), PopR(Ebp), Ret]
  }

  function NativeToJava(lastException: Int32): Code {
    SAVE + PUSH_LOOP + AfterLoop(lastException)
  }

  /** The address of word `i` above, and of the word pushed as number `i` below, an address. */
  function Above(a: int, i: int): int {
    a + 4 * i
  }

  function Below(a: int, i: int): int {
    a - 4 * (i + 1)
  }

  /** The words lie in memory from `a` on. */
  ghost predicate WordsAt(mem: map<int, Word>, a: int, ws: seq<Word>) {
    a % 4 == 0 && forall i :: 0 <= i < |ws| ==> Above(a, i) in mem && mem[Above(a, i)] == ws[i]
  }

  /** The `n` words below `sp` are mapped. */
  ghost predicate StackBelow(mem: map<int, Word>, sp: int, n: nat) {
    forall i :: 0 <= i < n ==> Below(sp, i) in mem
  }

  /** The words lie in memory as pushed in order from `sp` on. */
  ghost predicate WordsBelow(mem: map<int, Word>, sp: int, ws: seq<Word>) {
    forall i :: 0 <= i < |ws| ==> Below(sp, i) in mem && mem[Below(sp, i)] == ws[i]
  }

  /** There is stack for `n` more words, away from the `n` words at `p`. */
  ghost predicate RoomToPush(c: Cpu, p: int, n: nat) {
    && c.esp % 4 == 0 && 0 <= c.esp - 4 * n && p + 4 * n <= TWO_32
    && StackBelow(c.mem, c.esp, n)
    && (p + 4 * n <= c.esp - 4 * n || c.esp <= p)
  }

  /** What pushing the words leaves: they lie below the old top in order, nothing else changed. */
  ghost predicate Pushed(c: Cpu, ws: seq<Word>, d: Cpu) {
    && d.esp == c.esp - 4 * |ws| && d.mem.Keys == c.mem.Keys
    && WordsBelow(d.mem, c.esp, ws)
    && (forall a :: a in c.mem && !(d.esp <= a < c.esp) ==> d.mem[a] == c.mem[a])
    && d.ebp == c.ebp && d.ebx == c.ebx && d.esi == c.esi && d.edi == c.edi && d.edx == c.edx
  }

  lemma OrSelf(w: Word)
    ensures Logic(LogicOr, w, w) == w
  {
    LogicSelf(w);
  }

  lemma OrTest(c: Cpu) returns (d: Cpu)
    ensures Exec(AluRR(OrOp, Ecx, Ecx), c) == Some(d)
    ensures d == c.(zf := c.ecx == 0, sf := c.ecx >= TWO_31, of := false, cf := false)
  {
    OrSelf(c.ecx);
    d := Exec(AluRR(OrOp, Ecx, Ecx), c).value;
  }

  lemma JumpIfZero(c: Cpu, next: int)
    ensures Exec(JccShort(CcEq, 11), c) == None
    ensures Transfer(JccShort(CcEq, 11), next, c) == Some((At(if c.zf then next + 11 else next), c))
  {
  }

  lemma JumpBack(c: Cpu, next: int)
    ensures Exec(JmpShort(-15), c) == None && Transfer(JmpShort(-15), next, c) == Some((At(next - 15), c))
  {
  }

  lemma LoopEncodes()
    ensures |Encode(PUSH_LOOP[0])| == 2 && |Encode(PUSH_LOOP[1])| == 2 && |Encode(PUSH_LOOP[2])| == 3
    ensures |Encode(PUSH_LOOP[3])| == 1 && |Encode(PUSH_LOOP[4])| == 5 && |Encode(PUSH_LOOP[5])| == 2
  {
  }

  lemma LoopSizes(l: Code, k: int)
    requires 0 <= k && k + 6 <= |l| && l[k..k + 6] == PUSH_LOOP
    ensures Offset(l, k + 2) == Offset(l, k) + 4 && Offset(l, k + 5) == Offset(l, k) + 13
    ensures Offset(l, k + 6) == Offset(l, k) + 15
    ensures forall j :: 0 <= j < 6 ==> l[k + j] == PUSH_LOOP[j]
  {
    hide Encode;
    forall j | 0 <= j < 6 ensures l[k + j] == PUSH_LOOP[j] {
      assert l[k..k + 6][j] == l[k + j];
    }
    LoopEncodes();
    assert Offset(l, k + 1) == Offset(l, k) + 2 && Offset(l, k + 2) == Offset(l, k + 1) + 2;
    assert Offset(l, k + 3) == Offset(l, k + 2) + 3 && Offset(l, k + 4) == Offset(l, k + 3) + 1;
    assert Offset(l, k + 5) == Offset(l, k + 4) + 5 && Offset(l, k + 6) == Offset(l, k + 5) + 2;
  }

  /** The machine after one turn of the loop that pushes a word. */
  function AfterTurn(c: Cpu, w: Word): Cpu
    requires c.esp >= 4
  {
    var f := Alu(Add, c.eax, 4, false);
    WithFlags(c, f).(eax := f.value, ecx := Wrap(c.ecx - 1), esp := c.esp - 4, mem := c.mem[c.esp - 4 := w])
  }

  lemma PushWordRuns(c: Cpu)
    requires c.esp >= 4 && c.Mapped(c.esp - 4) && c.Mapped(c.eax)
    ensures Exec(PushM(BaseDisp(Eax, 0)), c) == Some(c.(esp := c.esp - 4, mem := c.mem[c.esp - 4 := c.mem[c.eax]]))
  {
  }

  lemma CountRuns(c: Cpu)
    ensures Exec(DecR(Ecx), c) ==
            Some(c.(ecx := Wrap(c.ecx - 1), zf := Wrap(c.ecx - 1) == 0, sf := Wrap(c.ecx - 1) >= TWO_31,
                    of := OutOfRange(Signed(c.ecx) - Signed(1))))
  {
  }

  lemma AdvanceRuns(c: Cpu)
    ensures var f := Alu(Add, c.eax, 4, c.cf); Exec(AluRI(Add, Eax, 4), c) == Some(WithFlags(c, f).(eax := f.value))
  {
  }

  lemma PushBlock(c: Cpu, w: Word) returns (d: Cpu)
    requires c.esp >= 4 && c.Mapped(c.esp - 4) && c.Mapped(c.eax) && c.mem[c.eax] == w && c.ecx > 0
    ensures RunBlock(PUSH_LOOP[2..5], c) == Some(AfterTurn(c, w))
  {
    hide Logic, Exec, Encodable;
    var push, dec, add := PushM(BaseDisp(Eax, 0)), DecR(Ecx), AluRI(Add, Eax, 4);
    assert PUSH_LOOP[2..5] == [] + [push] + [dec] + [add];
    PushWordRuns(c);
    var c1 := Exec(push, c).value;
    CountRuns(c1);
    var c2 := Exec(dec, c1).value;
    AdvanceRuns(c2);
    d := Exec(add, c2).value;
    assert RunBlock([], c) == Some(c);
    RunBlockSnoc([], push, c);
    RunBlockSnoc([] + [push], dec, c);
    RunBlockSnoc([] + [push] + [dec], add, c);
    assert d == AfterTurn(c, w);
  }

  /** The loop's test: behind the loop with no word left, else on to the push. */
  lemma LoopTest(l: Code, tail: seq<Byte>, k: int, c: Cpu) returns (d: Cpu)
    requires 0 <= k && k + 6 <= |l| && l[k..k + 6] == PUSH_LOOP
    ensures d == c.(zf := c.ecx == 0, sf := c.ecx >= TWO_31, of := false, cf := false)
    ensures Run(EncodeAll(l) + tail, At(Offset(l, k)), c, 2) ==
            Some((At(Offset(l, if c.ecx == 0 then k + 6 else k + 2)), d))
  {
    hide Offset, EncodeAll, Step, Run, Encode, Decode, Exec, Transfer, Encodable;
    LoopSizes(l, k);
    d := OrTest(c);
    JumpIfZero(d, Offset(l, k + 2));
    var code := EncodeAll(l) + tail;
    assert l[k + 0] == PUSH_LOOP[0] && l[k + 1] == PUSH_LOOP[1];
    StepAt(l, tail, k, c);
    RunOne(code, Offset(l, k), c);
    StepAt(l, tail, k + 1, d);
    RunOne(code, Offset(l, k + 1), d);
    RunTwo(code, At(Offset(l, k)), c, 1, At(Offset(l, k + 1)), d, 1,
           At(Offset(l, if c.ecx == 0 then k + 6 else k + 2)), d);
  }

  lemma LoopTurn(l: Code, tail: seq<Byte>, k: int, c: Cpu, w: Word) returns (d: Cpu)
    requires 0 <= k && k + 6 <= |l| && l[k..k + 6] == PUSH_LOOP
    requires c.esp >= 4 && c.Mapped(c.esp - 4) && c.Mapped(c.eax) && c.mem[c.eax] == w && c.ecx > 0
    ensures Run(EncodeAll(l) + tail, At(Offset(l, k)), c, 6) == Some((At(Offset(l, k)), d))
    ensures d.esp == c.esp - 4 && d.ecx == c.ecx - 1 && d.eax == Wrap(c.eax + 4) && d.mem == c.mem[c.esp - 4 := w]
    ensures d.ebp == c.ebp && d.ebx == c.ebx && d.esi == c.esi && d.edi == c.edi && d.edx == c.edx
  {
    hide Offset, EncodeAll, Step, Run, Encode, Decode, RunBlock, Exec, Transfer, Encodable, Logic;
    LoopSizes(l, k);
    var code := EncodeAll(l) + tail;
    var e := LoopTest(l, tail, k, c);
    var f := PushBlock(e, w);
    d := AfterTurn(e, w);
    assert l[k + 2..k + 5] == l[k..k + 6][2..5];
    RunBlockAt(l, tail, k + 2, PUSH_LOOP[2..5], e);
    RunTwo(code, At(Offset(l, k)), c, 2, At(Offset(l, k + 2)), e, 3, At(Offset(l, k + 5)), d);
    StepAt(l, tail, k + 5, d);
    JumpBack(d, Offset(l, k + 6));
    RunOne(code, Offset(l, k + 5), d);
    RunTwo(code, At(Offset(l, k)), c, 5, At(Offset(l, k + 5)), d, 1, At(Offset(l, k)), d);
  }

  /** The loop ends, for any number of words, having pushed exactly those words in order. */
  lemma {:induction false} PushLoopRuns(l: Code, tail: seq<Byte>, k: int, c: Cpu, ws: seq<Word>)
    returns (n: nat, d: Cpu)
    requires 0 <= k && k + 6 <= |l| && l[k..k + 6] == PUSH_LOOP
    requires c.ecx == |ws| && WordsAt(c.mem, c.eax, ws) && RoomToPush(c, c.eax, |ws|)
    ensures Run(EncodeAll(l) + tail, At(Offset(l, k)), c, n) == Some((At(Offset(l, k + 6)), d))
    ensures Pushed(c, ws, d)
    decreases |ws|
  {
    hide Offset, EncodeAll, Run;
    if ws == [] {
      n := 2;
      d := LoopTest(l, tail, k, c);
      return;
    }
    assert Below(c.esp, 0) in c.mem && Above(c.eax, 0) in c.mem;
    var e := LoopTurn(l, tail, k, c, ws[0]);
    var rest := ws[1..];
    if rest == [] {
      n := 2;
      d := LoopTest(l, tail, k, e);
    } else {
      NextWords(c, e, ws);
      n, d := PushLoopRuns(l, tail, k, e, rest);
    }
    RunTwo(EncodeAll(l) + tail, At(Offset(l, k)), c, 6, At(Offset(l, k)), e, n, At(Offset(l, k + 6)), d);
    n := 6 + n;
    PushedCons(c, e, d, ws);
  }

  lemma NextWords(c: Cpu, e: Cpu, ws: seq<Word>)
    requires |ws| > 1 && WordsAt(c.mem, c.eax, ws) && RoomToPush(c, c.eax, |ws|)
    requires e.esp == c.esp - 4 && e.eax == Wrap(c.eax + 4) && e.mem == c.mem[c.esp - 4 := ws[0]]
    ensures e.eax == c.eax + 4 && WordsAt(e.mem, e.eax, ws[1..]) && RoomToPush(e, e.eax, |ws| - 1)
  {
    assert Above(c.eax, |ws| - 1) in c.mem;
    assert e.eax == c.eax + 4;
    forall i | 0 <= i < |ws| - 1 ensures Above(e.eax, i) in e.mem && e.mem[Above(e.eax, i)] == ws[1..][i] {
      assert Above(c.eax, i + 1) == Above(e.eax, i) && Above(c.eax, i + 1) in c.mem;
    }
    forall i | 0 <= i < |ws| - 1 ensures Below(e.esp, i) in e.mem {
      assert Below(c.esp, i + 1) == Below(e.esp, i) && Below(c.esp, i + 1) in c.mem;
    }
  }

  lemma PushedCons(c: Cpu, e: Cpu, d: Cpu, ws: seq<Word>)
    requires ws != [] && c.esp % 4 == 0 && c.esp - 4 in c.mem
    requires e.esp == c.esp - 4 && e.mem == c.mem[c.esp - 4 := ws[0]] && Pushed(e, ws[1..], d)
    requires e.ebp == c.ebp && e.ebx == c.ebx && e.esi == c.esi && e.edi == c.edi && e.edx == c.edx
    ensures Pushed(c, ws, d)
  {
    forall i | 0 <= i < |ws| ensures Below(c.esp, i) in d.mem && d.mem[Below(c.esp, i)] == ws[i] {
      if i == 0 {
        assert Below(c.esp, 0) in e.mem && Below(c.esp, 0) == d.esp + 4 * |ws[1..]|;
      } else {
        assert Below(e.esp, i - 1) == Below(c.esp, i) && ws[1..][i - 1] == ws[i];
      }
    }
  }

  /** At entry the native caller's arguments lie above the return address: the number of words, where
      they are, the code to call. */
  ghost predicate AtEntry(c: Cpu, ws: seq<Word>) {
    && c.esp % 4 == 0 && 16 <= c.esp && c.esp + 12 < TWO_32
    && c.esp in c.mem && c.esp + 4 in c.mem && c.esp + 8 in c.mem
    && c.esp - 4 in c.mem && c.esp - 8 in c.mem && c.esp - 12 in c.mem && c.esp - 16 in c.mem
    && c.mem[c.esp + 4] == |ws|
    && WordsAt(c.mem, c.mem[c.esp + 8], ws)
    && (c.mem[c.esp + 8] + 4 * |ws| <= c.esp - 16 || c.esp <= c.mem[c.esp + 8])
  }

  /** The four registers saved below the return address, the frame pointer at the first of them. */
  ghost predicate Saved(c: Cpu, d: Cpu) {
    && d.ebp == c.esp - 4 && d.mem.Keys == c.mem.Keys
    && c.esp - 4 in d.mem && c.esp - 8 in d.mem && c.esp - 12 in d.mem && c.esp - 16 in d.mem
    && d.mem[c.esp - 4] == c.ebp && d.mem[c.esp - 8] == c.ebx && d.mem[c.esp - 12] == c.esi
    && d.mem[c.esp - 16] == c.edi
    && (forall a :: a in c.mem && a >= c.esp ==> d.mem[a] == c.mem[a])
  }

  lemma PushRegRuns(c: Cpu, r: Reg)
    requires c.esp >= 4 && c.Mapped(c.esp - 4)
    ensures Exec(PushR(r), c) == Some(c.(esp := c.esp - 4, mem := c.mem[c.esp - 4 := c.Get(r)]))
  {
  }

  lemma LoadRuns(c: Cpu, r: Reg, disp: Int32)
    requires 0 <= c.ebp + disp < TWO_32 && c.Mapped(c.ebp + disp)
    ensures Exec(MovRM(r, BaseDisp(Ebp, disp)), c) == Some(c.Set(r, c.mem[c.ebp + disp]))
  {
  }

  /** The machine after the pushes of the prolog. */
  function AfterSaves(c: Cpu): Cpu
    requires c.esp >= 16
  {
    c.(esp := c.esp - 16, ebp := c.esp - 4,
       mem := c.mem[c.esp - 4 := c.ebp][c.esp - 8 := c.ebx][c.esp - 12 := c.esi][c.esp - 16 := c.edi])
  }

  lemma SaveRuns(c: Cpu, ws: seq<Word>) returns (d: Cpu)
    requires AtEntry(c, ws)
    ensures RunBlock(SAVE, c) == Some(d)
    ensures d == AfterSaves(c).(ecx := |ws|, eax := c.mem[c.esp + 8])
  {
    hide Exec, WordsAt;
    var s := c.esp;
    PushRegRuns(c, Ebp);
    var c1 := c.(esp := s - 4, mem := c.mem[s - 4 := c.ebp]);
    var c2 := c1.(ebp := s - 4);
    assert Exec(MovRR(Ebp, Esp), c1) == Some(c2) by { MoveFrame(c1); }
    PushRegRuns(c2, Ebx);
    var c3 := c2.(esp := s - 8, mem := c2.mem[s - 8 := c.ebx]);
    PushRegRuns(c3, Esi);
    var c4 := c3.(esp := s - 12, mem := c3.mem[s - 12 := c.esi]);
    PushRegRuns(c4, Edi);
    var c5 := c4.(esp := s - 16, mem := c4.mem[s - 16 := c.edi]);
    LoadRuns(c5, Ecx, 8);
    var c6 := c5.(ecx := |ws|);
    LoadRuns(c6, Eax, 12);
    d := c6.(eax := c.mem[s + 8]);
    SaveBlock(c, c1, c2, c3, c4, c5, c6, d);
  }

  lemma MoveFrame(c: Cpu)
    ensures Exec(MovRR(Ebp, Esp), c) == Some(c.(ebp := c.esp))
  {
  }

  lemma SaveBlock(c: Cpu, c1: Cpu, c2: Cpu, c3: Cpu, c4: Cpu, c5: Cpu, c6: Cpu, d: Cpu)
    requires Exec(SAVE[0], c) == Some(c1) && Exec(SAVE[1], c1) == Some(c2) && Exec(SAVE[2], c2) == Some(c3)
    requires Exec(SAVE[3], c3) == Some(c4) && Exec(SAVE[4], c4) == Some(c5) && Exec(SAVE[5], c5) == Some(c6)
    requires Exec(SAVE[6], c6) == Some(d)
    ensures RunBlock(SAVE, c) == Some(d)
  {
    hide Exec;
    assert RunBlock([], c) == Some(c);
    var b1: Code := [] + [SAVE[0]];
    var b2: Code := b1 + [SAVE[1]];
    var b3: Code := b2 + [SAVE[2]];
    var b4: Code := b3 + [SAVE[3]];
    var b5: Code := b4 + [SAVE[4]];
    var b6: Code := b5 + [SAVE[5]];
    RunBlockSnoc([], SAVE[0], c);
    RunBlockSnoc(b1, SAVE[1], c);
    RunBlockSnoc(b2, SAVE[2], c);
    RunBlockSnoc(b3, SAVE[3], c);
    RunBlockSnoc(b4, SAVE[4], c);
    RunBlockSnoc(b5, SAVE[5], c);
    RunBlockSnoc(b6, SAVE[6], c);
    assert b6 + [SAVE[6]] == SAVE;
  }

  /** From its first byte the bridge comes to its call with exactly the caller's words pushed in order
      below the saved registers. */
  lemma BridgeReachesCall(lastException: Int32, tail: seq<Byte>, c: Cpu, ws: seq<Word>) returns (n: nat, d: Cpu)
    requires AtEntry(c, ws) && 0 <= c.esp - 16 - 4 * |ws| && c.mem[c.esp + 8] + 4 * |ws| <= TWO_32
    requires StackBelow(c.mem, c.esp - 16, |ws|)
    requires c.mem[c.esp + 8] + 4 * |ws| <= c.esp - 16 - 4 * |ws| || c.esp <= c.mem[c.esp + 8]
    ensures var l := NativeToJava(lastException);
            && l[13] == CallM(BaseDisp(Ebp, 16))
            && Run(EncodeAll(l) + tail, At(0), c, n) == Some((At(Offset(l, 13)), d))
    ensures Saved(c, d) && d.esp == c.esp - 16 - 4 * |ws|
    ensures WordsBelow(d.mem, c.esp - 16, ws)
  {
    hide EncodeAll, Run, RunBlock, Encode, Decode, AtEntry, RoomToPush, Pushed, WordsAt, StackBelow, Saved, Exec,
         Transfer;
    var l := NativeToJava(lastException);
    assert l[0..0 + |SAVE|] == SAVE && l[7..7 + 6] == PUSH_LOOP;
    var e := SaveRuns(c, ws);
    RunBlockAt(l, tail, 0, SAVE, c);
    ReadyToPush(c, e, ws);
    var m;
    m, d := PushLoopRuns(l, tail, 7, e, ws);
    RunTwo(EncodeAll(l) + tail, At(0), c, 7, At(Offset(l, 7)), e, m, At(Offset(l, 13)), d);
    n := 7 + m;
    ReadyToCall(c, e, d, ws);
  }

  lemma ReadyToPush(c: Cpu, e: Cpu, ws: seq<Word>)
    requires AtEntry(c, ws) && 0 <= c.esp - 16 - 4 * |ws| && c.mem[c.esp + 8] + 4 * |ws| <= TWO_32
    requires StackBelow(c.mem, c.esp - 16, |ws|)
    requires c.mem[c.esp + 8] + 4 * |ws| <= c.esp - 16 - 4 * |ws| || c.esp <= c.mem[c.esp + 8]
    requires e == AfterSaves(c).(ecx := |ws|, eax := c.mem[c.esp + 8])
    ensures WordsAt(e.mem, e.eax, ws) && RoomToPush(e, e.eax, |ws|)
  {
    forall i | 0 <= i < |ws| ensures Above(e.eax, i) in e.mem && e.mem[Above(e.eax, i)] == ws[i] {
      assert Above(c.mem[c.esp + 8], i) in c.mem;
    }
  }

  lemma ReadyToCall(c: Cpu, e: Cpu, d: Cpu, ws: seq<Word>)
    requires AtEntry(c, ws) && e == AfterSaves(c).(ecx := |ws|, eax := c.mem[c.esp + 8]) && Pushed(e, ws, d)
    ensures Saved(c, d) && d.esp == c.esp - 16 - 4 * |ws|
    ensures WordsBelow(d.mem, c.esp - 16, ws)
  {
    hide WordsAt;
  }

  // ----- the way back -----

  /** What the bridge needs of its frame once it has made its call: the frame pointer, the registers it
      saved, and its own return address and arguments. The caller's variables elsewhere may have changed. */
  ghost predicate Framed(c: Cpu, d: Cpu) {
    && d.ebp == c.esp - 4 && d.mem.Keys == c.mem.Keys
    && c.esp - 4 in d.mem && c.esp - 8 in d.mem && c.esp - 12 in d.mem && c.esp - 16 in d.mem
    && d.mem[c.esp - 4] == c.ebp && d.mem[c.esp - 8] == c.ebx && d.mem[c.esp - 12] == c.esi
    && d.mem[c.esp - 16] == c.edi
    && (forall a :: a in c.mem && c.esp <= a < c.esp + 28 ==> d.mem[a] == c.mem[a])
  }

  lemma SavedFramed(c: Cpu, d: Cpu)
    requires Saved(c, d)
    ensures Framed(c, d)
  {
  }

  /** A variable of the caller: a word of memory outside the bridge's frame. */
  ghost predicate Variable(c: Cpu, p: Word) {
    c.Mapped(p) && !(c.esp - 16 <= p < c.esp + 28)
  }

  /** The caller's last four arguments: how many bytes of arguments to drop, and the two variables for the
      result. */
  ghost predicate WithResults(c: Cpu, bytes: Word, p: Word, q: Word) {
    && c.esp % 4 == 0 && 16 <= c.esp && c.esp + 28 < TWO_32 && c.esp in c.mem
    && c.esp + 16 in c.mem && c.mem[c.esp + 16] == bytes
    && c.esp + 20 in c.mem && c.mem[c.esp + 20] == p && c.esp + 24 in c.mem && c.mem[c.esp + 24] == q
    && Variable(c, p) && Variable(c, q) && p != q
  }

  /** The caller's variables hold the two result words. */
  ghost predicate ResultsHeld(mem: map<int, Word>, p: Word, q: Word, low: Word, high: Word) {
    p in mem && mem[p] == low && q in mem && mem[q] == high
  }

  lemma StoreRuns(c: Cpu, r: Reg)
    requires c.Mapped(c.ecx)
    ensures Exec(MovMR(BaseDisp(Ecx, 0), r), c) == Some(c.(mem := c.mem[c.ecx := c.Get(r)]))
  {
  }

  lemma StoreBlock(c: Cpu, c1: Cpu, c2: Cpu, c3: Cpu, d: Cpu)
    requires Exec(STORE_RESULT[0], c) == Some(c1) && Exec(STORE_RESULT[1], c1) == Some(c2)
    requires Exec(STORE_RESULT[2], c2) == Some(c3) && Exec(STORE_RESULT[3], c3) == Some(d)
    ensures RunBlock(STORE_RESULT, c) == Some(d)
  {
    hide Exec;
    assert RunBlock([], c) == Some(c);
    var b1: Code := [] + [STORE_RESULT[0]];
    var b2: Code := b1 + [STORE_RESULT[1]];
    var b3: Code := b2 + [STORE_RESULT[2]];
    RunBlockSnoc([], STORE_RESULT[0], c);
    RunBlockSnoc(b1, STORE_RESULT[1], c);
    RunBlockSnoc(b2, STORE_RESULT[2], c);
    RunBlockSnoc(b3, STORE_RESULT[3], c);
    assert b3 + [STORE_RESULT[3]] == STORE_RESULT;
  }

  /** The callee has returned: the word in eax goes to the first variable, the word in edx to the second,
      and the bridge comes to its call for the pending exception. */
  lemma BridgeStores(lastException: Int32, tail: seq<Byte>, c: Cpu, d: Cpu, bytes: Word, p: Word, q: Word)
    returns (e: Cpu)
    requires WithResults(c, bytes, p, q) && Framed(c, d)
    ensures var l := NativeToJava(lastException);
            && l[18] == CallRel(lastException)
            && Run(EncodeAll(l) + tail, At(Offset(l, 14)), d, 4) == Some((At(Offset(l, 18)), e))
    ensures e == d.(ecx := q, mem := d.mem[p := d.eax][q := d.edx])
    ensures Framed(c, e) && ResultsHeld(e.mem, p, q, d.eax, d.edx)
  {
    hide EncodeAll, Run, RunBlock, Encode, Decode, Exec, Encodable, Offset, Step;
    var l := NativeToJava(lastException);
    LoadRuns(d, Ecx, 24);
    var d1 := d.(ecx := p);
    StoreRuns(d1, Eax);
    var d2 := d1.(mem := d.mem[p := d.eax]);
    LoadRuns(d2, Ecx, 28);
    var d3 := d2.(ecx := q);
    StoreRuns(d3, Edx);
    e := d3.(mem := d2.mem[q := d.edx]);
    StoreBlock(d, d1, d2, d3, e);
    assert l[14..14 + 4] == STORE_RESULT;
    RunBlockAt(l, tail, 14, STORE_RESULT, d);
  }

  lemma TestEax(c: Cpu) returns (d: Cpu)
    ensures Exec(AluRR(OrOp, Eax, Eax), c) == Some(d)
    ensures d == c.(zf := c.eax == 0, sf := c.eax >= TWO_31, of := false, cf := false)
  {
    OrSelf(c.eax);
    d := Exec(AluRR(OrOp, Eax, Eax), c).value;
  }

  lemma SkipDrop(c: Cpu, next: int)
    ensures Exec(JccShort(CcEq, 3), c) == None
    ensures Transfer(JccShort(CcEq, 3), next, c) == Some((At(if c.zf then next + 3 else next), c))
  {
  }

  lemma DropRuns(c: Cpu, bytes: Word)
    requires 0 <= c.ebp + 20 < TWO_32 && c.Mapped(c.ebp + 20) && c.mem[c.ebp + 20] == bytes
    ensures var f := Alu(Add, c.esp, bytes, c.cf);
            Exec(AluRM(Add, Esp, BaseDisp(Ebp, 20)), c) == Some(WithFlags(c, f).(esp := Wrap(c.esp + bytes)))
  {
  }

  lemma DropSize()
    ensures |Encode(AluRM(Add, Esp, BaseDisp(Ebp, 20)))| == 3
  {
  }

  /** The machine but for its flags. */
  function NoFlags(c: Cpu): Cpu {
    c.(zf := false, sf := false, of := false, cf := false)
  }

  /** Behind the call for the pending exception: without one the stack pointer stays, with one the
      arguments the callee did not remove are dropped. */
  lemma BridgeTests(lastException: Int32, tail: seq<Byte>, c: Cpu, d: Cpu, bytes: Word, p: Word, q: Word)
    returns (n: nat, e: Cpu)
    requires WithResults(c, bytes, p, q) && Framed(c, d)
    ensures var l := NativeToJava(lastException);
            Run(EncodeAll(l) + tail, At(Offset(l, 19)), d, n) == Some((At(Offset(l, 22)), e))
    ensures NoFlags(e) == NoFlags(d).(esp := if d.eax == 0 then d.esp else Wrap(d.esp + bytes))
  {
    hide EncodeAll, Run, RunBlock, Encode, Decode, Exec, Encodable, Offset, Step, Transfer;
    var l := NativeToJava(lastException);
    var code := EncodeAll(l) + tail;
    assert l[19] == AluRR(OrOp, Eax, Eax) && l[20] == JccShort(CcEq, 3) && l[21] == AluRM(Add, Esp, BaseDisp(Ebp, 20));
    var f := TestEax(d);
    StepAt(l, tail, 19, d);
    RunOne(code, Offset(l, 19), d);
    SkipDrop(f, Offset(l, 21));
    StepAt(l, tail, 20, f);
    RunOne(code, Offset(l, 20), f);
    EncodeAllAt(l, 21);
    DropSize();
    if d.eax == 0 {
      n, e := 2, f;
      RunTwo(code, At(Offset(l, 19)), d, 1, At(Offset(l, 20)), f, 1, At(Offset(l, 22)), f);
    } else {
      RunTwo(code, At(Offset(l, 19)), d, 1, At(Offset(l, 20)), f, 1, At(Offset(l, 21)), f);
      DropRuns(f, bytes);
      StepAt(l, tail, 21, f);
      RunOne(code, Offset(l, 21), f);
      n, e := 3, Exec(l[21], f).value;
      RunTwo(code, At(Offset(l, 19)), d, 2, At(Offset(l, 21)), f, 1, At(Offset(l, 22)), e);
    }
  }


  lemma PopRuns(c: Cpu, r: Reg)
    requires c.Mapped(c.esp) && c.esp + 4 < TWO_32 && r != Esp
    ensures Exec(PopR(r), c) == Some(c.Set(r, c.mem[c.esp]).(esp := c.esp + 4))
  {
  }

  const RESTORE: Code := [PopR(Edi), PopR(Esi), PopR(Ebx), PopR(Ebp)]

  /** The callee has removed its arguments: the saved registers come back. */
  lemma RestoreRuns(c: Cpu, d: Cpu) returns (e: Cpu)
    requires c.esp % 4 == 0 && 16 <= c.esp && Framed(c, d) && d.esp == c.esp - 16
    ensures RunBlock(RESTORE, d) == Some(e)
    ensures e == d.(edi := c.edi, esi := c.esi, ebx := c.ebx, ebp := c.ebp, esp := c.esp)
  {
    hide Exec, Encodable;
    PopRuns(d, Edi);
    var d1 := Exec(RESTORE[0], d).value;
    PopRuns(d1, Esi);
    var d2 := Exec(RESTORE[1], d1).value;
    PopRuns(d2, Ebx);
    var d3 := Exec(RESTORE[2], d2).value;
    PopRuns(d3, Ebp);
    e := Exec(RESTORE[3], d3).value;
    var b1: Code := [] + [RESTORE[0]];
    var b2: Code := b1 + [RESTORE[1]];
    var b3: Code := b2 + [RESTORE[2]];
    assert RunBlock([], d) == Some(d);
    RunBlockSnoc([], RESTORE[0], d);
    RunBlockSnoc(b1, RESTORE[1], d);
    RunBlockSnoc(b2, RESTORE[2], d);
    RunBlockSnoc(b3, RESTORE[3], d);
    assert b3 + [RESTORE[3]] == RESTORE;
  }

  /** With the callee's arguments gone and no exception, the bridge returns to its caller with the
      stack pointer behind the return address and the caller's registers as they were. */
  lemma BridgeReturns(lastException: Int32, tail: seq<Byte>, c: Cpu, d: Cpu) returns (e: Cpu)
    requires c.esp % 4 == 0 && 16 <= c.esp && c.esp + 4 < TWO_32 && c.esp in c.mem
    requires Framed(c, d) && d.esp == c.esp - 16
    ensures var l := NativeToJava(lastException);
            Run(EncodeAll(l) + tail, At(Offset(l, 22)), d, 5) == Some((Returned(c.mem[c.esp]), e))
    ensures e == d.(edi := c.edi, esi := c.esi, ebx := c.ebx, ebp := c.ebp, esp := c.esp + 4)
  {
    hide EncodeAll, Run, RunBlock, Encode, Decode, Exec, Encodable, Offset, Step;
    var l := NativeToJava(lastException);
    var code := EncodeAll(l) + tail;
    assert l[22..22 + 4] == RESTORE && l[26] == Ret;
    var f := RestoreRuns(c, d);
    RunBlockAt(l, tail, 22, RESTORE, d);
    e := f.(esp := c.esp + 4);
    RetRuns(f, Offset(l, 27));
    StepAt(l, tail, 26, f);
    RunOne(code, Offset(l, 26), f);
    RunTwo(code, At(Offset(l, 22)), d, 4, At(Offset(l, 26)), f, 1, Returned(c.mem[c.esp]), e);
  }

  lemma StackKnown(c: Cpu, bytes: Word, p: Word, q: Word)
    requires WithResults(c, bytes, p, q)
    ensures c.esp % 4 == 0 && 16 <= c.esp && c.esp + 4 < TWO_32 && c.esp in c.mem
  {
  }

  lemma DroppedBack(a: Word, bytes: Word)
    ensures Wrap(Wrap(a - bytes) + bytes) == a
  {
  }

  lemma TestFramed(c: Cpu, d: Cpu, e: Cpu)
    requires Framed(c, d) && e.ebp == d.ebp && e.mem == d.mem
    ensures Framed(c, e)
  {
  }

  /** From the call for the pending exception to the native caller: the two result words are still in its
      variables, its registers as they were and its return address dropped. With an exception pending the
      callee's arguments are still on the stack, without one they are gone. */
  lemma BridgeHandsBack(lastException: Int32, tail: seq<Byte>, c: Cpu, g: Cpu, bytes: Word, p: Word, q: Word,
                        low: Word, high: Word)
    returns (n: nat, e: Cpu)
    requires WithResults(c, bytes, p, q) && Framed(c, g) && ResultsHeld(g.mem, p, q, low, high)
    requires g.esp == if g.eax == 0 then c.esp - 16 else Wrap(c.esp - 16 - bytes)
    ensures var l := NativeToJava(lastException);
            Run(EncodeAll(l) + tail, At(Offset(l, 19)), g, n) == Some((Returned(c.mem[c.esp]), e))
    ensures ResultsHeld(e.mem, p, q, low, high)
    ensures e.esp == c.esp + 4 && e.ebp == c.ebp && e.ebx == c.ebx && e.esi == c.esi && e.edi == c.edi
  {
    hide EncodeAll, Run, Framed, ResultsHeld, Offset, Encode, Encodable, WithResults;
    StackKnown(c, bytes, p, q);
    var k, f := BridgeTests(lastException, tail, c, g, bytes, p, q);
    TestFramed(c, g, f);
    DroppedBack(c.esp - 16, bytes);
    assert f.esp == c.esp - 16;
    e := BridgeReturns(lastException, tail, c, f);
    var l := NativeToJava(lastException);
    RunTwo(EncodeAll(l) + tail, At(Offset(l, 19)), g, k, At(Offset(l, 22)), f, 5, Returned(c.mem[c.esp]), e);
    n := k + 5;
  }

  lemma RetRuns(c: Cpu, next: int)
    requires c.Mapped(c.esp) && c.esp + 4 < TWO_32
    ensures Exec(Ret, c) == None && Transfer(Ret, next, c) == Some((Returned(c.mem[c.esp]), c.(esp := c.esp + 4)))
  {
  }

  // ----- to native code: the arguments in reverse order -----

  /** Copies one argument from above the stack pointer to as far below it. */
  function CopyOne(n: nat, i: nat): Code
    requires i < n < TWO_15 / 2
  {
    [MovRM(Ecx, BaseDisp(Esp, 4 * (n - i))), MovMR(BaseDisp(Esp, -4 * (n - i)), Ecx)]
  }

  function Copies(n: nat, i: nat): (l: Code)
    requires i <= n < TWO_15 / 2
    ensures |l| == 2 * i
  {
    if i == 0 then [] else Copies(n, i - 1) + CopyOne(n, i - 1)
  }

  /** The wrapper of a native method with `n` one-word arguments, the receiver among them; a static
      method's class is passed in front of the others. */
  function Wrapper(n: nat, isStatic: bool, owner: Word, native: Int32): Code
    requires n < TWO_15 / 2
  {
    Copies(n, n) + [AluRI(Sub, Esp, 4 * n)] + (if isStatic then [PushI(owner)] else []) +
    [CallRel(native), if n == 0 then Ret else RetI(4 * n)]
  }

  /** At entry the caller has pushed the arguments in order, and the return address behind them. */
  ghost predicate Entered(c: Cpu, args: seq<Word>) {
    && c.esp % 4 == 0 && 4 * |args| + 4 <= c.esp && c.esp + 4 * |args| + 4 < TWO_32
    && c.esp in c.mem && c.esp - 4 * |args| - 4 in c.mem
    && WordsBelow(c.mem, c.esp + 4 * |args| + 4, args)
    && StackBelow(c.mem, c.esp, |args|)
  }

  /** The first `i` arguments are copied; nothing at the stack pointer or above it changed. */
  ghost predicate Copied(c: Cpu, args: seq<Word>, i: nat, d: Cpu)
    requires i <= |args|
  {
    && d.esp == c.esp && d.ebp == c.ebp && d.ebx == c.ebx && d.esi == c.esi && d.edi == c.edi
    && d.mem.Keys == c.mem.Keys && WordsAt(d.mem, c.esp - 4 * |args|, args[..i])
    && forall a :: a in c.mem && a >= c.esp ==> d.mem[a] == c.mem[a]
  }

  lemma CopyRuns(c: Cpu, n: nat, i: nat) returns (d: Cpu)
    requires i < n < TWO_15 / 2 && c.esp >= 4 * n && c.esp + 4 * n < TWO_32
    requires c.Mapped(c.esp + 4 * (n - i)) && c.Mapped(c.esp - 4 * (n - i))
    ensures Exec(CopyOne(n, i)[0], c).Some? && Exec(CopyOne(n, i)[1], Exec(CopyOne(n, i)[0], c).value) == Some(d)
    ensures var w := c.mem[c.esp + 4 * (n - i)]; d == c.(ecx := w, mem := c.mem[c.esp - 4 * (n - i) := w])
  {
    var e := Exec(CopyOne(n, i)[0], c).value;
    d := Exec(CopyOne(n, i)[1], e).value;
  }

  lemma CopyOk(c: Cpu, args: seq<Word>, i: nat, d: Cpu, e: Cpu)
    requires Entered(c, args) && i < |args| && Copied(c, args, i, d)
    requires e == d.(ecx := e.ecx, mem := d.mem[c.esp - 4 * (|args| - i) := args[i]])
    ensures Copied(c, args, i + 1, e)
  {
    var low := c.esp - 4 * |args|;
    assert Below(c.esp, |args| - i - 1) == c.esp - 4 * (|args| - i) == Above(low, i);
    assert Below(c.esp, |args| - i - 1) in c.mem;
    forall j | 0 <= j < i + 1 ensures Above(low, j) in e.mem && e.mem[Above(low, j)] == args[..i + 1][j] {
      if j < i {
        assert Above(low, j) in d.mem && d.mem[Above(low, j)] == args[..i][j];
      }
    }
  }

  lemma {:induction false} CopiesRun(c: Cpu, args: seq<Word>, i: nat) returns (d: Cpu)
    requires Entered(c, args) && i <= |args| < TWO_15 / 2
    ensures RunBlock(Copies(|args|, i), c) == Some(d) && Copied(c, args, i, d)
  {
    hide Exec, Encodable;
    var n := |args|;
    if i == 0 {
      d := c;
      return;
    }
    var e := CopiesRun(c, args, i - 1);
    CopyMapped(c, args, i - 1, e);
    d := CopyRuns(e, n, i - 1);
    CopyOk(c, args, i - 1, e, d);
    var one := CopyOne(n, i - 1);
    RunBlockSnoc(Copies(n, i - 1), one[0], c);
    RunBlockSnoc(Copies(n, i - 1) + [one[0]], one[1], c);
    assert Copies(n, i - 1) + [one[0]] + [one[1]] == Copies(n, i);
  }

  lemma CopyMapped(c: Cpu, args: seq<Word>, i: nat, e: Cpu)
    requires Entered(c, args) && i < |args| && Copied(c, args, i, e)
    ensures e.Mapped(e.esp + 4 * (|args| - i)) && e.Mapped(e.esp - 4 * (|args| - i))
    ensures e.mem[e.esp + 4 * (|args| - i)] == args[i]
  {
    var n := |args|;
    assert Below(c.esp + 4 * n + 4, i) == c.esp + 4 * (n - i) && Below(c.esp + 4 * n + 4, i) in c.mem;
    assert Below(c.esp, n - i - 1) == c.esp - 4 * (n - i) && Below(c.esp, n - i - 1) in c.mem;
  }

  lemma SubEsp(c: Cpu, k: Word)
    requires k <= c.esp
    ensures var f := Alu(Sub, c.esp, k, c.cf); Exec(AluRI(Sub, Esp, k), c) == Some(WithFlags(c, f).(esp := c.esp - k))
  {
  }

  lemma PushImmRuns(c: Cpu, w: Word)
    requires c.esp >= 4 && c.Mapped(c.esp - 4)
    ensures Exec(PushI(w), c) == Some(c.(esp := c.esp - 4, mem := c.mem[c.esp - 4 := w]))
  {
  }

  /** Where the wrapper's call is in its code. */
  function CallIndex(n: nat, isStatic: bool): nat {
    2 * n + 1 + if isStatic then 1 else 0
  }

  /** The wrapper comes to its call with argument k at esp + 4k (the class in front for a static method)
      and what its caller pushed unchanged. */
  lemma WrapperReachesCall(args: seq<Word>, isStatic: bool, owner: Word, native: Int32, tail: seq<Byte>, c: Cpu)
    returns (d: Cpu)
    requires Entered(c, args) && |args| < TWO_15 / 2
    ensures var l := Wrapper(|args|, isStatic, owner, native);
            var k := CallIndex(|args|, isStatic);
            && |l| == k + 2 && l[k] == CallRel(native)
            && Run(EncodeAll(l) + tail, At(0), c, k) == Some((At(Offset(l, k)), d))
    ensures d.esp == c.esp - 4 * |args| - if isStatic then 4 else 0
    ensures isStatic ==> d.esp in d.mem && d.mem[d.esp] == owner
    ensures WordsAt(d.mem, c.esp - 4 * |args|, args)
    ensures d.ebp == c.ebp && d.ebx == c.ebx && d.esi == c.esi && d.edi == c.edi
    ensures forall a :: a in c.mem && a >= c.esp ==> a in d.mem && d.mem[a] == c.mem[a]
  {
    hide EncodeAll, Run, RunBlock, Encode, Decode, Exec, Encodable, Offset, Step, Logic;
    var n := |args|;
    var l := Wrapper(n, isStatic, owner, native);
    var e := CopiesRun(c, args, n);
    assert args[..n] == args;
    SubEsp(e, 4 * n);
    var f := Exec(AluRI(Sub, Esp, 4 * n), e).value;
    var block := Copies(n, n) + [AluRI(Sub, Esp, 4 * n)];
    RunBlockSnoc(Copies(n, n), AluRI(Sub, Esp, 4 * n), c);
    d := f;
    if isStatic {
      PushImmRuns(f, owner);
      d := Exec(PushI(owner), f).value;
      RunBlockSnoc(block, PushI(owner), c);
      block := block + [PushI(owner)];
      StillThere(f, d, c.esp - 4 * n, args, owner);
    }
    assert l[0..0 + |block|] == block;
    RunBlockAt(l, tail, 0, block, c);
    assert Offset(l, 0) == 0 by { OffsetZero(l); }
  }

  lemma OffsetZero(l: Code)
    ensures Offset(l, 0) == 0
  {
  }

  lemma StillThere(f: Cpu, d: Cpu, low: int, args: seq<Word>, w: Word)
    requires WordsAt(f.mem, low, args) && d.mem == f.mem[low - 4 := w]
    ensures WordsAt(d.mem, low, args)
  {
    forall i | 0 <= i < |args| ensures Above(low, i) in d.mem && d.mem[Above(low, i)] == args[i] {
      assert Above(low, i) in f.mem && Above(low, i) != low - 4;
    }
  }

  /** When the native function has removed its arguments, the wrapper's return drops exactly the words
      the caller pushed. */
  lemma WrapperReturns(args: seq<Word>, isStatic: bool, owner: Word, native: Int32, tail: seq<Byte>, c: Cpu, d: Cpu)
    requires Entered(c, args) && |args| < TWO_15 / 2 && d.esp == c.esp && d.esp in d.mem && d.mem[d.esp] == c.mem[c.esp]
    ensures var l := Wrapper(|args|, isStatic, owner, native);
            Run(EncodeAll(l) + tail, At(Offset(l, CallIndex(|args|, isStatic) + 1)), d, 1) ==
            Some((Returned(c.mem[c.esp]), d.(esp := c.esp + 4 + 4 * |args|)))
  {
    hide EncodeAll, Run, Encode, Decode, Encodable, Offset, Step, Copies;
    var l := Wrapper(|args|, isStatic, owner, native);
    var k := CallIndex(|args|, isStatic) + 1;
    assert l[k] == if |args| == 0 then Ret else RetI(4 * |args|);
    StepAt(l, tail, k, d);
    RunOne(EncodeAll(l) + tail, Offset(l, k), d);
  }
}
