/** The stack frame of compiled code: the offsets `prepare_stackframe` computes from ebp. */
module Frame {
  import opened Words
  import opened X86
  import opened Bytecode
  import Descriptors

  /** The argument words of a method are those of its descriptor, and one for the receiver unless static. */
  predicate HasSignature(m: Method, descriptor: string, isStatic: bool) {
    && descriptor != "" && Descriptors.Scan(descriptor, 1).Parsed?
    && m.argWords == Descriptors.ArgWords(descriptor, isStatic)
  }

  /** Words below the saved method pointer: locals that are not arguments. */
  function ExtraLocals(m: Method): (n: int) {
    if m.maxLocals > m.argWords then m.maxLocals - m.argWords else 0
  }

  /** The offset of local `i`: arguments above the return address in the order they were pushed,
      the rest below the saved method pointer. */
  function LocalOffset(m: Method, i: int): int {
    if i < m.argWords then 4 * (m.argWords + 1 - i) else -8 - 4 * (i - m.argWords)
  }

  function FrameSize(m: Method): int {
    -8 - 4 * ExtraLocals(m)
  }

  /** The offset of the operand stack word at height `k`. */
  function StackOffset(m: Method, k: int): int {
    FrameSize(m) - 4 * (k + 1)
  }

  /** Every offset fits the 16-bit integers the tables store. */
  predicate OffsetsFit(m: Method) {
    4 * (m.argWords + 1) < TWO_15 && 8 + 4 * ExtraLocals(m) + 4 * m.maxStack <= TWO_15
  }

  /** The offsets as they are stored. */
  function StoredLocal(m: Method, i: int): Int32 {
    ToInt16(LocalOffset(m, i))
  }

  function StoredStack(m: Method, k: int): Int32 {
    ToInt16(StackOffset(m, k))
  }

  function StoredFrameSize(m: Method): Int32 {
    ToInt16(FrameSize(m))
  }

  /** The stored offsets are the real ones exactly when the frame fits. */
  lemma StoredExact(m: Method)
    requires m.argWords <= m.maxLocals
    ensures OffsetsFit(m) ==> StoredFrameSize(m) == FrameSize(m)
    ensures OffsetsFit(m) <==>
            && (forall i :: 0 <= i < m.maxLocals ==> StoredLocal(m, i) == LocalOffset(m, i))
            && (forall k :: 0 <= k < m.maxStack ==> StoredStack(m, k) == StackOffset(m, k))
            && StoredFrameSize(m) == FrameSize(m)
  {
    if !OffsetsFit(m) {
      if 4 * (m.argWords + 1) >= TWO_15 {
        assert StoredLocal(m, 0) != LocalOffset(m, 0);
      } else if m.maxStack > 0 {
        assert StoredStack(m, m.maxStack - 1) != StackOffset(m, m.maxStack - 1);
      } else {
        assert StoredFrameSize(m) != FrameSize(m);
      }
    }
  }

  /** The slots of a frame: one name per word. */
  datatype Slot = LocalSlot(i: int) | StackSlot(k: int) | SavedMethod | SavedEbp | ReturnAddress | Gap

  predicate IsSlot(m: Method, s: Slot) {
    match s
    case LocalSlot(i) => 0 <= i < m.maxLocals
    case StackSlot(k) => 0 <= k < m.maxStack
    case _ => true
  }

  function SlotOffset(m: Method, s: Slot): int {
    match s
    case LocalSlot(i) => LocalOffset(m, i)
    case StackSlot(k) => StackOffset(m, k)
    case SavedMethod => -4
    case SavedEbp => 0
    case ReturnAddress => 4
    case Gap => FrameSize(m)
  }

  /** Arguments, other locals, saved words and operand slots are pairwise disjoint words, and they
      tile the frame from its lowest stack slot to its first argument without a hole. */
  lemma SlotsDisjoint(m: Method, s: Slot, t: Slot)
    requires m.argWords <= m.maxLocals && IsSlot(m, s) && IsSlot(m, t)
    ensures SlotOffset(m, s) % 4 == 0
    ensures SlotOffset(m, s) == SlotOffset(m, t) <==> s == t
    ensures FrameSize(m) - 4 * m.maxStack <= SlotOffset(m, s) <= 4 * (m.argWords + 1)
  {
  }

  /** The slot a frame offset belongs to. */
  function SlotAt(m: Method, off: int): (s: Slot)
    requires m.argWords <= m.maxLocals
    requires off % 4 == 0 && FrameSize(m) - 4 * m.maxStack <= off <= 4 * (m.argWords + 1)
    ensures IsSlot(m, s) && SlotOffset(m, s) == off
  {
    if off >= 8 then LocalSlot(m.argWords + 1 - off / 4)
    else if off == 4 then ReturnAddress
    else if off == 0 then SavedEbp
    else if off == -4 then SavedMethod
    else if off > FrameSize(m) then LocalSlot(m.argWords + (-8 - off) / 4)
    else if off == FrameSize(m) then Gap
    else StackSlot((FrameSize(m) - off) / 4 - 1)
  }

  /** `prepare_stackframe`: fills the two offset tables with 16-bit offsets, the receiver's first. */
  method PrepareStackframe(m: Method, descriptor: string, isStatic: bool, locals: array<int>, stack: array<int>)
    returns (frameSize: int)
    requires HasSignature(m, descriptor, isStatic)
    requires m.argWords <= m.maxLocals == locals.Length && m.maxStack == stack.Length && locals != stack
    modifies locals, stack
    ensures forall i :: 0 <= i < m.maxLocals ==> locals[i] == StoredLocal(m, i)
    ensures forall k :: 0 <= k < m.maxStack ==> stack[k] == StoredStack(m, k)
    ensures frameSize == StoredFrameSize(m)
  {
    hide Descriptors.Scan;
    var parsed, count, bytes := Descriptors.GetParamNumSize(descriptor);
    var argWords := bytes / 4;
    if !isStatic {
      argWords := argWords + 1;
    }
    var offset := (argWords + 2) * 4;
    var i := 0;
    if !isStatic {
      offset := offset - 4;
      locals[i] := ToInt16(offset);
      i := i + 1;
    }
    while i < argWords
      invariant 0 <= i <= argWords == m.argWords
      invariant offset == LocalOffset(m, i) + 4 || (i == argWords && offset == 8)
      invariant forall j :: 0 <= j < i ==> locals[j] == StoredLocal(m, j)
    {
      offset := offset - 4;
      locals[i] := ToInt16(offset);
      i := i + 1;
    }
    offset := -4;
    while i < m.maxLocals
      invariant m.argWords <= i <= m.maxLocals
      invariant offset == -4 - 4 * (i - m.argWords)
      invariant forall j :: 0 <= j < i ==> locals[j] == StoredLocal(m, j)
    {
      offset := offset - 4;
      locals[i] := ToInt16(offset);
      i := i + 1;
    }
    offset := offset - 4;
    frameSize := ToInt16(offset);
    i := 0;
    while i < m.maxStack
      invariant 0 <= i <= m.maxStack
      invariant offset == FrameSize(m) - 4 * i
      invariant forall j :: 0 <= j < m.maxLocals ==> locals[j] == StoredLocal(m, j)
      invariant forall k :: 0 <= k < i ==> stack[k] == StoredStack(m, k)
    {
      offset := offset - 4;
      stack[i] := ToInt16(offset);
      i := i + 1;
    }
  }
}
