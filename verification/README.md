# A verified model of the kORP virtual machine's compiler, linker and class initialization

kORP is a small Java virtual machine whose only execution engine is a just-in-time compiler for
IA-32. This project models three linked parts of it in Dafny 4.11 and proves what they promise.
`dafny verify dfyconfig.toml` checks everything.

**The compiler.** `Bytecode` gives the int and reference bytecodes their meaning (section 6.5 of The
Java Virtual Machine Specification), and `OpcodeMeaning` states that meaning for every opcode byte
by itself. `X86` is a machine with eight registers, four flags and word memory, `Encoding` the byte
encoding (section 2.1.5 of the Intel 64 and IA-32 Architectures Software Developer's Manual,
Volume 2), whose bytes `OpcodeBytes` writes out, and `CodeStream` the machine running on bytes. `Templates` lists the
instructions selected for one bytecode, `Frame` lays out the stack frame. `Placement` is the
depth-first walk of `select_code` as a function on plans, with the jumps it emits, the fall-throughs
it misses and the growth of its buffer; `Room` and `Budget` say when that buffer holds, `Patching`
is the patch loop. `Emitter`, `CodeGen`, `Compiler` and `Generator` are the same compiler as it is
written: emitters that write bytes through an advancing position, the walk with its visited marks,
offset tables and mimic stack depth, the buffer that is replaced by a larger one, and the loop that
patches emitted bytes. They are proved to compute the plan. `FrameProofs`, `TemplateProofs`,
`Simulation` and `Correctness` build the simulation theorem up to `MethodCorrect`: the emitted
bytes, run from their first byte, return what the bytecode returns. `StaticChecks` gives a condition
on the bytecode under which every run is exact, `TemplateShortfalls` runs methods that miss it, and
`EndToEnd` joins it all with `compile`. `Calls` adds the caller's side of a call: the arguments of a
descriptor become the callee's locals, and its return and the caller's drop balance. `Bridges` runs
the two generated bridges to and from native code.

**Class linking.** `Hierarchy` compares virtual method tables with the lookup up the superclass
chain, per class and per call, `ClassPrepare` is the preparation that fills them, and `LazyJit` adds
the stubs and the slots overwritten when a method is compiled; `Dispatch` joins them with the code
of a virtual call. `InterfaceTable` and `Interfaces` are the interface tables, the calls through
them and the type test, `FieldLayout` the field offsets.

**Stateful cores.** `ClassInitialize` is the re-entrant initialization of classes, `Interning` the
string pool and the class table, `Utf8` the modified UTF-8 packer and unpacker, `Descriptors` the
two descriptor parsers.

## Where the code falls short

The model keeps the code as it is. Where a property is false of it, the property is proved exactly
where it holds, and the other lemmas named give inputs on which it fails.

- A conditional branch compiled after its own fall-through gets no jump to it, so when it is not
  taken it runs whatever follows (`ConditionalPlaceIff`, `MissedFallThroughReturnsWrong`).
  `NotMissed` tells from the bytecode which branches are safe.
- A branch to pc 0 is never patched, because a recorded target of 0 means that there is none
  (`BranchLandsIff`, `BranchToZeroReturns`).
- `codebuf_set` may replace the buffer while `select_code` still holds a pointer into the old one; a
  goto to a pc not yet compiled, and a straight-line instruction before a compiled one, then use it
  (`StaleBufferReached`). A plan that does so has the fault `StaleBuffer`, and `Compile` fails on
  it; what the program does from there on is undefined. `BodyStaleIff` says at which step that
  happens, and `BudgetSuffices` gives a condition on the bytecode under which it does not. The same
  goes for a buffer whose length no longer fits the 15 bits an array header has for it
  (`BufferTooLong`).
- BIPUSH and SIPUSH push their operand unsigned, I2C keeps one byte, and a division that should
  throw or wrap traps (`BodyCorrectIff`, `BipushReturnsUnsigned`, `SipushReturnsUnsigned`,
  `CharReturnsByte`, `DivideTraps`, `StraightTraps`).
- The package of a class is set only after its methods are prepared, so no package-private method is
  ever overridden (`DispatchIff`, `CallIff`, `PackagePrivateNotOverridden`), nor does the public
  method that redeclares one implement an interface (`FirstMatchIff`, `InterfaceCallRunsOld`).
- The duplicate elimination of interface tables can run down past the duplicate and lose interfaces,
  or read before the table (`DedupExactIff`, `InterfacesLost`, `InterfaceNamedAgain`).
- A static method has offset 0, so compiling it overwrites the first word of its class object
  (`WriteHits`, for every static method).
- The count of static references kept for the collector counts all static fields (`StaticRefsIff`,
  `StaticIntCounted`).
- That count, and the one for an object, stand for the first words of the static data or the object.
  For an object that is right only while no class with a reference extends one with another field
  (`AggregatedIff`, `ReferenceBehindInt`).
- The string pool records the length of a text in 15 bits and cannot find a longer one again
  (`RecordedLengthIff`).
- `ret` with an operand returns a position that leaves the operand's two bytes out (`Return`).

A comment in `jit_a_method` says a method that is not compiled yet is not being compiled either; a
nested call during its class's initialization finds it being compiled and compiles it again, and
`LazyJit` allows that.

## Model

| member | source | states |
|---|---|---|
| Correctness.MethodCorrect | korp_src/ia32_jit/code_gen.cpp:119-1344 | the emitted bytes of a method of the modelled bytecodes, called like any method and run on the machine, return to the caller exactly the words the bytecode returns, drop exactly the arguments, restore ebp, ebx, esi and edi and leave the caller's memory alone, on every run each step of which satisfies `StepExact` |
| Correctness.CallerExists | korp_src/ia32_jit/compile.cpp:72-128 | every method whose frame offsets fit can be called: some machine state meets `Called` |
| Correctness.MethodEntered | korp_src/ia32_jit/compile.cpp:38-50 | from the first byte the prolog leads to the code of pc 0, with the words the caller pushed as the first locals and an empty operand stack |
| Correctness.RunReturns | korp_src/ia32_jit/compile.cpp:52-70 | from any pc whose frame the machine represents, the rest of the run ends in the epilog's return with the returned words in edx:eax |
| Correctness.EpilogRuns | korp_src/ia32_jit/compile.cpp:52-70 | the epilog, from any frame of the method, gives back the caller's stack pointer past the arguments and its ebp |
| EndToEnd.CompileMethod | korp_src/ia32_jit/compile.cpp:194-253 | compiling a method from its descriptor and bytecode succeeds exactly without a fault, in particular whenever the method is within its code budget, and then the returned array, run from its first byte on any caller's state, returns what the bytecode returns on every exact run, and for a plain method on every run |
| EndToEnd.LoadedReturns | korp_src/ia32_jit/compile.cpp:194-253 | the same of any array `Compile` may return |
| EndToEnd.PlainReturns | korp_src/ia32_jit/code_gen.cpp:119-1344 | on a method of modelled bytecodes that is plain no step needs a condition |
| StaticChecks.PlainRun | korp_src/ia32_jit/code_gen.cpp:119-1344 | a condition on the bytecode alone: without negative BIPUSH or SIPUSH operands, I2C, divisions, branches to pc 0, and conditional branches whose fall-through is also reached from elsewhere, every run is exact |
| StaticChecks.NotMissed | korp_src/ia32_jit/code_gen.cpp:692-693 | a conditional branch whose fall-through is reached from nowhere else is compiled before it |
| StaticChecks.SelectTracked | korp_src/ia32_jit/code_gen.cpp:119-158 | every walk, faults among them, places only roots and successors of what it placed, and misses only fall-throughs reached from elsewhere |
| StaticChecks.AbsPlain | korp_src/ia32_jit/code_gen.cpp:664-700 | the condition can be met by a method with a conditional branch |
| EndToEnd.BudgetCompiles | korp_src/ia32_jit/compile.cpp:15-36 | a method within its code budget compiles |
| Calls.CompiledCall | korp_src/ia32_jit/code_gen.cpp:1069-1080 | a call of a compiled method, from the state in which it has pushed its return address: on the arguments the caller left on its operand stack the callee's bytes come back to the return address, and the caller's frame is represented again with the words of the descriptor and the receiver replaced by what the callee's bytecode returns |
| Calls.CallReturns | korp_src/ia32_jit/code_gen.cpp:1036-1047 | conservation across a call, for any callee that returns: its arguments are off the caller's operand stack, its result is on it, everything else in the caller's frame is as before |
| Calls.ArgumentsDropped | korp_src/ia32_jit/compile.cpp:52-70 | the return removes exactly the arguments from the caller's operand stack |
| Calls.ArgumentsArrive | korp_src/ia32_jit/compile.cpp:87-102 | the callee's first locals are the caller's topmost operands in order, the receiver first |
| Calls.CallBalanced | korp_src/ia32_jit/code_gen.cpp:1028-1036 | for every descriptor and either kind of method, the words the caller takes off its compile-time stack are the callee's argument words, and four times as many bytes are the operand of the callee's return |
| Calls.EmitInvokeVirtual | korp_src/ia32_jit/code_gen.cpp:1028-1047 | INVOKEVIRTUAL writes the code that finds the receiver below the words of the descriptor and calls through its class, takes those words and the receiver off the compile-time stack and pushes the result's words |
| Calls.ResultMatches | korp_src/ia32_jit/code_gen.cpp:1037-1047 | the pushes written behind a call are those for the words the callee returns, where its returns leave the words of its descriptor's return type |
| Calls.ResultWidth | korp_src/ia32_jit/code_gen.cpp:1037-1047 | the words pushed for a result type are those a parameter of the type takes, and none for void |
| Calls.ClassOfHeader | korp_src/class/vm_class.h:10-55 | the mask takes exactly the class address, a multiple of 4 below 2^31, out of a header that adds the Java, lock and collector bits to it |
| Calls.VirtualCallReaches | korp_src/ia32_jit/code_gen.cpp:1030-1032 | that code, run, has in eax the class address its receiver's header contains, the receiver being the callee's local 0 |
| Simulation.StepSimulated | korp_src/ia32_jit/code_gen.cpp:159-1344 | one modelled bytecode instruction: the machine gets from the code of its pc to the code of the next pc, representing the locals and operand stack the instruction leaves |
| Simulation.RunSimulated | korp_src/ia32_jit/code_gen.cpp:119-1344 | the same for any number of instructions |
| Simulation.ConditionalPlaceIff | korp_src/ia32_jit/code_gen.cpp:664-753 | a conditional branch gets to the code of the right successor if and only if it is `StepExact`: when taken, its target is not pc 0; when not taken, its fall-through was not compiled before it |
| Simulation.MissedGoesToTarget | korp_src/ia32_jit/code_gen.cpp:692-700 | a branch whose fall-through was compiled before it, and whose target was not, goes to its target whether taken or not |
| Simulation.FinalLink | korp_src/ia32_jit/code_gen.cpp:1325-1343 | behind the template of a straight-line pc is the code of its successor, or a jump that lands there |
| Simulation.StraightRuns | korp_src/ia32_jit/code_gen.cpp:159-660 | a straight-line bytecode, exact or not: the machine gets to the code of the successor with the frame the template makes |
| Simulation.StraightTraps | korp_src/ia32_jit/code_gen.cpp:525-539 | a division by zero, where the bytecode throws, and the overflowing one stop the machine |
| OpcodeMeaning.Constants | korp_src/utils/runtime.h:12-22 | byte by byte: bytes 00 to 0a: nothing, or one constant pushed, a long one as two words |
| OpcodeMeaning.Immediates | korp_src/utils/runtime.h:28-29 | 10 and 11 push one or two operand bytes read as a signed number (the compiled code does not: `Exact`) |
| OpcodeMeaning.LoadsAndStores | korp_src/utils/runtime.h:38-90 | 1a to 1d and 2a to 2d push the local of the number in the opcode, 3b to 3e and 4b to 4e pop into it |
| OpcodeMeaning.IndexedLocals | korp_src/utils/runtime.h:33-70 | 15, 19, 36 and 3a do so with the local of the operand byte |
| OpcodeMeaning.Increment | korp_src/utils/runtime.h:144-144 | 84 adds the signed second operand byte to the local of the first |
| OpcodeMeaning.OneOnTop | korp_src/utils/runtime.h:99-101 | 57 and 59 on a stack that ends in one word |
| OpcodeMeaning.TwoOnTop | korp_src/utils/runtime.h:100-107 | 58, 5a, 5c and 5f on one that ends in two |
| OpcodeMeaning.MoreOnTop | korp_src/utils/runtime.h:103-106 | 5b, 5d and 5e on one that ends in three or four |
| OpcodeMeaning.SumAndDifference | korp_src/utils/runtime.h:108-112 | 60 and 64 leave sum and difference modulo 2^32 |
| OpcodeMeaning.Multiplication | korp_src/utils/runtime.h:116-116 | 68 leaves the signed product, cut to 32 bits |
| OpcodeMeaning.Division | korp_src/utils/runtime.h:120-124 | 6c and 70 throw on a zero divisor; else they leave quotient and remainder, the remainder smaller than the divisor and zero or of the dividend's sign |
| OpcodeMeaning.Negation | korp_src/utils/runtime.h:128-128 | 74 leaves the negative modulo 2^32 |
| OpcodeMeaning.LongNegation | korp_src/utils/runtime.h:129-129 | 75 leaves the two words of the negative modulo 2^64 |
| OpcodeMeaning.BitwiseOps | korp_src/utils/runtime.h:138-142 | 7e, 80 and 82 combine every bit of the two words by and, or, exclusive or |
| OpcodeMeaning.Narrowing | korp_src/utils/runtime.h:157-159 | 91, 92 and 93 keep the low byte with its sign, the low half, the low half with its sign |
| OpcodeMeaning.ZeroTests | korp_src/utils/runtime.h:165-210 | 99, 9a, c6 and c7 go to the target on zero or on another word, else on |
| OpcodeMeaning.SignTests | korp_src/utils/runtime.h:167-170 | 9b, 9c, 9d and 9e go to the target on <, >=, > and <= 0 |
| OpcodeMeaning.EqualityTests | korp_src/utils/runtime.h:171-178 | 9f, a0, a5 and a6 go to the target on equal or different words |
| OpcodeMeaning.OrderTests | korp_src/utils/runtime.h:173-176 | a1, a2, a3 and a4 go to the target on <, >=, > and <= |
| OpcodeMeaning.Jumps | korp_src/utils/runtime.h:179-211 | a7 and c8 go to the target of their two- and four-byte offsets |
| OpcodeMeaning.ReturnsNothing | korp_src/utils/runtime.h:189-189 | b1 returns nothing |
| OpcodeMeaning.ReturnsOne | korp_src/utils/runtime.h:184-188 | ac and b0 return the topmost word |
| OpcodeMeaning.ReturnsTwo | korp_src/utils/runtime.h:185-185 | ad returns the two topmost words in their order on the stack |
| OpcodeMeaning.NoOthers | korp_src/utils/runtime.h:11-211 | no other byte is read as a modelled bytecode |
| TemplateProofs.BodyCorrectIff | korp_src/ia32_jit/code_gen.cpp:159-660 | where the bytecode does not throw, its template does to the represented frame what it means if and only if `Exact` holds: BIPUSH and SIPUSH operands not negative, I2C value below 256, not the overflowing division |
| TemplateProofs.BodyRuns | korp_src/ia32_jit/code_gen.cpp:159-660 | every template takes a machine representing a frame to one representing the frame `CompiledEffect` gives, or traps where it is None |
| TemplateProofs.ExactIff | korp_src/ia32_jit/code_gen.cpp:198-205 | what the templates compute equals the bytecode's effect exactly when `Exact` holds |
| TemplateProofs.ReprUnique | korp_src/ia32_jit/code_gen.cpp:10-24 | a machine state represents at most one frame, so the simulation determines locals and operand stack |
| TemplateProofs.NegateByParts | korp_src/ia32_jit/code_gen.cpp:575-583 | neg, adc 0, neg on the two words is the two's complement of the 64-bit number |
| TemplateProofs.IdivFaults | korp_src/ia32_jit/code_gen.cpp:525-539 | idiv behind cdq traps exactly on a zero divisor and on the one quotient that does not fit |
| TemplateProofs.FlagsCompare | korp_src/ia32_jit/code_gen.cpp:703-735 | the flags a subtraction leaves decide every signed comparison |
| TemplateProofs.FlagsCompareZero | korp_src/ia32_jit/code_gen.cpp:664-684 | the flags `or r, r` leaves decide every comparison with zero |
| TemplateProofs.ConditionalRuns | korp_src/ia32_jit/code_gen.cpp:664-753 | the code before a conditional jump drops the operands and leaves the flags of the comparison |
| TemplateProofs.ReturnRuns | korp_src/ia32_jit/code_gen.cpp:859-876 | the code before a return's jump leaves the returned words in eax and edx:eax |
| TemplateProofs.Dup2Body | korp_src/ia32_jit/code_gen.cpp:460-495 | the slot moves of DUP2, DUP2_X1 and DUP2_X2 give the stacks the instructions specify |
| TemplateProofs.DupBody | korp_src/ia32_jit/code_gen.cpp:436-459 | the same for DUP, DUP_X1 and DUP_X2 |
| Placement.SelectPlaced | korp_src/ia32_jit/code_gen.cpp:148-158 | the walk keeps what was placed, places each pc once and apart from all others, and places all successors of what it visits, falling through or linked by a jump unless missed |
| Reachability.VisitsExactlyReachable | korp_src/ia32_jit/code_gen.cpp:119-158 | code is selected for exactly the pcs reachable from the entry and the handlers |
| Reachability.EntryAndHandlersPlaced | korp_src/ia32_jit/compile.cpp:219-232 | without a fault the entry and every exception handler have code |
| Reachability.BodyPlanPlaced | korp_src/ia32_jit/compile.cpp:219-232 | in the plan of a whole method everything placed flows to its successors and pc 0 is right behind the prolog |
| Patching.BranchLandsIff | korp_src/ia32_jit/compile.cpp:236-248 | after the patch loop a branch lands on the native start of its target if and only if the target is not pc 0 |
| Patching.FallsThroughIff | korp_src/ia32_jit/code_gen.cpp:692-693 | the fall-through of a conditional branch is right behind it if and only if it was not compiled before |
| Patching.PatchUpToAt | korp_src/ia32_jit/compile.cpp:236-248 | the patch loop changes only displacements of recorded branches, each to the distance between its end and its target, and moves no instruction |
| Patching.DisplacementExact | korp_src/ia32_jit/compile.cpp:239-241 | no displacement overflows: it is the exact distance in bytes |
| Room.BodyBytes | korp_src/ia32_jit/compile.cpp:23-24 | no template of a modelled bytecode emits more than 95 bytes, so the 100 bytes promised hold it and the jump behind it |
| Room.BodyPlanRoomy | korp_src/ia32_jit/compile.cpp:15-36 | for a method of any length whose walk meets no fault all code lies in the buffer and 100 bytes are free after every step |
| Budget.BudgetSuffices | korp_src/ia32_jit/compile.cpp:15-36 | a condition to check before compiling: if the prolog, the templates of all pcs, and five bytes for each straight-line pc whose successor is also reached from elsewhere leave 100 bytes of the first buffer, the walk meets no fault, keeps that buffer and emits no more |
| Budget.ReturnWithinBudget | korp_src/ia32_jit/compile.cpp:15-36 | the condition can be met: a method of one return bytecode needs 19 of 200 bytes |
| Budget.SelectReady | korp_src/ia32_jit/code_gen.cpp:119-158 | every step of a walk keeps that budget |
| Budget.BodyStaleIff | korp_src/ia32_jit/code_gen.cpp:754-774 | compilation goes on with a stale buffer pointer if and only if the walk places a goto before an unplaced target, or a straight-line pc before a placed one, whose template leaves fewer than 100 bytes of a buffer that can be doubled |
| Budget.StaleIff | korp_src/ia32_jit/code_gen.cpp:1325-1343 | the same for a walk from any pc and any plan |
| Room.SetBufRoomy | korp_src/ia32_jit/compile.cpp:23-33 | one doubling always suffices, and fails exactly when the length no longer fits the 15-bit field of an array header |
| Compiler.Jit.SelectCode | korp_src/ia32_jit/code_gen.cpp:119-1344 | for the modelled bytecodes, the loop and recursion over the instruction pointer, with the visited marks, offset tables, mimic depth and buffer it updates, computes the plan `Select` describes |
| Compiler.Jit.CodebufSet | korp_src/ia32_jit/compile.cpp:15-36 | all bytes below the position are preserved, 100 bytes are free, and the length doubles exactly when they were not |
| Compiler.Jit.AfterGoto | korp_src/ia32_jit/code_gen.cpp:754-774 | a goto goes on with its target, stops if that is compiled, and faults when its buffer pointer has just been replaced |
| Compiler.Jit.AfterStraight | korp_src/ia32_jit/code_gen.cpp:1325-1343 | a straight-line instruction goes on with its successor, by a jump if that is compiled already |
| Compiler.Jit.EmitLink | korp_src/ia32_jit/code_gen.cpp:1334-1338 | the jump back has the distance to the recorded native offset of the successor |
| Generator.Compile | korp_src/ia32_jit/compile.cpp:194-253 | compilation succeeds exactly when no fault occurs, and then the code array starts with the bytes of the final code |
| Generator.PatchLoop | korp_src/ia32_jit/compile.cpp:236-248 | the loop over the branch records writes the displacements `PatchUpTo` describes into the emitted bytes |
| Generator.SelectRoots | korp_src/ia32_jit/compile.cpp:217-229 | the entry and then every handler are walked, each with its stack depth |
| Generator.GenProlog | korp_src/ia32_jit/compile.cpp:38-50 | the prolog's bytes, then a buffer with 100 bytes free |
| Generator.GenEpilog | korp_src/ia32_jit/compile.cpp:52-70 | the epilog's bytes behind the code, the return dropping four bytes for each parameter word of the descriptor and four for the receiver unless the method is static |
| Generator.PatchBytes | korp_src/ia32_jit/compile.cpp:239-241 | a patched jump differs from its placeholder in its last four bytes only |
| CodeGen.EmitBody | korp_src/ia32_jit/code_gen.cpp:159-1317 | the switch over the modelled opcodes writes exactly the template of the instruction and moves the mimic depth by what the instruction pops and pushes |
| CodeGen.EmitDup2 | korp_src/ia32_jit/code_gen.cpp:460-495 | the emission of the two-word duplications through the slot tables |
| CodeGen.EmitArith | korp_src/ia32_jit/code_gen.cpp:504-574 | the emission of int arithmetic, division, remainder and negation |
| CodeGen.EmitConditional | korp_src/ia32_jit/code_gen.cpp:664-735 | the emission of the compare-and-branch templates with the condition code of the opcode |
| Frame.PrepareStackframe | korp_src/ia32_jit/compile.cpp:72-128 | from the descriptor and the static flag, the offset tables and the frame size the loops fill in, each cut to 16 bits |
| Frame.StoredExact | korp_src/ia32_jit/compile.cpp:72-128 | the stored offsets are the real ones if and only if the frame's offsets fit 16 bits |
| Frame.SlotsDisjoint | korp_src/ia32_jit/compile.cpp:72-128 | arguments, other locals, saved words and operand slots are pairwise different words inside the frame |
| Frame.SlotAt | korp_src/ia32_jit/compile.cpp:72-128 | every word of the frame, from the lowest operand slot to the first argument, is one of those slots |
| Counterexamples.MissedFallThroughReturnsWrong | korp_src/ia32_jit/code_gen.cpp:692-700 | a method of fifteen bytes returns 1 and its compiled code returns 2 |
| Counterexamples.BranchToZeroReturns | korp_src/ia32_jit/compile.cpp:238-238 | goto 0 runs forever and its compiled code returns to the caller |
| Counterexamples.ZeroJumpGoesOn | korp_src/ia32_jit/compile.cpp:238-238 | any jump to pc 0 keeps displacement 0 and goes on behind itself |
| Counterexamples.StaleBufferReached | korp_src/ia32_jit/code_gen.cpp:764-770 | a method of thirteen bytes during whose compilation the buffer is replaced right behind a goto, after which the walk writes through a stale pointer |
| TemplateShortfalls.BipushReturnsUnsigned | korp_src/ia32_jit/code_gen.cpp:198-201 | bipush of any negative operand: the bytecode returns it, the compiled code 256 more |
| TemplateShortfalls.SipushReturnsUnsigned | korp_src/ia32_jit/code_gen.cpp:202-205 | the same of sipush, 65536 more |
| TemplateShortfalls.CharReturnsByte | korp_src/ia32_jit/code_gen.cpp:616-620 | i2c of any value from 256 up: the bytecode returns it, the compiled code its low byte |
| TemplateShortfalls.DivideTraps | korp_src/ia32_jit/code_gen.cpp:525-539 | the smallest int divided by -1: the bytecode returns it, the compiled code stops |
| Encoding.DecodeEncode | korp_src/ia32_jit/x86.cpp:308-605 | decoding the bytes of any instruction the compiler uses, 8-bit and 16-bit moves among them, followed by anything, gives back the instruction and its length |
| Encoding.MemRoundTrip | korp_src/ia32_jit/x86.cpp:120-182 | memory operands decode to themselves: the SIB byte an esp base needs, one-byte and four-byte displacements, scaled index |
| OpcodeBytes.RegistersInOpcode | korp_src/ia32_jit/x86.cpp:478-516 | 50 to 57 push, 58 to 5f pop and 48 to 4f decrement eax, ecx, edx, ebx, esp, ebp, esi, edi |
| OpcodeBytes.OneRegister | korp_src/ia32_jit/x86.cpp:265-294 | f7 d8 to f7 df negate them |
| OpcodeBytes.CallRegister | korp_src/ia32_jit/x86.cpp:533-551 | ff d0 to ff d7 call through them |
| OpcodeBytes.JumpRegister | korp_src/ia32_jit/x86.cpp:571-592 | ff e0 to ff e7 jump through them |
| OpcodeBytes.Moves | korp_src/ia32_jit/x86.cpp:308-388 | 89 moves between registers, b8 to bf load an immediate |
| OpcodeBytes.LittleEndian | korp_src/ia32_jit/x86.cpp:95-118 | immediates and displacements are four bytes, the lowest first, negative ones in two's complement |
| OpcodeBytes.TwoRegisters | korp_src/ia32_jit/x86.h:84-84 | 01, 09, 11, 19, 21, 29, 31 and 39 are add, or, adc, sbb, and, sub, xor and cmp of two registers |
| OpcodeBytes.AccumulatorImmediate | korp_src/ia32_jit/x86.cpp:212-263 | 05 to 3d are the same of eax and an immediate |
| OpcodeBytes.RegisterImmediate | korp_src/ia32_jit/x86.cpp:212-263 | 81 c0 to 81 ff those of another register and an immediate |
| OpcodeBytes.MultiplyDivide | korp_src/ia32_jit/x86.h:102-102 | f7 e0 to f7 ff are mul, imul, div and idiv, 99 is cdq |
| OpcodeBytes.KnownInstructions | korp_src/ia32_jit/x86.cpp:212-263 | 29 c1 is sub ecx, eax; 09 c0 or eax, eax; 89 e5 and 89 ec set up and take down a frame |
| OpcodeBytes.LoadBase | korp_src/ia32_jit/x86.cpp:120-182 | 8b with a base register: 40 plus the register numbers and one displacement byte, or 80 and four |
| OpcodeBytes.LoadStack | korp_src/ia32_jit/x86.cpp:120-182 | 8b with base esp: 44 or 84, the byte 24, the displacement |
| OpcodeBytes.LoadScaled | korp_src/ia32_jit/x86.cpp:120-182 | 8b with a scaled index: 44 or 84, the SIB byte, the displacement |
| OpcodeBytes.MemoryMoves | korp_src/ia32_jit/x86.cpp:308-388 | 89 stores, and 66 in front of either moves 16 bits, with the operand bytes of the load |
| OpcodeBytes.ByteMoves | korp_src/ia32_jit/x86.cpp:308-388 | 8a and 88 move al, cl, dl, bl, ah, ch, dh, bh |
| OpcodeBytes.MemoryArithmetic | korp_src/ia32_jit/x86.cpp:212-263 | the eight operations on memory and a register, either way |
| OpcodeBytes.MemoryImmediate | korp_src/ia32_jit/x86.cpp:212-263 | 81 /0 to 81 /7 are the eight operations on memory and an immediate |
| OpcodeBytes.MemoryMultiply | korp_src/ia32_jit/x86.cpp:414-431 | f7 /4 to f7 /7 multiply and divide by memory |
| OpcodeBytes.OneMemoryOperand | korp_src/ia32_jit/x86.cpp:265-498 | f7 /3 negates memory, ff /6 pushes it |
| OpcodeBytes.TransferOperand | korp_src/ia32_jit/x86.cpp:533-592 | ff /2 calls and ff /4 jumps through memory |
| OpcodeBytes.Extensions | korp_src/ia32_jit/x86.cpp:594-605 | 0f b6, b7, be, bf: zero and sign extension of a byte and of 16 bits |
| OpcodeBytes.ConditionalJumps | korp_src/ia32_jit/x86.h:125-140 | 74, 75, 7c, 7d, 7e, 7f, or 0f and 10 more, jump on equal, unequal, less, not less, not greater, greater |
| OpcodeBytes.JumpsAndCalls | korp_src/ia32_jit/x86.cpp:478-592 | e9 jumps, e8 calls, 68 pushes an immediate |
| OpcodeBytes.ReturnsAndShortJump | korp_src/ia32_jit/x86.cpp:518-592 | c3 returns, c2 with a 16-bit operand, eb jumps within 128 bytes |
| CodeStream.DecodeStream | korp_src/ia32_jit/x86.cpp:308-605 | every instruction of any emitted sequence decodes at its byte offset |
| CodeStream.RunBlockAt | korp_src/ia32_jit/x86.cpp:308-605 | running a block's bytes inside any code is running the block |
| CodeStream.EncodeAllUpdate | korp_src/ia32_jit/compile.cpp:239-241 | replacing an instruction by one of the same length changes only its own bytes |
| Emitter.MemInst | korp_src/ia32_jit/x86.cpp:120-182 | writes ModR/M, SIB and displacement bytes behind what is there |
| Emitter.Mov | korp_src/ia32_jit/x86.cpp:308-388 | writes one mov behind the listing emitted so far: 32, 16 or 8 bits wide, between registers and memory, or of an immediate into a register |
| Emitter.BinAlu | korp_src/ia32_jit/x86.cpp:212-263 | writes one two-operand instruction, in the short form for eax and an immediate |
| Emitter.UniAlu | korp_src/ia32_jit/x86.cpp:265-294 | writes one negation or register decrement |
| Emitter.MulDivide | korp_src/ia32_jit/x86.cpp:414-431 | writes one multiplication or division |
| Emitter.PushOpnd | korp_src/ia32_jit/x86.cpp:478-498 | writes one push of a register, immediate or memory word |
| Emitter.PopOpnd | korp_src/ia32_jit/x86.cpp:500-516 | writes one pop of a register |
| Emitter.Return | korp_src/ia32_jit/x86.cpp:518-531 | writes a return; with an operand the position returned is two bytes short of what was written |
| Emitter.Call | korp_src/ia32_jit/x86.cpp:533-551 | writes one call |
| Emitter.Branch | korp_src/ia32_jit/x86.cpp:553-569 | writes one conditional jump, short or near |
| Emitter.Jump | korp_src/ia32_jit/x86.cpp:571-592 | writes one jump |
| Emitter.WidenToFull | korp_src/ia32_jit/x86.cpp:594-605 | writes one sign or zero extension |
| Hierarchy.DispatchIff | korp_src/class/class_prepare.cpp:144-297 | all calls at once: calling any ancestor's method through its slot in the table of a class runs the most derived non-static method with its signature, if and only if no class of the chain redeclares an inherited package-private method |
| Hierarchy.CallIff | korp_src/class/class_prepare.cpp:144-297 | one virtual call: through the slot of an ancestor's method the most derived method with its signature runs, if and only if no class below that ancestor redeclares the signature while its superclass's first slot with it is package-private |
| Hierarchy.CallRunsOld | korp_src/class/class_prepare.cpp:164-169 | below such a redeclaration the slot still holds a method from above it |
| Hierarchy.ConstructorsClash | korp_src/class/class_prepare.cpp:269-288 | two classes whose package-private constructors clash: every call of another method is right all the same |
| Hierarchy.SlotKeepsSignature | korp_src/class/class_prepare.cpp:206-250 | a slot keeps its signature down the whole chain |
| Hierarchy.SlotsHold | korp_src/class/class_prepare.cpp:252-297 | no slot is empty: each holds a non-static method of the class or an ancestor whose own slot it is |
| Hierarchy.VtableAt | korp_src/class/class_prepare.cpp:206-250 | a slot of a class is its superclass's unless exactly one of its own methods has it |
| Hierarchy.SlotInjective | korp_src/class/class_prepare.cpp:252-297 | different methods of a class get different slots |
| Hierarchy.NoClashLookup | korp_src/class/class_prepare.cpp:144-178 | without such a redeclaration every slot holds what the lookup of its signature finds |
| Hierarchy.ClashMismatch | korp_src/class/class_prepare.cpp:164-169 | below such a redeclaration a slot keeps the old method for good while the lookup finds a newer one |
| Hierarchy.FirstMatchIff | korp_src/class/class_prepare.cpp:322-329 | for each signature: the first slot that has it holds what the lookup finds if and only if no class of the chain redeclares it while its superclass's first slot with it is package-private |
| Hierarchy.ImplementedIff | korp_src/class/class_prepare.cpp:322-328 | a slot with the signature exists exactly when the lookup finds a method |
| Hierarchy.PackagePrivateNotOverridden | korp_src/class/class_prepare.cpp:158-169 | two classes on which a package-private method is not overridden |
| ClassPrepare.OverrideSuperclassMethod | korp_src/class/class_prepare.cpp:144-178 | found exactly when the first slot with the signature is not package-private, and then the method gets that slot's offset |
| ClassPrepare.PrepareMethods | korp_src/class/class_prepare.cpp:252-297 | every method gets the offset of its slot, and the tables of a class hold the method objects and codes of `Vtable`, the superclass's tables unchanged |
| ClassPrepare.PrepareInstanceVtable | korp_src/class/class_prepare.cpp:206-250 | copying the superclass's tables and writing the own methods over them fills every slot |
| ClassPrepare.PlaceMethod | korp_src/class/class_prepare.cpp:274-288 | one turn of the offset loop |
| ClassPrepare.OwnNotInherited | korp_src/class/class_prepare.cpp:252-297 | the method objects whose offsets are written are not in the superclass's table |
| LazyJit.SlotRunsItsMethod | korp_src/ia32_jit/jit_support.cpp:41-101 | after any interleaving of preparations and compilations a call through a slot runs the method the table names, and an inherited method is still called through its stub |
| LazyJit.VirtualCallRunsLookup | korp_src/ia32_jit/jit_support.cpp:50-101 | after any such run a virtual call runs what the lookup finds, if and only if no class below the one named clashes on the signature |
| Dispatch.VirtualCallRuns | korp_src/ia32_jit/code_gen.cpp:1030-1035 | the code in front of a virtual call, run on a receiver of any class after any such run, leaves the place of the word the call reads, which is the address of the code of that method |
| LazyJit.WriteHits | korp_src/ia32_jit/jit_support.cpp:41-48 | the word `method_update_vtable` writes is the method's own slot, or for a static method the first word of its class object |
| LazyJit.PrepareCoherent | korp_src/class/class_loader.cpp:74-108 | preparing and packing a class keeps every table coherent; the table subclasses copy from holds stubs only |
| LazyJit.PublishCoherent | korp_src/ia32_jit/jit_support.cpp:93-101 | writing a compiled method's code to its owner keeps every table coherent |
| LazyJit.PublishedCodeStays | korp_src/ia32_jit/jit_support.cpp:88-101 | in any run, once an instance method's code is published, and until it is compiled again, its slot holds the code of its last compile in that run, whatever else is prepared, compiled and published |
| InterfaceTable.DedupExactIff | korp_src/class/class_prepare.cpp:404-416 | the duplicate elimination keeps the set of interfaces if and only if `Keeps` holds, and whatever it gives has no duplicate |
| InterfaceTable.EliminateDuplicates | korp_src/class/class_prepare.cpp:404-417 | the three nested loops, in place, compute `Dedup`, or stop where they would read before the table |
| InterfaceTable.DedupSpoils | korp_src/class/class_prepare.cpp:404-416 | [A, B, B] ends empty and [A, A] reads before the table |
| InterfaceTable.DedupIdentity | korp_src/class/class_prepare.cpp:404-416 | a table without duplicates is left as it is |
| InterfaceTable.ShrinkElems | korp_src/class/class_prepare.cpp:407-412 | what one replacement loses, exactly |
| Interfaces.InterfaceNamedAgain | korp_src/class/class_prepare.cpp:404-416 | a class naming an interface its superclass implements: the elimination reads before the table |
| Interfaces.InterfacesLost | korp_src/class/class_prepare.cpp:404-416 | the same with another interface in front: the table ends empty |
| Interfaces.AllExactIff | korp_src/class/class_prepare.cpp:344-433 | the tables of a class and of everything it reaches hold exactly the interfaces reached, each once, if and only if no elimination among them loses an entry |
| Interfaces.TableExactIff | korp_src/class/class_prepare.cpp:344-433 | the same for one class whose parts have exact tables |
| Interfaces.DisjointKeep | korp_src/class/class_prepare.cpp:344-433 | if no interface is reached through two parts of a class, here or further up, no elimination loses an entry and all tables are exact |
| Interfaces.PrepareInterfaces | korp_src/class/class_prepare.cpp:344-433 | counting, copying and eliminating gives `Table` |
| Interfaces.InterfaceMethodTable | korp_src/class/class_prepare.cpp:314-332 | the table of one interface holds for each method the method object of the first slot with its signature, and is built exactly when the assertions hold |
| Interfaces.PrepareInterfaceTable | korp_src/class/class_prepare.cpp:299-342 | the tables of all interfaces of a class are built exactly when the assertions hold for each; for a concrete class, exactly when each interface has its class initializer last and all its methods implemented |
| Interfaces.AllOkIff | korp_src/class/class_prepare.cpp:317-332 | the assertions hold for one interface of a concrete class exactly under that condition |
| Interfaces.InvokeInterface | korp_src/ia32_jit/code_gen.cpp:1133-1147 | the code an interface call ends in is that of the method the lookup finds, if and only if no class of the chain clashes on the signature |
| Interfaces.GetInterfaceMethodOffset | korp_src/class/class_utils.cpp:170-186 | the offset of the method object found through the interface's position and the method's offset, which is that of the first slot with the method's signature in the receiver's class |
| Interfaces.InterfaceCallRunsLookup | korp_src/class/class_prepare.cpp:299-342 | on a concrete class with an exact table, every interface in it with its class initializer last and all methods implemented: all tables are built, and an interface call leads through the method's offset to what the lookup finds, if and only if no class of the chain clashes on the signature |
| Interfaces.InterfaceCallRunsOld | korp_src/class/class_prepare.cpp:322-329 | a class whose public method implements an interface and redeclares a package-private method: the interface call runs the superclass's |
| Interfaces.PositionsIff | korp_src/class/class_prepare.cpp:320-331 | every offset is that of the method's position, as the assertion demands, if and only if the class initializer is declared last |
| Interfaces.IsSubclass | korp_src/class/class_utils.cpp:54-64 | true exactly on the superclass chain |
| Interfaces.JavaInstanceofClass | korp_src/utils/utils.cpp:405-433 | true exactly when the target is on the superclass chain or, for an interface, reached; which is when it is in the interface table, if no elimination lost an entry |
| FieldLayout.PrepareFields | korp_src/class/class_prepare.cpp:43-121 | static fields tile the static data, instance fields the bytes behind the superclass's up to the instance size, which is the superclass's and the bytes of the fields; of each kind the references are exactly the first words, and fields alike in that lie in the order of the class file; fails exactly on a type without a size; the static count counts all static fields |
| FieldLayout.StaticRefsIff | korp_src/class/class_prepare.cpp:62-89 | the count of static references is right if and only if the number of static fields that are no references is a multiple of 256 |
| FieldLayout.StaticIntCounted | korp_src/class/class_prepare.cpp:75-89 | a class with one static int has the count 1 |
| FieldLayout.PrepareChain | korp_src/class/class_prepare.cpp:43-142 | a chain of any number of classes, prepared from the root down, is laid out unless a field's type has no size, each class with its references first and its fields in order; the last instance size is the header and the bytes of all instance fields |
| FieldLayout.FieldsDisjoint | korp_src/class/class_prepare.cpp:92-117 | no two instance fields of a superclass chain of any depth share a byte |
| FieldLayout.BytesTaken | korp_src/class/class_prepare.cpp:92-117 | every byte behind the object header up to the instance size belongs to a field of the chain |
| FieldLayout.FieldInside | korp_src/class/class_prepare.cpp:57-60 | a class's own fields lie behind its superclass's |
| FieldLayout.RefsCounted | korp_src/class/class_prepare.cpp:92-118 | the reference count is that of the whole chain, in one byte |
| FieldLayout.AggregatedIff | korp_src/class/vm_class.h:34-35 | the counted references are exactly the first words of an object, as the count is meant, if and only if no class of the chain with a reference has a superclass with another instance field |
| FieldLayout.ReferenceBehindInt | korp_src/class/class_prepare.cpp:57-117 | a class with a reference below one with an int: the one reference counted is the second word |
| FieldLayout.RefsAreFirst | korp_src/class/class_prepare.cpp:62-117 | a class's own references are exactly the words from where its fields start |
| FieldLayout.FieldsOrdered | korp_src/class/class_prepare.cpp:62-117 | references in front of other fields, fields alike in that in the order of the class file |
| FieldLayout.SizeHoldsValues | korp_src/utils/utils.cpp:34-60 | a field has the fewest bytes that tell the values of its type apart |
| FieldLayout.LayPass | korp_src/class/class_prepare.cpp:62-90 | one pass: the chosen fields lie one behind the other from the start, in order, and extend the tiling, the others keep their offsets |
| ClassInitialize.EveryRun | korp_src/class/class_initialize.cpp:33-101 | in every run no call throws, every class asked for is done at the end, and done are exactly the classes needed: in every set that holds the ones asked for and with a class its superclass and all its initializer uses; each is entered and completed, initializers run exactly for those that have one, none twice; an initializer starts after its superclass's initialization, and a class completes after everything its initializer asked for is done or was in progress |
| ClassInitialize.RunAllOk | korp_src/class/class_initialize.cpp:83-83 | a sequence of calls keeps the protocol, and each class called is then done or in progress |
| ClassInitialize.CallsInOrder | korp_src/class/class_initialize.cpp:83-83 | the calls of a sequence are made in order: a run of two sequences is the second run behind the first |
| ClassInitialize.EarlierCallsSettled | korp_src/class/class_initialize.cpp:83-83 | when a call is made, every class called before is entered |
| ClassInitialize.DoneClosed | korp_src/class/class_initialize.cpp:67-83 | behind any run, with a class its superclass and all its initializer uses are done |
| ClassInitialize.InitializeOk | korp_src/class/class_initialize.cpp:33-101 | a call never throws, keeps the protocol and whatever is in progress, and ends with the class done unless it was in progress |
| ClassInitialize.Initialize | korp_src/class/class_initialize.cpp:33-101 | terminates because every call leaves fewer classes neither in progress nor done |
| ClassInitialize.StartOkNow | korp_src/class/class_initialize.cpp:67-82 | when an initializer starts, every superclass is in progress or done, and the direct one done unless it was in progress before |
| ClassInitialize.Initializer.ClassInitialize | korp_src/class/class_initialize.cpp:33-101 | the procedure on the state bits, flags and log computes `Initialize` |
| Utf8.UnpackPack | korp_src/utils/utils.cpp:216-270 | unpacking undoes packing for every sequence of 16-bit units, and the packed text has no zero byte and is well formed |
| Utf8.PackUnpackIff | korp_src/utils/utils.cpp:216-270 | packing undoes unpacking if and only if the text is well-formed shortest form |
| Utf8.PackInjective | korp_src/utils/utils.cpp:216-242 | different unit sequences have different packed texts |
| Utf8.PackedForms | korp_src/utils/utils.cpp:216-242 | the one-, two- and three-byte forms, the bits of a unit from the highest on spread over the bytes, and c0 80 for zero |
| Utf8.PackUtf8 | korp_src/utils/utils.cpp:216-242 | the loop writes the packed units and a zero byte |
| Utf8.UnpackUtf8 | korp_src/utils/utils.cpp:244-270 | the loop writes the units up to the zero byte |
| Utf8.GetUtf8Length | korp_src/utils/utils.cpp:198-214 | the number of bytes packing writes, cut to 16 bits |
| Utf8.GetUnicodeLength | korp_src/utils/utils.cpp:177-196 | the number of units unpacking writes, cut to 16 bits |
| Interning.StringPool.Lookup | korp_src/class/string_pool.cpp:18-61 | the pool maps a text to one string object, which a lookup finds or adds, exactly for texts of at most 32766 bytes |
| Interning.StringPool.LookupAll | korp_src/class/string_pool.cpp:18-61 | over any history of lookups equal texts give the same object and different texts different objects |
| Interning.StringPool.Remove | korp_src/class/string_pool.cpp:63-85 | the text is no longer in the pool, all others are |
| Interning.FindText | korp_src/class/string_pool.cpp:35-41 | the walk along a chain finds the text if it is there |
| Interning.RecordedLengthIff | korp_src/class/string_pool.cpp:48-51 | the length a string object is recorded with is the text's up to 32766 bytes and at 65535; one byte above the limit it reads 65535, so the text is not found again |
| Interning.GetCharsHash | korp_src/utils/utils.cpp:157-167 | the bucket, with the sum cut to 16 bits, and the length cut to 16 bits |
| Interning.HashTail | korp_src/utils/utils.cpp:157-167 | the key of a text counts twice for each byte behind it |
| Interning.LongTextsShareBuckets | korp_src/utils/utils.cpp:157-167 | only the last fifteen bytes of a text decide its bucket |
| Interning.ClassTable.Search | korp_src/class/class_table.cpp:14-31 | finds the class the table maps the name object to |
| Interning.ClassTable.Insert | korp_src/class/class_table.cpp:33-59 | the first class inserted under a name stays |
| Interning.ClassTable.Remove | korp_src/class/class_table.cpp:61-82 | the name is no longer in the table, all others are |
| Descriptors.DescriptorRead | korp_src/class/method.cpp:46-135 | on every descriptor both parsers succeed and see the words of the parameter types and the return type's first character |
| Descriptors.GetParamNumSize | korp_src/class/method.cpp:46-89 | on every string not read past its end: succeeds exactly when the other parser does, with the same parameters and four bytes for each of its words |
| Descriptors.GetParamInfo | korp_src/class/method.cpp:91-135 | on every string not read past its end: the words and the return type's first character, succeeding exactly when the other parser does |
| Descriptors.ParamRead | korp_src/class/method.cpp:53-78 | one parameter of any type, arrays of any depth among them, is read to its end |
| Bridges.PushLoopRuns | korp_src/ia32_jit/jit_runtime.cpp:46-63 | the generated loop, run on its bytes in any code, ends for any number of words having pushed exactly those in order, all else unchanged |
| Bridges.BridgeReachesCall | korp_src/ia32_jit/jit_runtime.cpp:29-65 | from its first byte the bridge comes to its call with the arguments pushed below the four saved registers |
| Bridges.BridgeStores | korp_src/ia32_jit/jit_runtime.cpp:66-71 | behind the callee's return the word in eax goes to the caller's first variable, the word in edx to the second, and the bridge comes to its call for the pending exception |
| Bridges.BridgeTests | korp_src/ia32_jit/jit_runtime.cpp:72-80 | behind that call, without an exception the stack pointer stays; with one the bytes of arguments the caller gave are dropped |
| Bridges.BridgeHandsBack | korp_src/ia32_jit/jit_runtime.cpp:72-86 | from there to the caller: its variables hold the two words, its registers and stack pointer are back, with an exception and without |
| Bridges.BridgeReturns | korp_src/ia32_jit/jit_runtime.cpp:82-86 | from its pops, the frame intact, the bridge returns to its caller with the registers restored |
| Bridges.WrapperReachesCall | korp_src/ia32_jit/jit_runtime.cpp:130-189 | the wrapper comes to its call with argument k at esp + 4k (the class in front for a static method), the caller's words intact |
| Bridges.WrapperReturns | korp_src/ia32_jit/jit_runtime.cpp:190-190 | its return drops exactly the arguments |
| Bridges.CopiesRun | korp_src/ia32_jit/jit_runtime.cpp:132-181 | the copies made so far are the first arguments in reverse order, nothing at the stack pointer or above changed |

## Left out

- Correctness.MethodCorrect: covers the int and reference bytecodes without field access, calls, arrays, allocation and exceptions, and LNEG and LCONST as the only long ones; `StepExact` is its condition on each step.
- Simulation.StepSimulated: the same bytecodes.
- Simulation.RunSimulated: the same bytecodes.
- Room.BodyBytes: bounds the templates of those bytecodes only.
- Bytecodes that stop at an assertion in the source, JSR, RET, the switches, and long, float and double arithmetic.
- Calls.CompiledCall: the call instruction itself is the push of its return address; the machine does not run caller and callee in one code, so a method that contains calls is not part of the simulation. Of the call templates only INVOKEVIRTUAL's is emitted; resolving and initializing the callee's class at compile time is left out.
- Budget.BudgetSuffices: sufficient, not necessary; it counts every pc in `depths` and no growth of the buffer, which is harmless behind a conditional branch or a return.
- The reference tags of the mimic stack; only its depth is modelled.
- Flags after multiplication and division, which the templates never read, keep their values in `X86`.
- Memory is words at aligned addresses: the widening reads are part of a word, and the 8-bit and 16-bit moves, which the array and field templates use, are encoded and decoded but not run.
- Encoder forms that do not match the architecture: absolute memory operands, 16-bit stores from eax, pops to memory, and a register move from eax, which `mov` takes for a pointer. `Encodable` excludes them.
- Compiler.Jit.SelectCode: where the source would go on with a stale pointer or an oversized buffer, the method stops and reports failure.
- Emitter.Mov: stores of immediates, byte immediates and absolute addresses are not among the modelled forms. Each emitter asks for 11 free bytes, the longest form; `Room` shows that the code generator always has them.
- Interning.StringPool.Lookup: for a text too long for its array the source writes past the array, and of a text of 65536 bytes or more, which no constant pool holds, it stores a part; the method reports failure for both. Chains are sequences, so the relinking of single entries is not modelled.
- Utf8.GetUnicodeLength: the loops are modelled on buffers that unpack; elsewhere the source stops at an assertion or reads behind the buffer.
- Utf8.PackUtf8: the caller's 256-byte buffer is not part of the model; the method asks for a buffer that is long enough.
- Descriptors.GetParamNumSize: on malformed descriptors that make the source read behind the string or through a null pointer (`Lost`) nothing is said.
- ClassPrepare.PrepareMethods: offsets are taken to fit 16 bits, as they do for tables of up to 16357 slots; the flag that a method is overridden, which nothing reads, is not modelled. The table fields are sequences.
- LazyJit.SlotRunsItsMethod: steps are atomic and the machine code of the stub is not run; native methods count as compiled ones, and packing a class with its table is part of preparing it.
- Interfaces.PrepareInterfaces: works on class values; `InfoHolds` relates its table to the class objects `PrepareInterfaceTable` reads.
- Interfaces.InterfaceMethodTable: in an abstract class without an implementation the source keeps the last slot looked at, of which nothing is promised.
- Interfaces.JavaInstanceofClass: classes that are not arrays; for arrays the source assigns where it means to compare.
- FieldLayout.PrepareFields: sizes are taken to fit 16 bits; constant values of static fields are not copied. Nothing in the repository reads the count of references; `Aggregated` is what the comments on it say it stands for.
- ClassInitialize.EveryRun: one thread; an initializer is the sequence of initializations its one run triggers, and no exception is ever pending, as in the source.
- Bridges.BridgeReachesCall: the code is given as a list and run on its bytes; the emission into the 60-byte arrays is not modelled.
- Bridges.WrapperReachesCall: one-word arguments only; the words of longs and doubles are copied to other places by the source.
- Files, the class path, class file parsing, natives, allocation and garbage collection, exceptions and handlers being entered, threads.
- `load_class` as a whole, whose circularity test never applies because a class enters the table last.
