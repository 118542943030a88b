/** From a method's descriptor and bytecode to the returned words: `compile` and the machine joined. */
module EndToEnd {
  import opened Wrappers
  import opened Words
  import opened X86
  import opened Encoding
  import opened CodeStream
  import opened Bytecode
  import opened Frame
  import opened Templates
  import opened FrameProofs
  import opened Placement
  import opened Reachability
  import opened Room
  import opened Budget
  import opened Patching
  import opened Simulation
  import opened StaticChecks
  import opened Correctness
  import opened Generator

  /** The bytes, called like any method, return what the bytecode returns on every exact run. */
  ghost predicate ReturnsLike(m: Method, depths: map<nat, nat>, code: seq<Byte>)
    requires Verified(m, depths)
  {
    forall c, steps ::
      Called(m, c) && Typed(m, depths, 0, EntryVars(m, c)) && ExactRun(m, depths, 0, EntryVars(m, c), steps)
      && JavaRun(m, depths, 0, EntryVars(m, c), steps).Finished? ==>
        c.esp in c.mem && ComesBack(m, code, c, JavaRun(m, depths, 0, EntryVars(m, c), steps).words)
  }

  /** The same on every run, whatever its steps. */
  ghost predicate ReturnsAlways(m: Method, depths: map<nat, nat>, code: seq<Byte>)
    requires Verified(m, depths)
  {
    forall c, steps ::
      Called(m, c) && Typed(m, depths, 0, EntryVars(m, c))
      && JavaRun(m, depths, 0, EntryVars(m, c), steps).Finished? ==>
        c.esp in c.mem && ComesBack(m, code, c, JavaRun(m, depths, 0, EntryVars(m, c), steps).words)
  }

  ghost predicate ComesBack(m: Method, code: seq<Byte>, c: Cpu, words: seq<Word>)
    requires c.esp in c.mem
  {
    exists n, d :: Run(code, At(0), c, n) == Some((Returned(c.mem[c.esp]), d)) && ReturnsTo(m, c, words, d)
  }

  /** Whatever `Compile` loads into its array returns what the bytecode returns. */
  lemma LoadedReturns(m: Method, depths: map<nat, nat>, code: array<Byte>)
    requires Verified(m, depths) && OffsetsFit(m)
    requires CompileFault(m, depths) == NoFault && Loaded(code, FinalCode(m, depths))
    ensures ReturnsLike(m, depths, code[..])
  {
    hide BodyPlan, Parse, PcOk, EncodeAll, FinalCode, Run, Called, ReturnsTo, JavaRun, ExactRun, EntryVars, Typed;
    assert EncodeAll(FinalCode(m, depths)) <= code[..];
    forall c, steps | Called(m, c) && Typed(m, depths, 0, EntryVars(m, c))
                      && ExactRun(m, depths, 0, EntryVars(m, c), steps)
                      && JavaRun(m, depths, 0, EntryVars(m, c), steps).Finished?
      ensures c.esp in c.mem && ComesBack(m, code[..], c, JavaRun(m, depths, 0, EntryVars(m, c), steps).words)
    {
      var n, d := MethodCorrect(m, depths, code[..], c, steps);
    }
  }

  /** On a plain method no step needs a condition. */
  lemma PlainReturns(m: Method, depths: map<nat, nat>, code: seq<Byte>)
    requires Verified(m, depths) && Plain(m, depths) && ReturnsLike(m, depths, code)
    ensures ReturnsAlways(m, depths, code)
  {
    hide BodyPlan, Parse, PcOk, Called, JavaRun, ExactRun, EntryVars, Typed, ComesBack, Plain;
    forall c, steps | Called(m, c) && Typed(m, depths, 0, EntryVars(m, c))
                      && JavaRun(m, depths, 0, EntryVars(m, c), steps).Finished?
      ensures c.esp in c.mem && ComesBack(m, code, c, JavaRun(m, depths, 0, EntryVars(m, c), steps).words)
    {
      PlainRun(m, depths, 0, EntryVars(m, c), steps);
    }
  }

  /** The code budget of a method tells before compiling that nothing can go wrong with its buffer. */
  lemma BudgetCompiles(m: Method, depths: map<nat, nat>)
    requires Verified(m, depths) && InitialCap(m) < TWO_15
    requires CodeBudget(m, depths) + 104 <= StartPlan(m).cap
    ensures CompileFault(m, depths) == NoFault
  {
    hide BodyPlan, Parse, PcOk, Rest, StartPlan;
    BudgetSuffices(m, depths);
  }

  /** `compile`, from a descriptor to code that can be called: it succeeds at least on every method
      within its budget, and on success the array, run from its first byte, returns what the bytecode
      returns: on every exact run, and for a plain method on every run. */
  method CompileMethod(m: Method, descriptor: string, isStatic: bool, ghost depths: map<nat, nat>)
    returns (ok: bool, code: array<Byte>)
    requires Verified(m, depths) && HasSignature(m, descriptor, isStatic) && OffsetsFit(m)
    ensures InitialCap(m) < TWO_15 && CodeBudget(m, depths) + 104 <= StartPlan(m).cap ==> ok
    ensures ok <==> CompileFault(m, depths) == NoFault
    ensures ok ==> ReturnsLike(m, depths, code[..])
    ensures ok && Plain(m, depths) ==> ReturnsAlways(m, depths, code[..])
  {
    hide BodyPlan, Parse, PcOk, EncodeAll, FinalCode, ReturnsLike, ReturnsAlways, HasSignature, CodeBudget, StartPlan,
         Plain;
    ok, code := Compile(m, descriptor, isStatic, depths);
    if ok {
      LoadedReturns(m, depths, code);
      if Plain(m, depths) {
        PlainReturns(m, depths, code[..]);
      }
    } else if InitialCap(m) < TWO_15 && CodeBudget(m, depths) + 104 <= StartPlan(m).cap {
      BudgetCompiles(m, depths);
    }
  }
}
