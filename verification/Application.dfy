/**
 A built operation answering requests: compiled slots, the provider chain and the pipeline together
 answer what dependency injection means, with no slot in sight.
 */
module Application {
  import opened Wrappers
  import opened Hooks
  import opened Outcomes
  import opened ProviderGraph
  import opened DependencyMeaning
  import opened CompiledProviders
  import opened SlotCompiler
  import opened ProviderChain
  import opened Injection
  import opened Pipeline

  /** The user's handler, as a function of the dependencies it asks for. */
  datatype HandlerCode = HandlerCode(
    prepare: seq<Value> -> Option<ExecutionOutcome>,
    run: seq<Value> -> ExecutionOutcome)

  /**
   The operation runs `built` on one request: its decoders are the plan's, its chain's factories are
   the compiled providers', its handler sees the slots through the handler's slots only,
   and the handler's direct form computes what its awaited one does.
   */
  ghost predicate Serves(
      op: Operation, c: Chain, g: Setup, world: World, built: CompiledOperation, singletons: Slots, code: HandlerCode)
  {
    && op.plan == Some(c) && RunsCompiled(c, g, world, built.chain, singletons)
    && |op.decoders| == |g.plan.decoders|
    && (forall p | 0 <= p < |op.decoders| && op.decoders[p].Ok? :: op.decoders[p].value == world.decode(g.plan.decoders[p]))
    && (forall slots, values {:trigger HandlerSees(op, code, slots, values)} |
          ReadAll(built.handlerSlots, singletons, slots) == Some(values) :: HandlerSees(op, code, slots, values))
    && (op.direct.Some? ==> forall slots :: op.direct.value(slots) == Prepared(op, slots))
  }

  /** The application builder's output, serving: what `BuildOperation` ensures, and `Serves`. */
  ghost predicate Deployed(
      op: Operation, c: Chain, g: Setup, worlds: iset<World>, world: World, scope: map<TypeKey, nat>,
      requests: seq<TypeKey>, built: CompiledOperation, singletons: Slots, code: HandlerCode)
  {
    && Validated(g.regs, g.ranks) && CompiledFor(g, worlds, scope, requests, built) && world in worlds
    && SingletonsHeld(g, world, singletons) && (built.chain == [] ==> g.plan.decoders == [])
    && Serves(op, c, g, world, built, singletons, code)
  }

  ghost predicate HandlerSees(op: Operation, code: HandlerCode, slots: Slots, values: seq<Value>) {
    op.prepare(slots) == code.prepare(values) && op.handler(slots) == code.run(values)
  }

  lemma ServesWired(
      op: Operation, c: Chain, g: Setup, world: World, built: CompiledOperation, singletons: Slots, code: HandlerCode)
    requires Serves(op, c, g, world, built, singletons, code) && (built.chain == [] ==> g.plan.decoders == [])
    ensures Wired(op)
  {
  }

  // ----- inputs -----

  /** The first rejection among the first `n` decoders. */
  function FirstRejection(op: Operation, n: nat): Option<Rejection>
    requires n <= |op.decoders|
  {
    if n == 0 then None
    else if FirstRejection(op, n - 1).Some? then FirstRejection(op, n - 1)
    else if op.decoders[n - 1].Err? then Some(op.decoders[n - 1].error)
    else None
  }

  lemma {:induction false} SeededMeans(op: Operation, size: nat, n: nat)
    requires n <= |op.decoders| <= size
    ensures match FirstRejection(op, n)
            case Some(rejection) => Seeded(op, size, n) == Err(rejection)
            case None =>
              && Seeded(op, size, n).Ok?
              && forall p | 0 <= p < n :: op.decoders[p].Ok? && Seeded(op, size, n).value[p] == Some(op.decoders[p].value)
  {
    if n > 0 {
      SeededMeans(op, size, n - 1);
    }
  }

  // ----- what a request is answered -----

  /** The operation once its handler's dependencies are known: slots no longer matter. */
  function OnValues(op: Operation, code: HandlerCode, values: seq<Value>): Operation {
    op.(prepare := (_: Slots) => code.prepare(values), handler := (_: Slots) => code.run(values))
  }

  lemma DecideOnValues(op: Operation, code: HandlerCode, aborts: Aborts, poll: nat, slots: Slots, values: seq<Value>)
    requires HandlerSees(op, code, slots, values)
    ensures Decide(op, aborts, poll, slots) == Decide(OnValues(op, code, values), aborts, poll, [])
  {
  }

  /** What the request comes to before teardown, by meaning alone. */
  ghost predicate Decided(
      op: Operation, g: Setup, world: World, scope: map<TypeKey, nat>, requests: seq<TypeKey>, built: CompiledOperation,
      code: HandlerCode, aborts: Aborts, decision: ExecutionOutcome)
  {
    && Validated(g.regs, g.ranks) && Below(g.ranks, Roots(scope, requests), Top(g.ranks))
    && (forall i | 0 <= i < |built.chain| :: built.chain[i].id < |g.regs|)
    && if Interrupted(g, world, aborts, 1, built.chain) then
         exists poll: nat, abort | poll < 1 + |built.chain| ::
           decision == AbortAnswer(abort) && FirstSignal(aborts, 1, poll, abort)
       else
         match EvalAll(g.regs, g.ranks, world, Roots(scope, requests), Top(g.ranks))
         case Err(error) => decision == ErrorAnswer(error)
         case Ok(values) => decision == Decide(OnValues(op, code, values), aborts, 1 + |built.chain|, [])
  }

  /** Tearing down after the decision leaves it, or a finalizer told about it fails and answers. */
  ghost predicate AnsweredAfterTeardown(c: Chain, decision: ExecutionOutcome, answer: ExecutionOutcome) {
    || answer == decision
    || exists provider, value, error ::
         c.finalizer(provider, value, Told(decision)) == Some(error) && answer == ErrorAnswer(error)
  }

  /**
   A request that no hook stops and whose inputs decode is answered, under any signals, what the first
   signal says, or the first error of evaluating the handler's dependencies, or what the handler and
   the hooks around it make of their values; unless a finalizer fails.
   */
  lemma AnswerMeansInjection(
      op: Operation, c: Chain, g: Setup, worlds: iset<World>, world: World, scope: map<TypeKey, nat>,
      requests: seq<TypeKey>, built: CompiledOperation, singletons: Slots, code: HandlerCode, aborts: Aborts)
      returns (decision: ExecutionOutcome)
    requires Deployed(op, c, g, worlds, world, scope, requests, built, singletons, code)
    requires HookStops(op, aborts, 0, OnRequest).None? && FirstRejection(op, |op.decoders|).None?
    ensures Decided(op, g, world, scope, requests, built, code, aborts, decision)
    ensures Wired(op) && AnsweredAfterTeardown(c, decision, Answer(op, aborts))
    ensures WillingToFinalize(c) ==> Answer(op, aborts) == decision
  {
    DeployedServes(op, c, g, worlds, world, scope, requests, built, singletons, code);
    hide *;
    ServesWired(op, c, g, world, built, singletons, code);
    var seeded := InputsSeeded(op, c, g, world, built, singletons, code);
    decision := RunDecides(op, c, g, worlds, world, scope, requests, built, singletons, code, aborts, seeded);
    AnswerReaches(op, c, aborts, seeded);
    SeededConcludes(op, c, aborts, seeded, After(c, aborts, 1, seeded, c.count), decision);
  }

  lemma DeployedServes(
      op: Operation, c: Chain, g: Setup, worlds: iset<World>, world: World, scope: map<TypeKey, nat>,
      requests: seq<TypeKey>, built: CompiledOperation, singletons: Slots, code: HandlerCode)
    requires Deployed(op, c, g, worlds, world, scope, requests, built, singletons, code)
    ensures Serves(op, c, g, world, built, singletons, code) && (built.chain == [] ==> g.plan.decoders == [])
  {
    hide Serves;
  }

  lemma AnswerReaches(op: Operation, c: Chain, aborts: Aborts, seeded: Slots)
    requires Wired(op) && op.plan == Some(c) && HookStops(op, aborts, 0, OnRequest).None?
    requires |op.decoders| == c.base && Seeded(op, c.base + c.count, c.base) == Ok(seeded)
    ensures |seeded| == c.base + c.count && Answer(op, aborts) == AnswerSeeded(op, aborts, c, seeded)
  {
    hide AnswerSeeded, HookStops;
  }

  lemma RunDecides(
      op: Operation, c: Chain, g: Setup, worlds: iset<World>, world: World, scope: map<TypeKey, nat>,
      requests: seq<TypeKey>, built: CompiledOperation, singletons: Slots, code: HandlerCode, aborts: Aborts,
      seeded: Slots)
      returns (decision: ExecutionOutcome)
    requires Deployed(op, c, g, worlds, world, scope, requests, built, singletons, code)
    requires |seeded| == c.base + c.count && InputsDecoded(g, world, seeded)
    ensures Decided(op, g, world, scope, requests, built, code, aborts, decision)
    ensures var p := After(c, aborts, 1, seeded, c.count);
            decision == match p.stop
                        case Some(stop) => StopAnswer(stop)
                        case None => Decide(op, aborts, 1 + c.count, p.slots)
  {
    hide Eval, EvalAll, After, Interrupted, CompiledFor, Validated, SingletonsHeld, InputsDecoded, Roots, Decide, ReadAll;
    hide RunsCompiled, Decided, MeansInjection, Serves;
    assert RunsCompiled(c, g, world, built.chain, singletons) by {
      ServesRuns(op, c, g, world, built, singletons, code);
    }
    SlotsMeanInjection(g, worlds, world, scope, requests, built, singletons, c, aborts, 1, seeded);
    var p := After(c, aborts, 1, seeded, c.count);
    decision := match p.stop
                case Some(stop) => StopAnswer(stop)
                case None => Decide(op, aborts, 1 + c.count, p.slots);
    DecisionMeans(op, c, g, world, scope, requests, built, singletons, code, aborts, p, decision);
  }

  lemma ServesRuns(
      op: Operation, c: Chain, g: Setup, world: World, built: CompiledOperation, singletons: Slots, code: HandlerCode)
    requires Serves(op, c, g, world, built, singletons, code)
    ensures op.plan == Some(c) && RunsCompiled(c, g, world, built.chain, singletons)
    ensures |op.decoders| == |g.plan.decoders|
  {
    hide RunsCompiled;
  }

  lemma InputsSeeded(
      op: Operation, c: Chain, g: Setup, world: World, built: CompiledOperation, singletons: Slots, code: HandlerCode)
      returns (seeded: Slots)
    requires Serves(op, c, g, world, built, singletons, code) && FirstRejection(op, |op.decoders|).None?
    ensures |seeded| == c.base + c.count && Seeded(op, c.base + c.count, c.base) == Ok(seeded)
    ensures InputsDecoded(g, world, seeded)
    ensures op.plan == Some(c) && |op.decoders| == c.base
  {
    SeededMeans(op, c.base + c.count, c.base);
    seeded := Seeded(op, c.base + c.count, c.base).value;
    hide Seeded, FirstRejection, HandlerSees, ReadAll;
  }

  lemma SeededConcludes(
      op: Operation, c: Chain, aborts: Aborts, seeded: Slots, p: Progress, decision: ExecutionOutcome)
    requires |seeded| == c.base + c.count && p == After(c, aborts, 1, seeded, c.count)
    requires decision == match p.stop
                        case Some(stop) => StopAnswer(stop)
                        case None => Decide(op, aborts, 1 + c.count, p.slots)
    ensures AnsweredAfterTeardown(c, decision, AnswerSeeded(op, aborts, c, seeded))
    ensures WillingToFinalize(c) ==> AnswerSeeded(op, aborts, c, seeded) == decision
  {
    hide After, Decide, Finalization, StoredIn, AnsweredAfterTeardown, WillingToFinalize;
    AfterStores(c, aborts, 1, seeded, c.count);
    ConcludedAfterTeardown(c, p, decision);
  }

  lemma ConcludedAfterTeardown(c: Chain, p: Progress, decision: ExecutionOutcome)
    requires HaveValues(p.slots, c.base, p.filled)
    ensures AnsweredAfterTeardown(c, decision, Concluded(c, p, decision))
    ensures WillingToFinalize(c) ==> Concluded(c, p, decision) == decision
  {
    hide Finalization, StoredIn;
    var stores := StoredIn(p.slots, c.base, p.filled);
    FinalizationShape(c, stores, Told(decision));
    if WillingToFinalize(c) {
      WillingFinalizers(c, stores, Told(decision));
    }
  }

  lemma DecisionMeans(
      op: Operation, c: Chain, g: Setup, world: World, scope: map<TypeKey, nat>, requests: seq<TypeKey>,
      built: CompiledOperation, singletons: Slots, code: HandlerCode, aborts: Aborts, p: Progress,
      decision: ExecutionOutcome)
    requires Validated(g.regs, g.ranks) && Below(g.ranks, Roots(scope, requests), Top(g.ranks))
    requires forall i | 0 <= i < |built.chain| :: built.chain[i].id < |g.regs|
    requires Serves(op, c, g, world, built, singletons, code)
    requires MeansInjection(g, world, scope, requests, built, singletons, aborts, 1, p)
    requires decision == match p.stop
                         case Some(stop) => StopAnswer(stop)
                         case None => Decide(op, aborts, 1 + c.count, p.slots)
    ensures Decided(op, g, world, scope, requests, built, code, aborts, decision)
  {
    hide Eval, EvalAll, Interrupted, Validated, Roots, Decide, ReadAll, HandlerSees;
    if !Interrupted(g, world, aborts, 1, built.chain) && p.stop.None? {
      var values := EvalAll(g.regs, g.ranks, world, Roots(scope, requests), Top(g.ranks)).value;
      assert HandlerSees(op, code, p.slots, values);
      DecideOnValues(op, code, aborts, 1 + c.count, p.slots, values);
    }
  }

  /** A request stopped by a hook, or with an input that does not decode, never reaches a provider. */
  lemma AnswerBeforeInjection(op: Operation, c: Chain, aborts: Aborts)
    requires Wired(op) && op.plan == Some(c)
    ensures match HookStops(op, aborts, 0, OnRequest)
            case Some(outcome) => Answer(op, aborts) == outcome
            case None =>
              match FirstRejection(op, |op.decoders|)
              case Some(rejection) => Answer(op, aborts) == Rejected(rejection.status, rejection.code)
              case None => true
  {
    hide Seeded, AnswerSeeded, FirstRejection, HookStops;
    SeededMeans(op, c.base + c.count, c.base);
  }

  /**
   Without hooks, signals and failing finalizers an operation answers the first error of evaluating the
   handler's dependencies, or the handler applied to their values.
   */
  lemma PlainAnswer(
      op: Operation, c: Chain, g: Setup, worlds: iset<World>, world: World, scope: map<TypeKey, nat>,
      requests: seq<TypeKey>, built: CompiledOperation, singletons: Slots, code: HandlerCode)
    requires Deployed(op, c, g, worlds, world, scope, requests, built, singletons, code)
    requires op.hooks.IsEmpty() && FirstRejection(op, |op.decoders|).None? && WillingToFinalize(c)
    ensures Wired(op) && Validated(g.regs, g.ranks) && Below(g.ranks, Roots(scope, requests), Top(g.ranks))
    ensures Answer(op, NoAborts())
            == match EvalAll(g.regs, g.ranks, world, Roots(scope, requests), Top(g.ranks))
               case Err(error) => ErrorAnswer(error)
               case Ok(values) =>
                 match code.prepare(values)
                 case Some(refusal) => refusal
                 case None => code.run(values)
  {
    assert op.HookError(OnRequest).None? && op.HookError(PreParse).None? && op.HookError(PreValidate).None?;
    assert op.HookError(PreHandler).None? && op.HookError(PreSerialize).None?;
    hide Eval, EvalAll, CompiledFor, Validated, SingletonsHeld, Roots, Serves, FirstRejection, Answer, FirstFailure;
    var decision := AnswerMeansInjection(op, c, g, worlds, world, scope, requests, built, singletons, code, NoAborts());
  }
}
