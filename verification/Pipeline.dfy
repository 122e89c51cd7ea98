/**
 One invocation of an operation, plain or controlled: hooks, input decoding, the provider chain, the
 handler, teardown. User code (hooks, factories, finalizers, handler) is a parameter and may fail
 anywhere; on the controlled path a cancellation or timeout signal may fire at every poll.
 */
module Pipeline {
  import opened Wrappers
  import opened Hooks
  import opened Outcomes
  import opened ProviderChain

  datatype Rejection = Rejection(status: nat, code: string)

  datatype Operation = Operation(
    hooks: HookScope,
    runHook: Hook -> Option<DependencyError>,
    plan: Option<Chain>,
    decoders: seq<Result<Value, Rejection>>,
    direct: Option<Slots -> ExecutionOutcome>,
    prepare: Slots -> Option<ExecutionOutcome>,
    handler: Slots -> ExecutionOutcome)
  {
    /** What a stage's hooks come to: the first failure, in the order registered. */
    function HookError(stage: Stage): Option<DependencyError> {
      FirstError(hooks.At(stage), runHook)
    }
  }

  /** `prepare` and then the handler's future. */
  function Prepared(op: Operation, slots: Slots): ExecutionOutcome {
    match op.prepare(slots)
    case Some(refusal) => refusal
    case None => op.handler(slots)
  }

  /**
   What the application compiler guarantees: one decoder per input slot, no decoders without
   providers, and a direct handler form that computes what its awaited form does.
   */
  ghost predicate Wired(op: Operation) {
    && (op.plan.Some? ==> |op.decoders| == op.plan.value.base && (op.plan.value.count == 0 ==> op.plan.value.base == 0))
    && (op.direct.Some? ==> forall slots :: op.direct.value(slots) == Prepared(op, slots))
  }

  // ----- reference -----

  /** The first `n` decoded inputs in their slots, or the first rejection. */
  function Seeded(op: Operation, size: nat, n: nat): (seeded: Result<Slots, Rejection>)
    requires n <= |op.decoders| <= size
    ensures seeded.Ok? ==> |seeded.value| == size
  {
    if n == 0 then Ok(seq(size, _ => None))
    else
      match Seeded(op, size, n - 1)
      case Err(rejection) => Err(rejection)
      case Ok(slots) =>
        match op.decoders[n - 1]
        case Err(rejection) => Err(rejection)
        case Ok(value) => Ok(slots[n - 1 := Some(value)])
  }

  /** A hook under control: the signals are looked at first. */
  function HookStops(op: Operation, aborts: Aborts, poll: nat, stage: Stage): Option<ExecutionOutcome> {
    match aborts(poll)
    case Some(abort) => Some(AbortAnswer(abort))
    case None =>
      match op.HookError(stage)
      case Some(error) => Some(ErrorAnswer(error))
      case None => None
  }

  /** What happens between a resolved chain and its teardown; `poll` is the next poll of the signals. */
  function Decide(op: Operation, aborts: Aborts, poll: nat, slots: Slots): ExecutionOutcome {
    match HookStops(op, aborts, poll, PreParse)
    case Some(outcome) => outcome
    case None =>
      match HookStops(op, aborts, poll + 1, PreValidate)
      case Some(outcome) => outcome
      case None =>
        match op.prepare(slots)
        case Some(refusal) => refusal
        case None => DecidePrepared(op, aborts, poll + 2, slots)
  }

  function DecidePrepared(op: Operation, aborts: Aborts, poll: nat, slots: Slots): ExecutionOutcome {
    match HookStops(op, aborts, poll, PreHandler)
    case Some(outcome) => outcome
    case None =>
      match aborts(poll + 1)
      case Some(abort) => AbortAnswer(abort)
      case None =>
        match HookStops(op, aborts, poll + 2, PreSerialize)
        case Some(outcome) => outcome
        case None => op.handler(slots)
  }

  function StopAnswer(stop: Stop): ExecutionOutcome {
    match stop
    case ByError(error) => ErrorAnswer(error)
    case ByAbort(abort) => AbortAnswer(abort)
  }

  /** A decision, unless tearing down after it fails. */
  function Concluded(c: Chain, p: Progress, decision: ExecutionOutcome): ExecutionOutcome
    requires HaveValues(p.slots, c.base, p.filled)
  {
    match Finalization(c, StoredIn(p.slots, c.base, p.filled), Told(decision)).error
    case Some(error) => ErrorAnswer(error)
    case None => decision
  }

  /** What one invocation answers. */
  function Answer(op: Operation, aborts: Aborts): ExecutionOutcome
    requires Wired(op)
  {
    match HookStops(op, aborts, 0, OnRequest)
    case Some(outcome) => outcome
    case None =>
      match op.plan
      case None => InternalError("uncompiled_dependency_plan")
      case Some(c) =>
        match Seeded(op, c.base + c.count, c.base)
        case Err(rejection) => Rejected(rejection.status, rejection.code)
        case Ok(seeded) => AnswerSeeded(op, aborts, c, seeded)
  }

  function AnswerSeeded(op: Operation, aborts: Aborts, c: Chain, seeded: Slots): ExecutionOutcome
    requires |seeded| == c.base + c.count
  {
    var p := After(c, aborts, 1, seeded, c.count);
    AfterStores(c, aborts, 1, seeded, c.count);
    Concluded(c, p, match p.stop
                    case Some(stop) => StopAnswer(stop)
                    case None => Decide(op, aborts, 1 + c.count, p.slots))
  }

  // ----- the order of the stages, by the record's own fields -----

  /** What the signals answer at a poll. */
  function Signal(abort: Option<Abort>): Option<ExecutionOutcome> {
    match abort
    case None => None
    case Some(Cancelled) => Some(Rejected(499, "invocation_cancelled"))
    case Some(TimedOut) => Some(Rejected(504, "invocation_timeout"))
  }

  /** What a list of hooks answers when one of them fails. */
  function Failing(hooks: seq<Hook>, run: Hook -> Option<DependencyError>): Option<ExecutionOutcome> {
    match FirstError(hooks, run)
    case None => None
    case Some(RejectedWith(status, code)) => Some(DomainError(status, code))
    case Some(Internal(code)) => Some(InternalError(code))
  }

  /** Everything that can end an invocation before its inputs are decoded, in order. */
  function Entrance(op: Operation, aborts: Aborts): seq<Option<ExecutionOutcome>> {
    [Signal(aborts(0)), Failing(op.hooks.onRequest, op.runHook)]
  }

  /** Everything that can end it once the providers are resolved, in order: up to the handler's preparation, */
  function EarlyGates(op: Operation, aborts: Aborts, poll: nat, slots: Slots): seq<Option<ExecutionOutcome>> {
    [Signal(aborts(poll)), Failing(op.hooks.preParse, op.runHook),
     Signal(aborts(poll + 1)), Failing(op.hooks.preValidate, op.runHook),
     op.prepare(slots)]
  }

  /** and from the pre-handler hooks on; the poll in the middle is that of the handler itself. */
  function LateGates(op: Operation, aborts: Aborts, poll: nat): seq<Option<ExecutionOutcome>> {
    [Signal(aborts(poll)), Failing(op.hooks.preHandler, op.runHook),
     Signal(aborts(poll + 1)),
     Signal(aborts(poll + 2)), Failing(op.hooks.preSerialize, op.runHook)]
  }

  function Gates(op: Operation, aborts: Aborts, poll: nat, slots: Slots): seq<Option<ExecutionOutcome>> {
    EarlyGates(op, aborts, poll, slots) + LateGates(op, aborts, poll + 2)
  }

  /** The first gate that is shut. */
  function FirstShut(gates: seq<Option<ExecutionOutcome>>): (shut: Option<ExecutionOutcome>)
    ensures shut.None? <==> forall k | 0 <= k < |gates| :: gates[k].None?
  {
    if gates == [] then None else if gates[0].Some? then gates[0] else FirstShut(gates[1..])
  }

  lemma FirstShutFront(gate: Option<ExecutionOutcome>, rest: seq<Option<ExecutionOutcome>>)
    ensures FirstShut([gate] + rest) == if gate.Some? then gate else FirstShut(rest)
  {
    assert ([gate] + rest)[1..] == rest;
  }

  lemma {:induction false} FirstShutConcat(first: seq<Option<ExecutionOutcome>>, second: seq<Option<ExecutionOutcome>>)
    ensures FirstShut(first + second) == if FirstShut(first).Some? then FirstShut(first) else FirstShut(second)
    decreases |first|
  {
    if first == [] {
      assert first + second == second;
    } else {
      assert (first + second)[1..] == first[1..] + second;
      FirstShutConcat(first[1..], second);
    }
  }

  /** A stage under control is two gates, of which the first shut one answers. */
  lemma FirstShutStage(signal: Option<ExecutionOutcome>, failing: Option<ExecutionOutcome>,
                       rest: seq<Option<ExecutionOutcome>>)
    ensures FirstShut([signal, failing] + rest)
            == if signal.Some? then signal else if failing.Some? then failing else FirstShut(rest)
  {
    FirstShutFront(failing, rest);
    FirstShutFront(signal, [failing] + rest);
    assert [signal, failing] + rest == [signal] + ([failing] + rest);
  }

  /** One stage under control is a poll of the signals and then the stage's list. */
  lemma StageStops(op: Operation, aborts: Aborts, poll: nat, stage: Stage, hooks: seq<Hook>)
    requires hooks == match stage
                      case OnRequest => op.hooks.onRequest
                      case PreParse => op.hooks.preParse
                      case PreValidate => op.hooks.preValidate
                      case PreHandler => op.hooks.preHandler
                      case PreSerialize => op.hooks.preSerialize
                      case OnError => op.hooks.onError
                      case OnResponse => op.hooks.onResponse
    ensures HookStops(op, aborts, poll, stage)
            == if Signal(aborts(poll)).Some? then Signal(aborts(poll)) else Failing(hooks, op.runHook)
  {
  }

  lemma PreparedByGates(op: Operation, aborts: Aborts, poll: nat, slots: Slots)
    ensures DecidePrepared(op, aborts, poll, slots)
            == match FirstShut(LateGates(op, aborts, poll))
               case Some(outcome) => outcome
               case None => op.handler(slots)
  {
    StageStops(op, aborts, poll, PreHandler, op.hooks.preHandler);
    StageStops(op, aborts, poll + 2, PreSerialize, op.hooks.preSerialize);
    SignalAnswers(aborts(poll + 1));
    hide HookStops, Signal, Failing, AbortAnswer, FirstShut;
    var before, called, after := Signal(aborts(poll)), Signal(aborts(poll + 1)), Signal(aborts(poll + 2));
    var handler, serialize := Failing(op.hooks.preHandler, op.runHook), Failing(op.hooks.preSerialize, op.runHook);
    NoGates();
    FirstShutStage(after, serialize, []);
    assert [after, serialize] + [] == [after, serialize];
    FirstShutFront(called, [after, serialize]);
    FirstShutStage(before, handler, [called] + [after, serialize]);
    assert LateGates(op, aborts, poll) == [before, handler] + ([called] + [after, serialize]);
  }

  lemma NoGates()
    ensures FirstShut([]) == None
  {
  }

  /** Resolved, an invocation comes to the first gate that is shut, and to its handler's answer if none is. */
  lemma DecideByGates(op: Operation, aborts: Aborts, poll: nat, slots: Slots)
    ensures Decide(op, aborts, poll, slots)
            == match FirstShut(Gates(op, aborts, poll, slots))
               case Some(outcome) => outcome
               case None => op.handler(slots)
  {
    EarlyByGates(op, aborts, poll, slots);
    PreparedByGates(op, aborts, poll + 2, slots);
    FirstShutConcat(EarlyGates(op, aborts, poll, slots), LateGates(op, aborts, poll + 2));
    hide HookStops, DecidePrepared, FirstShut, EarlyGates, LateGates;
  }

  lemma EarlyByGates(op: Operation, aborts: Aborts, poll: nat, slots: Slots)
    ensures Decide(op, aborts, poll, slots)
            == match FirstShut(EarlyGates(op, aborts, poll, slots))
               case Some(outcome) => outcome
               case None => DecidePrepared(op, aborts, poll + 2, slots)
  {
    StageStops(op, aborts, poll, PreParse, op.hooks.preParse);
    StageStops(op, aborts, poll + 1, PreValidate, op.hooks.preValidate);
    hide HookStops, Signal, Failing, DecidePrepared, FirstShut;
    var first, parse := Signal(aborts(poll)), Failing(op.hooks.preParse, op.runHook);
    var second, validate := Signal(aborts(poll + 1)), Failing(op.hooks.preValidate, op.runHook);
    NoGates();
    FirstShutFront(op.prepare(slots), []);
    assert [op.prepare(slots)] + [] == [op.prepare(slots)];
    FirstShutStage(second, validate, [op.prepare(slots)]);
    FirstShutStage(first, parse, [second, validate] + [op.prepare(slots)]);
    assert EarlyGates(op, aborts, poll, slots) == [first, parse] + ([second, validate] + [op.prepare(slots)]);
  }

  lemma SignalAnswers(abort: Option<Abort>)
    ensures Signal(abort) == if abort.Some? then Some(AbortAnswer(abort.value)) else None
  {
  }

  /** Before anything is decoded: the first poll, then the on-request hooks; nothing else is looked at. */
  lemma AnswerAtEntrance(op: Operation, aborts: Aborts)
    requires Wired(op)
    ensures match FirstShut(Entrance(op, aborts))
            case Some(outcome) => Answer(op, aborts) == outcome
            case None => HookStops(op, aborts, 0, OnRequest).None?
    ensures FirstShut(Entrance(op, aborts)).None? && op.plan.None? ==>
              Answer(op, aborts) == InternalError("uncompiled_dependency_plan")
  {
    StageStops(op, aborts, 0, OnRequest, op.hooks.onRequest);
    FirstShutStage(Signal(aborts(0)), Failing(op.hooks.onRequest, op.runHook), []);
    NoGates();
    assert Entrance(op, aborts) + [] == Entrance(op, aborts);
    hide HookStops, Signal, Failing, AnswerSeeded, Seeded, FirstShut;
  }

  // ----- what a log must look like -----

  /**
   Teardown of what `log` records, given the answer: everything stored is finalized, last first,
   told what the answer says; or the first finalizer that fails ends it and is the answer.
   */
  ghost predicate TornDown(c: Chain, log: seq<Event>, outcome: ExecutionOutcome) {
    exists k, told {:trigger Finalization(c, Stores(log[..k]), told)} ::
      && 0 <= k <= |log| && NoFinals(log[..k])
      && var run := Finalization(c, Stores(log[..k]), told);
         && log[k..] == run.events
         && match run.error
            case Some(error) => outcome == ErrorAnswer(error)
            case None => log[k..] == [] || told == Told(outcome)
  }

  lemma TornDownIntro(c: Chain, work: seq<Event>, told: RequestOutcome, outcome: ExecutionOutcome)
    requires NoFinals(work)
    requires var run := Finalization(c, Stores(work), told);
             match run.error
             case Some(error) => outcome == ErrorAnswer(error)
             case None => run.events == [] || told == Told(outcome)
    ensures TornDown(c, work + Finalization(c, Stores(work), told).events, outcome)
  {
    var run := Finalization(c, Stores(work), told);
    var log := work + run.events;
    assert log[..|work|] == work && log[|work|..] == run.events;
    assert Finalization(c, Stores(log[..|work|]), told) == run;
  }

  lemma TornDownNothing(c: Chain, outcome: ExecutionOutcome)
    ensures TornDown(c, [], outcome)
  {
    TornDownIntro(c, [], Succeeded, outcome);
  }

  lemma {:induction false} FinalizationShape(c: Chain, stores: seq<(nat, Value)>, told: RequestOutcome)
    ensures var run := Finalization(c, stores, told);
            && |run.events| <= |stores|
            && (forall k | 0 <= k < |run.events| ::
                  run.events[k] == Finalized(stores[|stores| - 1 - k].0, stores[|stores| - 1 - k].1, told))
            && (run.error.None? ==> |run.events| == |stores|)
            && (forall k | 0 <= k < |run.events| - 1 ::
                  c.finalizer(run.events[k].provider, run.events[k].value, told).None?)
            && (run.error.Some? ==>
                  run.events != []
                  && var last := run.events[|run.events| - 1];
                     c.finalizer(last.provider, last.value, told) == run.error)
    decreases |stores|
  {
    if stores != [] {
      FinalizationShape(c, stores[..|stores| - 1], told);
    }
  }

  /** The log records one store per provider slot, in slot order. */
  ghost predicate InSlotOrder(log: seq<Event>) {
    forall i | 0 <= i < |Stores(log)| :: Stores(log)[i].0 == i
  }

  lemma {:induction false} StoredInOrder(slots: Slots, base: nat, n: nat, i: nat)
    requires HaveValues(slots, base, n) && i < n
    ensures StoredIn(slots, base, n)[i] == (i, slots[base + i].value)
    decreases n
  {
    if i < n - 1 {
      StoredInOrder(slots, base, n - 1, i);
    }
  }

  lemma {:induction false} FinalsStoreNothing(c: Chain, stores: seq<(nat, Value)>, told: RequestOutcome)
    ensures Stores(Finalization(c, stores, told).events) == []
  {
    FinalizationShape(c, stores, told);
    NothingStored(Finalization(c, stores, told).events);
  }

  lemma {:induction false} NothingStored(log: seq<Event>)
    requires forall k | 0 <= k < |log| :: !log[k].Stored?
    ensures Stores(log) == []
  {
    if log != [] {
      NothingStored(log[..|log| - 1]);
    }
  }

  /** A log of work followed by its teardown is as it must be. */
  lemma TornDownAfter(
      c: Chain, work: seq<Event>, slots: Slots, n: nat, told: RequestOutcome, outcome: ExecutionOutcome)
    requires HaveValues(slots, c.base, n) && NoFinals(work) && Stores(work) == StoredIn(slots, c.base, n)
    requires var run := Finalization(c, Stores(work), told);
             match run.error
             case Some(error) => outcome == ErrorAnswer(error)
             case None => told == Told(outcome)
    ensures var log := work + Finalization(c, Stores(work), told).events;
            TornDown(c, log, outcome) && InSlotOrder(log)
  {
    hide Finalization, Stores, StoredIn;
    var run := Finalization(c, Stores(work), told);
    TornDownIntro(c, work, told, outcome);
    StoresAppend(work, run.events);
    FinalsStoreNothing(c, Stores(work), told);
    assert Stores(work) + [] == Stores(work);
    forall i | 0 <= i < n ensures StoredIn(slots, c.base, n)[i].0 == i {
      StoredInOrder(slots, c.base, n, i);
    }
  }

  // ----- the code -----

  const INVALID_INPUT := Rejection(500, "invalid_input_slot")

  /** `decode_inputs`, into fresh slots. */
  method DecodeInputs(op: Operation, inv: Invocation) returns (rejection: Option<Rejection>)
    requires |op.decoders| == inv.chain.base
    modifies inv`slots
    ensures match Seeded(op, inv.chain.base + inv.chain.count, inv.chain.base)
            case Ok(seeded) => rejection.None? && inv.slots == seeded
            case Err(first) => rejection == Some(first)
  {
    var size := inv.chain.base + inv.chain.count;
    inv.slots := seq(size, _ => None);
    var index := 0;
    while index < |op.decoders|
      invariant 0 <= index <= |op.decoders|
      invariant Seeded(op, size, index) == Ok(inv.slots)
    {
      match op.decoders[index] {
        case Err(first) =>
          SeededStops(op, size, index + 1, |op.decoders|);
          return Some(first);
        case Ok(value) =>
          var unset := inv.Set(index, value);
          match unset {
            case Some(_) => return Some(INVALID_INPUT);
            case None =>
          }
      }
      index := index + 1;
    }
    return None;
  }

  lemma {:induction false} SeededStops(op: Operation, size: nat, m: nat, n: nat)
    requires m <= n <= |op.decoders| <= size && Seeded(op, size, m).Err?
    ensures Seeded(op, size, n) == Seeded(op, size, m)
  {
    if m < n {
      SeededStops(op, size, m, n - 1);
    }
  }

  /** The log and the answer once `decision` has been torn down. */
  ghost predicate Finished(
      c: Chain, before: seq<Event>, after: seq<Event>, slots: Slots, decision: ExecutionOutcome, outcome: ExecutionOutcome)
    requires HaveValues(slots, c.base, c.count)
  {
    var run := Finalization(c, StoredIn(slots, c.base, c.count), Told(decision));
    after == before + run.events && outcome == if run.error.Some? then ErrorAnswer(run.error.value) else decision
  }

  /** `finalize` over the whole chain: a failing finalizer replaces the answer. */
  method Conclude(inv: Invocation, told: RequestOutcome, decision: ExecutionOutcome)
      returns (outcome: ExecutionOutcome)
    requires inv.Filled(inv.chain.count) && told == Told(decision)
    modifies inv`log
    ensures Finished(inv.chain, old(inv.log), inv.log, inv.slots, decision, outcome)
  {
    var failed := inv.FinalizePrefix(inv.chain.count, told);
    outcome := if failed.Some? then ErrorAnswer(failed.value) else decision;
  }

  /** One stage's hooks, in order, until one fails. */
  method RunHooks(op: Operation, stage: Stage) returns (error: Option<DependencyError>)
    ensures error == op.HookError(stage)
  {
    var ran;
    error, ran := RunForwards(op.hooks.At(stage), op.runHook);
  }

  /** The plain path once the chain is resolved. */
  method RunResolved(op: Operation, inv: Invocation) returns (outcome: ExecutionOutcome)
    requires Wired(op) && inv.Filled(inv.chain.count)
    modifies inv`log
    ensures Finished(inv.chain, old(inv.log), inv.log, inv.slots, Decide(op, NoAborts(), 1 + inv.chain.count, inv.slots), outcome)
  {
    hide Finished, Finalization;
    if op.hooks.IsEmpty() && op.direct.Some? {
      var answer := op.direct.value(inv.slots);
      assert op.HookError(PreParse).None? && op.HookError(PreValidate).None? && op.HookError(PreHandler).None?;
      assert op.HookError(PreSerialize).None?;
      outcome := Conclude(inv, Told(answer), answer);
      return;
    }
    var error := RunHooks(op, PreParse);
    if error.Some? {
      outcome := Conclude(inv, ToldOfError(error.value), ErrorAnswer(error.value));
      return;
    }
    error := RunHooks(op, PreValidate);
    if error.Some? {
      outcome := Conclude(inv, ToldOfError(error.value), ErrorAnswer(error.value));
      return;
    }
    var refusal := op.prepare(inv.slots);
    if refusal.Some? {
      outcome := Conclude(inv, Told(refusal.value), refusal.value);
      return;
    }
    error := RunHooks(op, PreHandler);
    if error.Some? {
      outcome := Conclude(inv, ToldOfError(error.value), ErrorAnswer(error.value));
      return;
    }
    var answer := op.handler(inv.slots);
    error := RunHooks(op, PreSerialize);
    if error.Some? {
      outcome := Conclude(inv, ToldOfError(error.value), ErrorAnswer(error.value));
      return;
    }
    outcome := Conclude(inv, Told(answer), answer);
  }

  /** `run_controlled_hook`: a signal or a failing hook ends the invocation, torn down. */
  method RunControlledHook(op: Operation, inv: Invocation, stage: Stage) returns (ended: Option<ExecutionOutcome>)
    requires inv.Filled(inv.chain.count)
    modifies inv`log, inv`polls
    ensures inv.polls == old(inv.polls) + 1
    ensures match HookStops(op, inv.aborts, old(inv.polls), stage)
            case None => ended.None? && inv.log == old(inv.log)
            case Some(decision) =>
              ended.Some? && Finished(inv.chain, old(inv.log), inv.log, inv.slots, decision, ended.value)
  {
    hide Finished, Finalization;
    var abort := inv.Poll();
    if abort.Some? {
      var outcome := Conclude(inv, ToldOfAbort(abort.value), AbortAnswer(abort.value));
      return Some(outcome);
    }
    var error := RunHooks(op, stage);
    if error.Some? {
      var outcome := Conclude(inv, ToldOfError(error.value), ErrorAnswer(error.value));
      return Some(outcome);
    }
    return None;
  }

  /** The controlled path once the chain is resolved. */
  method RunResolvedControlled(op: Operation, inv: Invocation) returns (outcome: ExecutionOutcome)
    requires inv.Filled(inv.chain.count)
    modifies inv`log, inv`polls
    ensures Finished(inv.chain, old(inv.log), inv.log, inv.slots, Decide(op, inv.aborts, old(inv.polls), inv.slots), outcome)
  {
    hide Finished, Finalization, HookStops;
    var ended := RunControlledHook(op, inv, PreParse);
    if ended.Some? {
      return ended.value;
    }
    ended := RunControlledHook(op, inv, PreValidate);
    if ended.Some? {
      return ended.value;
    }
    var refusal := op.prepare(inv.slots);
    if refusal.Some? {
      outcome := Conclude(inv, Told(refusal.value), refusal.value);
      return;
    }
    ended := RunControlledHook(op, inv, PreHandler);
    if ended.Some? {
      return ended.value;
    }
    var answer := op.handler(inv.slots);
    var abort := inv.Poll();
    if abort.Some? {
      outcome := Conclude(inv, ToldOfAbort(abort.value), AbortAnswer(abort.value));
      return;
    }
    ended := RunControlledHook(op, inv, PreSerialize);
    if ended.Some? {
      return ended.value;
    }
    outcome := Conclude(inv, Told(answer), answer);
  }

  /** A resolved chain's invocation ends as the reference says. */
  lemma ResolvedEnds(
      op: Operation, aborts: Aborts, inv: Invocation, seeded: Slots, events: seq<Event>, again: seq<Event>,
      log: seq<Event>, outcome: ExecutionOutcome)
    requires |seeded| == inv.chain.base + inv.chain.count
    requires inv.Ended(aborts, 1, seeded, events, Ending([], None))
    requires After(inv.chain, aborts, 1, seeded, inv.chain.count).stop.None?
    requires NoFinals(again) && Stores(again) == []
    requires inv.Filled(inv.chain.count)
    requires Finished(inv.chain, events + again, log, inv.slots,
                      Decide(op, aborts, 1 + inv.chain.count, inv.slots), outcome)
    ensures outcome == AnswerSeeded(op, aborts, inv.chain, seeded)
    ensures TornDown(inv.chain, log, outcome) && InSlotOrder(log)
  {
    var c := inv.chain;
    AfterStores(c, aborts, 1, seeded, c.count);
    hide After, Decide, Finalization, Stores, StoredIn;
    StoresAppend(events, again);
    assert Stores(events) + [] == Stores(events);
    var decision := Decide(op, aborts, 1 + c.count, inv.slots);
    TornDownAfter(c, events + again, inv.slots, c.count, Told(decision), outcome);
  }

  /** A chain that stopped ends as the reference says. */
  lemma StoppedEnds(
      op: Operation, aborts: Aborts, inv: Invocation, seeded: Slots, events: seq<Event>, again: seq<Event>,
      ending: Ending, log: seq<Event>)
    requires |seeded| == inv.chain.base + inv.chain.count
    requires inv.Ended(aborts, 1, seeded, events, ending) && ending.stop.Some?
    requires NoFinals(again) && Stores(again) == []
    requires log == events + again + ending.events
    ensures StopAnswer(ending.stop.value) == AnswerSeeded(op, aborts, inv.chain, seeded)
    ensures TornDown(inv.chain, log, StopAnswer(ending.stop.value)) && InSlotOrder(log)
  {
    var c := inv.chain;
    AfterStores(c, aborts, 1, seeded, c.count);
    TeardownToldTheAnswer();
    hide After, Decide, Finalization, Stores, StoredIn;
    StoresAppend(events, again);
    assert Stores(events) + [] == Stores(events);
    var p := After(c, aborts, 1, seeded, c.count);
    TornDownAfter(c, events + again, inv.slots, p.filled, ToldOfStop(p.stop.value), StopAnswer(ending.stop.value));
  }

  /** `invoke_pipeline`, with its two hook-free shortcuts. */
  method InvokePipeline(op: Operation, inv: Invocation) returns (outcome: ExecutionOutcome)
    requires Wired(op) && (op.plan.Some? ==> op.plan.value == inv.chain) && inv.log == []
    modifies inv`slots, inv`log, inv`kind
    ensures outcome == Answer(op, NoAborts())
    ensures TornDown(inv.chain, inv.log, outcome) && InSlotOrder(inv.log)
    ensures var shut := FirstShut(Entrance(op, NoAborts()));
            shut.Some? ==> outcome == shut.value && inv.log == []
  {
    AnswerAtEntrance(op, NoAborts());
    hide TornDown, InSlotOrder, AnswerSeeded, FirstShut, Entrance;
    TornDownNothing(inv.chain, Answer(op, NoAborts()));
    assert InSlotOrder([]) by {
      NothingLogged();
    }
    var error := RunHooks(op, OnRequest);
    if error.Some? {
      return ErrorAnswer(error.value);
    }
    if op.plan.None? {
      return InternalError("uncompiled_dependency_plan");
    }
    if op.hooks.IsEmpty() && op.plan.value.count == 0 {
      EmptyChainAnswer(op);
      if op.direct.Some? {
        return op.direct.value([]);
      }
      return Prepared(op, []);
    }
    var rejection := DecodeInputs(op, inv);
    if rejection.Some? {
      return Rejected(rejection.value.status, rejection.value.code);
    }
    outcome := ResolveAndRun(op, inv);
  }

  lemma NothingLogged()
    ensures InSlotOrder([])
  {
  }

  /** Without hooks and providers, the general path is the handler on no slots. */
  lemma EmptyChainAnswer(op: Operation)
    requires Wired(op) && op.hooks.IsEmpty() && op.plan.Some? && op.plan.value.count == 0
    ensures Answer(op, NoAborts()) == Prepared(op, [])
  {
    assert op.HookError(OnRequest).None? && op.HookError(PreParse).None? && op.HookError(PreValidate).None?;
    assert op.HookError(PreHandler).None? && op.HookError(PreSerialize).None?;
    assert Seeded(op, 0, 0) == Ok([]);
  }

  method ResolveAndRun(op: Operation, inv: Invocation) returns (outcome: ExecutionOutcome)
    requires Wired(op) && inv.log == [] && inv.Sized()
    modifies inv`slots, inv`log, inv`kind
    ensures outcome == AnswerSeeded(op, NoAborts(), inv.chain, old(inv.slots))
    ensures TornDown(inv.chain, inv.log, outcome) && InSlotOrder(inv.log)
  {
    hide TornDown, InSlotOrder, AnswerSeeded, Finished, Decide;
    ghost var seeded := inv.slots;
    ghost var kind := inv.kind;
    var stop;
    ghost var events, ending;
    stop, events, ending := inv.Resolve();
    ghost var again := inv.Again(kind, seeded);
    StoresOfCalls(inv, kind, seeded);
    FromIsIrrelevant(inv, seeded, events, ending);
    assert [] + events == events && events + again + [] == events + again;
    if stop.Some? {
      StoppedEnds(op, NoAborts(), inv, seeded, events, again, ending, inv.log);
      return StopAnswer(stop.value);
    }
    outcome := RunResolved(op, inv);
    ResolvedEnds(op, NoAborts(), inv, seeded, events, again, inv.log, outcome);
  }

  /** Without signals it does not matter when they would be polled. */
  lemma FromIsIrrelevant(inv: Invocation, seeded: Slots, events: seq<Event>, ending: Ending)
    requires |seeded| == inv.chain.base + inv.chain.count && inv.Ended(NoAborts(), 0, seeded, events, ending)
    ensures inv.Ended(NoAborts(), 1, seeded, events, ending)
    ensures ending.stop.None? ==> ending == Ending([], None)
    ensures ending.stop.None? ==> After(inv.chain, NoAborts(), 1, seeded, inv.chain.count).stop.None?
    ensures ending.stop.None? ==> inv.Filled(inv.chain.count)
  {
    AfterFrom(inv.chain, seeded, inv.chain.count);
    hide After;
  }

  lemma {:induction false} AfterFrom(c: Chain, seeded: Slots, n: nat)
    requires |seeded| == c.base + c.count && n <= c.count
    ensures After(c, NoAborts(), 0, seeded, n) == After(c, NoAborts(), 1, seeded, n)
  {
    if n > 0 {
      AfterFrom(c, seeded, n - 1);
    }
  }

  lemma StoresOfCalls(inv: Invocation, kind: ChainKind, seeded: Slots)
    requires |seeded| == inv.chain.base + inv.chain.count
    ensures var again := inv.Again(kind, seeded);
            NoFinals(again) && Stores(again) == []
  {
    hide After;
    NothingStored(inv.Again(kind, seeded));
  }

  /** `invoke_pipeline_controlled`. */
  method InvokePipelineControlled(op: Operation, inv: Invocation) returns (outcome: ExecutionOutcome)
    requires Wired(op) && (op.plan.Some? ==> op.plan.value == inv.chain) && inv.log == [] && inv.polls == 0
    modifies inv`slots, inv`log, inv`polls
    ensures outcome == Answer(op, inv.aborts)
    ensures TornDown(inv.chain, inv.log, outcome) && InSlotOrder(inv.log)
    ensures var shut := FirstShut(Entrance(op, inv.aborts));
            shut.Some? ==> outcome == shut.value && inv.log == []
  {
    AnswerAtEntrance(op, inv.aborts);
    hide TornDown, InSlotOrder, AnswerSeeded, FirstShut, Entrance;
    TornDownNothing(inv.chain, Answer(op, inv.aborts));
    assert InSlotOrder([]) by {
      NothingLogged();
    }
    var abort := inv.Poll();
    if abort.Some? {
      return AbortAnswer(abort.value);
    }
    var error := RunHooks(op, OnRequest);
    if error.Some? {
      return ErrorAnswer(error.value);
    }
    if op.plan.None? {
      return InternalError("uncompiled_dependency_plan");
    }
    var rejection := DecodeInputs(op, inv);
    if rejection.Some? {
      return Rejected(rejection.value.status, rejection.value.code);
    }
    outcome := ResolveAndRunControlled(op, inv);
  }

  method ResolveAndRunControlled(op: Operation, inv: Invocation) returns (outcome: ExecutionOutcome)
    requires inv.log == [] && inv.Sized() && inv.polls == 1
    modifies inv`slots, inv`log, inv`polls
    ensures outcome == AnswerSeeded(op, inv.aborts, inv.chain, old(inv.slots))
    ensures TornDown(inv.chain, inv.log, outcome) && InSlotOrder(inv.log)
  {
    hide TornDown, InSlotOrder, AnswerSeeded, Finished, Decide;
    ghost var seeded := inv.slots;
    var stop;
    ghost var events, ending;
    stop, events, ending := inv.ResolveControlled();
    assert [] + events == events && events + [] == events;
    NothingStored([]);
    if stop.Some? {
      StoppedEnds(op, inv.aborts, inv, seeded, events, [], ending, inv.log);
      return StopAnswer(stop.value);
    }
    outcome := RunResolvedControlled(op, inv);
    ResolvedEnds(op, inv.aborts, inv, seeded, events, [], inv.log, outcome);
  }

  function ErrorHooks(hooks: seq<Hook>, outcome: ExecutionOutcome): (events: seq<Event>)
    ensures |events| == |hooks| && forall k | 0 <= k < |hooks| :: events[k] == ErrorHook(hooks[k], outcome)
  {
    seq(|hooks|, k requires 0 <= k < |hooks| => ErrorHook(hooks[k], outcome))
  }

  function ResponseHooks(hooks: seq<Hook>, outcome: ExecutionOutcome): (events: seq<Event>)
    ensures |events| == |hooks| && forall k | 0 <= k < |hooks| :: events[k] == ResponseHook(hooks[k], outcome)
  {
    seq(|hooks|, k requires 0 <= k < |hooks| => ResponseHook(hooks[k], outcome))
  }

  /** The hooks that follow an answer: error hooks unless it is a success, then response hooks, each backwards. */
  function HookEvents(op: Operation, outcome: ExecutionOutcome): seq<Event> {
    (if Told(outcome).Succeeded? then [] else ErrorHooks(Backwards(op.hooks.onError), outcome))
    + ResponseHooks(Backwards(op.hooks.onResponse), outcome)
  }

  /** The same by the record's own fields: the last hook registered runs first, and error hooks run before response hooks. */
  lemma LateHooksExactly(op: Operation, outcome: ExecutionOutcome)
    ensures var events, errors, responses := HookEvents(op, outcome), op.hooks.onError, op.hooks.onResponse;
            var n := if outcome.Success? || outcome.StreamingSuccess? || outcome.Upgrade? then 0 else |errors|;
            && |events| == n + |responses|
            && (forall k | 0 <= k < n :: events[k] == ErrorHook(errors[n - 1 - k], outcome))
            && forall k | n <= k < |events| :: events[k] == ResponseHook(responses[|events| - 1 - k], outcome)
  {
  }

  /** `on_error`. */
  method RunErrorHooks(op: Operation, inv: Invocation, outcome: ExecutionOutcome)
    modifies inv`log
    ensures inv.log == old(inv.log) + if Told(outcome).Succeeded? then [] else ErrorHooks(Backwards(op.hooks.onError), outcome)
  {
    if outcome.Success? || outcome.StreamingSuccess? || outcome.Upgrade? {
      return;
    }
    var hooks := op.hooks.onError;
    ghost var all := ErrorHooks(Backwards(hooks), outcome);
    var at := |hooks|;
    while at > 0
      invariant 0 <= at <= |hooks| && inv.log == old(inv.log) + all[..|hooks| - at]
    {
      at := at - 1;
      assert all[..|hooks| - at] == all[..|hooks| - at - 1] + [ErrorHook(hooks[at], outcome)];
      inv.log := inv.log + [ErrorHook(hooks[at], outcome)];
    }
    assert all[..|hooks|] == all;
  }

  /** `on_response`. */
  method RunResponseHooks(op: Operation, inv: Invocation, outcome: ExecutionOutcome)
    modifies inv`log
    ensures inv.log == old(inv.log) + ResponseHooks(Backwards(op.hooks.onResponse), outcome)
  {
    var hooks := op.hooks.onResponse;
    ghost var all := ResponseHooks(Backwards(hooks), outcome);
    var at := |hooks|;
    while at > 0
      invariant 0 <= at <= |hooks| && inv.log == old(inv.log) + all[..|hooks| - at]
    {
      at := at - 1;
      assert all[..|hooks| - at] == all[..|hooks| - at - 1] + [ResponseHook(hooks[at], outcome)];
      inv.log := inv.log + [ResponseHook(hooks[at], outcome)];
    }
    assert all[..|hooks|] == all;
  }

  /** The end both entry points share. */
  method RunLateHooks(op: Operation, inv: Invocation, outcome: ExecutionOutcome)
    modifies inv`log
    ensures inv.log == old(inv.log) + HookEvents(op, outcome)
  {
    if op.hooks.IsEmpty() {
      return;
    }
    RunErrorHooks(op, inv, outcome);
    RunResponseHooks(op, inv, outcome);
  }

  /** `invoke_input`: teardown is over before the first response hook runs. */
  method InvokeInput(op: Operation, inv: Invocation) returns (outcome: ExecutionOutcome, ghost work: seq<Event>)
    requires Wired(op) && (op.plan.Some? ==> op.plan.value == inv.chain) && inv.log == []
    modifies inv`slots, inv`log, inv`kind
    ensures outcome == Answer(op, NoAborts())
    ensures TornDown(inv.chain, work, outcome) && InSlotOrder(work)
    ensures inv.log == work + HookEvents(op, outcome)
  {
    outcome := InvokePipeline(op, inv);
    work := inv.log;
    RunLateHooks(op, inv, outcome);
  }

  /** `invoke_input_controlled`: once started, teardown and hooks are not polled for signals. */
  method InvokeInputControlled(op: Operation, inv: Invocation)
      returns (outcome: ExecutionOutcome, ghost work: seq<Event>)
    requires Wired(op) && (op.plan.Some? ==> op.plan.value == inv.chain) && inv.log == [] && inv.polls == 0
    modifies inv`slots, inv`log, inv`polls
    ensures outcome == Answer(op, inv.aborts)
    ensures TornDown(inv.chain, work, outcome) && InSlotOrder(work)
    ensures inv.log == work + HookEvents(op, outcome)
  {
    outcome := InvokePipelineControlled(op, inv);
    work := inv.log;
    RunLateHooks(op, inv, outcome);
  }

  // ----- what teardown amounts to -----

  /** One finalizer call per stored value, last first. */
  function TeardownOf(stores: seq<(nat, Value)>, told: RequestOutcome): seq<Event> {
    if stores == [] then []
    else
      var (provider, value) := stores[|stores| - 1];
      [Finalized(provider, value, told)] + TeardownOf(stores[..|stores| - 1], told)
  }

  lemma {:induction false} FinalizationWithoutError(c: Chain, stores: seq<(nat, Value)>, told: RequestOutcome)
    requires Finalization(c, stores, told).error.None?
    ensures Finalization(c, stores, told).events == TeardownOf(stores, told)
    decreases |stores|
  {
    if stores != [] {
      FinalizationWithoutError(c, stores[..|stores| - 1], told);
    }
  }

  predicate FinalizesQuietly(c: Chain, provider: nat, value: Value, told: RequestOutcome) {
    c.finalizer(provider, value, told).None?
  }

  /** No finalizer of the chain ever fails. */
  ghost predicate WillingToFinalize(c: Chain) {
    forall provider: nat, value: Value, told: RequestOutcome :: FinalizesQuietly(c, provider, value, told)
  }

  lemma {:induction false} WillingFinalizers(c: Chain, stores: seq<(nat, Value)>, told: RequestOutcome)
    requires WillingToFinalize(c)
    ensures Finalization(c, stores, told).error.None?
    decreases |stores|
  {
    if stores != [] {
      var last := stores[|stores| - 1];
      assert FinalizesQuietly(c, last.0, last.1, told);
      WillingFinalizers(c, stores[..|stores| - 1], told);
    }
  }

  /**
   If finalizers succeed, every stored value is finalized exactly once, in reverse slot order,
   after everything else, and told exactly what the caller is answered.
   */
  lemma FinalizedExactlyOnce(c: Chain, log: seq<Event>, outcome: ExecutionOutcome) returns (work: seq<Event>)
    requires TornDown(c, log, outcome)
    requires WillingToFinalize(c)
    ensures log == work + TeardownOf(Stores(log), Told(outcome)) && NoFinals(work)
  {
    hide Finalization, Stores, TeardownOf;
    var k, told {:trigger Finalization(c, Stores(log[..k]), told)} :|
      && 0 <= k <= |log| && NoFinals(log[..k])
      && var run := Finalization(c, Stores(log[..k]), told);
         && log[k..] == run.events
         && match run.error
            case Some(error) => outcome == ErrorAnswer(error)
            case None => log[k..] == [] || told == Told(outcome);
    work := log[..k];
    SplitTeardown(c, work, log[k..], Stores(work), told);
    assert work + log[k..] == log;
    if log[k..] == [] {
      TeardownOfNothing(Stores(work), told, Told(outcome));
    }
  }

  lemma SplitTeardown(c: Chain, work: seq<Event>, end: seq<Event>, stores: seq<(nat, Value)>, told: RequestOutcome)
    requires stores == Stores(work) && end == Finalization(c, stores, told).events
    requires WillingToFinalize(c)
    ensures Finalization(c, stores, told).error.None?
    ensures end == TeardownOf(stores, told) && Stores(work + end) == stores
  {
    WillingFinalizers(c, stores, told);
    FinalizationWithoutError(c, stores, told);
    FinalsStoreNothing(c, stores, told);
    StoresAppend(work, end);
  }

  lemma TeardownOfNothing(stores: seq<(nat, Value)>, told: RequestOutcome, other: RequestOutcome)
    requires TeardownOf(stores, told) == []
    ensures TeardownOf(stores, other) == []
  {
  }

  /** A finalizer that fails leaves the values below it unfinalized, and its error is the answer. */
  lemma FailingFinalizerAnswers(c: Chain, stores: seq<(nat, Value)>, told: RequestOutcome, k: nat)
    requires k < |stores|
    requires forall j | k < j < |stores| :: c.finalizer(stores[j].0, stores[j].1, told).None?
    requires c.finalizer(stores[k].0, stores[k].1, told).Some?
    ensures var run := Finalization(c, stores, told);
            run.error == c.finalizer(stores[k].0, stores[k].1, told) && |run.events| == |stores| - k
    decreases |stores|
  {
    if k < |stores| - 1 {
      var init := stores[..|stores| - 1];
      assert forall j | 0 <= j < |init| :: init[j] == stores[j];
      FailingFinalizerAnswers(c, init, told, k);
    }
  }

  /** A controlled invocation whose signals stay quiet answers what the plain one does. */
  lemma QuietSignalsChangeNothing(op: Operation, aborts: Aborts)
    requires Wired(op) && forall n :: aborts(n).None?
    ensures Answer(op, aborts) == Answer(op, NoAborts())
  {
    hide AnswerSeeded, Seeded;
    if op.plan.Some? {
      var c := op.plan.value;
      var seeded := Seeded(op, c.base + c.count, c.base);
      if seeded.Ok? {
        QuietSeeded(op, aborts, c, seeded.value);
      }
    }
  }

  lemma QuietSeeded(op: Operation, aborts: Aborts, c: Chain, seeded: Slots)
    requires |seeded| == c.base + c.count && forall n :: aborts(n).None?
    ensures AnswerSeeded(op, aborts, c, seeded) == AnswerSeeded(op, NoAborts(), c, seeded)
  {
    QuietChain(c, aborts, seeded, c.count);
    AfterStores(c, aborts, 1, seeded, c.count);
    QuietDecision(op, aborts, 1 + c.count, After(c, aborts, 1, seeded, c.count).slots);
    hide After, Decide, Finalization;
  }

  lemma QuietDecision(op: Operation, aborts: Aborts, poll: nat, slots: Slots)
    requires forall n :: aborts(n).None?
    ensures Decide(op, aborts, poll, slots) == Decide(op, NoAborts(), poll, slots)
  {
  }

  lemma {:induction false} QuietChain(c: Chain, aborts: Aborts, seeded: Slots, n: nat)
    requires |seeded| == c.base + c.count && n <= c.count && forall m :: aborts(m).None?
    ensures After(c, aborts, 1, seeded, n) == After(c, NoAborts(), 1, seeded, n)
  {
    if n > 0 {
      QuietChain(c, aborts, seeded, n - 1);
    }
  }

  /**
   A factory is called before the signals are polled, so a signal that fires at provider `i` drops a
   value that was produced: it is never stored, hence never finalized.
   */
  lemma SignalDropsProducedValue(c: Chain, aborts: Aborts, from: nat, seeded: Slots, i: nat)
    requires |seeded| == c.base + c.count && i < c.count
    requires After(c, aborts, from, seeded, i).stop.None? && aborts(from + i).Some?
    ensures var p := After(c, aborts, from, seeded, c.count);
            && p.events == After(c, aborts, from, seeded, i).events + [Called(i)]
            && p.stop == Some(ByAbort(aborts(from + i).value))
            && Stores(p.events) == Stores(After(c, aborts, from, seeded, i).events)
  {
    AfterStores(c, aborts, from, seeded, i);
    AfterNext(c, aborts, from, seeded, i);
    var p := After(c, aborts, from, seeded, i);
    assert Advance(c, aborts, from, p, i).events == p.events + [Called(i)];
    hide After, Stores;
    AfterStopped(c, aborts, from, seeded, i + 1, c.count);
    CalledStores(p.events, i);
  }

  function Calls(log: seq<Event>): seq<nat> {
    if log == [] then []
    else
      var last := log[|log| - 1];
      Calls(log[..|log| - 1]) + (if last.Called? then [last.provider] else [])
  }

  /** The factories `0`, `1`, ... up to `n` have been called, each once. */
  predicate CalledUpTo(log: seq<Event>, n: nat) {
    Calls(log) == seq(n, k => k)
  }

  lemma CallsAppend(log: seq<Event>, event: Event)
    ensures Calls(log + [event]) == Calls(log) + if event.Called? then [event.provider] else []
  {
    assert (log + [event])[..|log|] == log;
  }

  lemma AdvanceCalls(c: Chain, aborts: Aborts, from: nat, p: Progress, i: nat)
    requires |p.slots| == c.base + c.count && i < c.count && p.stop.None? && CalledUpTo(p.events, i)
    ensures CalledUpTo(Advance(c, aborts, from, p, i).events, i + 1)
  {
    var q := Advance(c, aborts, from, p, i);
    assert q.events == p.events + [Called(i)]
        || exists value :: q.events == p.events + [Called(i)] + [Stored(i, value)];
    hide Calls, Advance;
    CallsAppend(p.events, Called(i));
    NextNumber(i);
    if value :| q.events == p.events + [Called(i)] + [Stored(i, value)] {
      CallsAppend(p.events + [Called(i)], Stored(i, value));
      assert Calls(p.events) + [i] + [] == Calls(p.events) + [i];
    }
  }

  lemma NextNumber(i: nat)
    ensures seq(i, k => k) + [i] == seq(i + 1, k => k)
  {
  }

  /** The reference run calls each factory at most once, in chain order. */
  lemma {:induction false} EachFactoryOnce(c: Chain, aborts: Aborts, from: nat, seeded: Slots, n: nat)
    requires |seeded| == c.base + c.count && n <= c.count
    ensures var p := After(c, aborts, from, seeded, n);
            CalledUpTo(p.events, p.filled + if p.stop.Some? then 1 else 0)
  {
    hide Advance, Calls;
    if n == 0 {
      assert Calls([]) == [] by {
        NoCalls();
      }
    } else {
      EachFactoryOnce(c, aborts, from, seeded, n - 1);
      var p := After(c, aborts, from, seeded, n - 1);
      if p.stop.None? {
        AdvanceCalls(c, aborts, from, p, n - 1);
      }
    }
  }

  lemma NoCalls()
    ensures Calls([]) == []
  {
  }
}
