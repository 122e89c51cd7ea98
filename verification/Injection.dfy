/**
 Running a compiled chain: every slot a provider reads has been filled, and what the handler reads
 is what dependency injection means.
 */
module Injection {
  import opened Wrappers
  import opened Outcomes
  import opened ProviderGraph
  import opened DependencyMeaning
  import opened CompiledProviders
  import opened SingletonBuild
  import opened InputPlan
  import opened SlotCompiler
  import opened ProviderChain

  /** A chain whose factories are the compiled providers'; which are asynchronous plays no part. */
  ghost predicate RunsCompiled(c: Chain, g: Setup, world: World, chain: seq<Compiled>, singletons: Slots) {
    && c.base == |g.plan.decoders| && c.count == |chain|
    && forall i: nat, slots: Slots | i < |chain| :: c.factory(i, slots) == Run(world, chain[i], singletons, slots)
  }

  /** Singletons are in their slots. */
  ghost predicate SingletonsHeld(g: Setup, world: World, singletons: Slots)
    requires Validated(g.regs, g.ranks)
  {
    && |g.singletonSlots| == |g.regs|
    && forall id | 0 <= id < |g.regs| && g.regs[id].lifetime.Singleton? ::
         Holds(g.regs, g.ranks, world, g.singletonSlots, singletons, id)
  }

  /** Decoded inputs come first. */
  ghost predicate InputsDecoded(g: Setup, world: World, slots: Slots) {
    && |g.plan.decoders| <= |slots|
    && forall p | 0 <= p < |g.plan.decoders| :: slots[p] == Some(world.decode(g.plan.decoders[p]))
  }

  /** Slot `base + i` holds the value of provider `id`. */
  ghost predicate ValueAt(g: Setup, world: World, id: nat, slots: Slots, i: nat)
    requires Validated(g.regs, g.ranks)
  {
    && id < |g.regs| && |g.plan.decoders| + i < |slots| && slots[|g.plan.decoders| + i].Some?
    && Eval(g.regs, g.ranks, world, id) == Ok(slots[|g.plan.decoders| + i].value)
  }

  /** The entries of `done` have their providers' values. */
  ghost predicate ValuesStored(g: Setup, world: World, done: seq<Compiled>, slots: Slots)
    requires Validated(g.regs, g.ranks)
  {
    forall i | 0 <= i < |done| :: ValueAt(g, world, done[i].id, slots, i)
  }

  lemma SlotReads(
      g: Setup, world: World, done: seq<Compiled>, singletons: Slots, slots: Slots, slot: Slot, id: nat)
    requires Validated(g.regs, g.ranks) && Points(g, done, slot, id)
    requires SingletonsHeld(g, world, singletons) && ValuesStored(g, world, done, slots)
    ensures Read(slot, singletons, slots).Some?
    ensures Eval(g.regs, g.ranks, world, id) == Ok(Read(slot, singletons, slots).value)
  {
    hide Eval, Validated;
    match slot
    case SingletonSlot(index) =>
      assert Holds(g.regs, g.ranks, world, g.singletonSlots, singletons, id);
    case RequestSlot(index) =>
      var i := index - |g.plan.decoders|;
      assert ValueAt(g, world, done[i].id, slots, i);
  }

  lemma DependenciesRead(g: Setup, world: World, done: seq<Compiled>, entry: Compiled, singletons: Slots, slots: Slots)
      returns (values: seq<Value>)
    requires Validated(g.regs, g.ranks) && EntryValid(g, done, entry)
    requires SingletonsHeld(g, world, singletons) && ValuesStored(g, world, done, slots)
    ensures |values| == |g.regs[entry.id].dependencies|
    ensures forall k | 0 <= k < |values| :: Read(entry.slots[k], singletons, slots) == Some(values[k])
    ensures forall k | 0 <= k < |values| ::
              Eval(g.regs, g.ranks, world, Target(g.regs, g.ranks, entry.id, k)) == Ok(values[k])
  {
    hide Eval, SingletonsHeld, ValuesStored, Points, Read, Validated;
    values := [];
    var n := |g.regs[entry.id].dependencies|;
    while |values| < n
      invariant |values| <= n
      invariant forall k | 0 <= k < |values| :: Read(entry.slots[k], singletons, slots) == Some(values[k])
      invariant forall k | 0 <= k < |values| ::
                  Eval(g.regs, g.ranks, world, Target(g.regs, g.ranks, entry.id, k)) == Ok(values[k])
    {
      var k := |values|;
      SlotReads(g, world, done, singletons, slots, entry.slots[k], Target(g.regs, g.ranks, entry.id, k));
      values := values + [Read(entry.slots[k], singletons, slots).value];
    }
  }

  lemma ReadsJoin(
      all: seq<Slot>, singletons: Slots, slots: Slots, first: seq<Value>, second: seq<Value>)
    requires |all| == |first| + |second|
    requires forall k | 0 <= k < |first| :: Read(all[k], singletons, slots) == Some(first[k])
    requires forall k | 0 <= k < |second| :: Read(all[|first|..][k], singletons, slots) == Some(second[k])
    ensures ReadAll(all, singletons, slots) == Some(first + second)
  {
    hide Read, ReadAll;
    forall k | 0 <= k < |all| ensures Read(all[k], singletons, slots) == Some((first + second)[k]) {
      if k >= |first| {
        assert all[|first|..][k - |first|] == all[k];
      }
    }
    var values := ReadAll(all, singletons, slots);
    assert values.value == first + second;
  }

  /** No slot an entry reads is empty, and running it gives the provider's value. */
  lemma EntryRuns(g: Setup, world: World, done: seq<Compiled>, entry: Compiled, singletons: Slots, slots: Slots)
    requires Validated(g.regs, g.ranks) && EntryValid(g, done, entry)
    requires SingletonsHeld(g, world, singletons) && ValuesStored(g, world, done, slots)
    requires InputsDecoded(g, world, slots)
    ensures ReadAll(entry.slots, singletons, slots).Some?
    ensures Run(world, entry, singletons, slots) == Eval(g.regs, g.ranks, world, entry.id)
  {
    var inputs := g.regs[entry.id].inputs;
    var n := |g.regs[entry.id].dependencies|;
    var values := DependenciesRead(g, world, done, entry, singletons, slots);
    InputReads(g, world, entry.slots[n..], inputs, singletons, slots);
    hide Eval, ReadAll, Read, SingletonsHeld, ValuesStored, Points, Validated, EntryValid, InputsRead, InputsDecoded;
    ReadsJoin(entry.slots, singletons, slots, values, Decoded(world, inputs));
    EvalFrom(g.regs, g.ranks, world, entry.id, values);
  }

  lemma InputReads(
      g: Setup, world: World, inputSlots: seq<Slot>, inputs: seq<Input>, singletons: Slots, slots: Slots)
    requires InputsRead(g.plan, inputSlots, inputs) && InputsDecoded(g, world, slots)
    ensures |inputSlots| == |inputs|
    ensures forall k | 0 <= k < |inputs| :: Read(inputSlots[k], singletons, slots) == Some(Decoded(world, inputs)[k])
  {
  }

  /**
   What ends a run of the providers, by meaning alone: in order, the signals' poll of each comes
   before its own outcome.
   */
  ghost function Halts(g: Setup, world: World, aborts: Aborts, from: nat, chain: seq<Compiled>): Option<Stop>
    requires Validated(g.regs, g.ranks) && forall i | 0 <= i < |chain| :: chain[i].id < |g.regs|
  {
    if chain == [] then None
    else
      var init := chain[..|chain| - 1];
      match Halts(g, world, aborts, from, init)
      case Some(stop) => Some(stop)
      case None =>
        match aborts(from + |init|)
        case Some(abort) => Some(ByAbort(abort))
        case None =>
          match FailureOf(Eval(g.regs, g.ranks, world, chain[|chain| - 1].id))
          case Some(error) => Some(ByError(error))
          case None => None
  }

  /** Until something ends the run, slots are filled with exactly the providers' values. */
  ghost predicate RunsAs(g: Setup, world: World, aborts: Aborts, from: nat, done: seq<Compiled>, p: Progress)
    requires Validated(g.regs, g.ranks)
  {
    && (forall i | 0 <= i < |done| :: done[i].id < |g.regs|)
    && p.stop == Halts(g, world, aborts, from, done)
    && (p.stop.None? ==> ValuesStored(g, world, done, p.slots) && InputsDecoded(g, world, p.slots))
  }

  /**
   Resolving the first `n` entries under any signals: slots fill with exactly the providers' values
   until a signal, or a provider without a value, stops the chain.
   */
  lemma {:induction false} ChainRuns(
      g: Setup, world: World, chain: seq<Compiled>, singletons: Slots, c: Chain, aborts: Aborts, from: nat,
      seeded: Slots, n: nat)
    requires Validated(g.regs, g.ranks) && ChainValid(g, chain) && n <= |chain|
    requires SingletonsHeld(g, world, singletons) && InputsDecoded(g, world, seeded)
    requires RunsCompiled(c, g, world, chain, singletons) && |seeded| == c.base + c.count
    ensures RunsAs(g, world, aborts, from, chain[..n], After(c, aborts, from, seeded, n))
    decreases n
  {
    hide Eval, Halts, EntryValid, SingletonsHeld, RunsAs, Advance, ValuesStored, InputsDecoded, Validated;
    if n == 0 {
      NothingRuns(g, world, aborts, from, seeded);
      assert chain[..0] == [];
    } else {
      ChainRuns(g, world, chain, singletons, c, aborts, from, seeded, n - 1);
      assert EntryValid(g, chain[..n - 1], chain[n - 1]);
      assert chain[..n] == chain[..n - 1] + [chain[n - 1]];
      OneRuns(g, world, chain, singletons, c, aborts, from, After(c, aborts, from, seeded, n - 1), n - 1);
    }
  }

  /** No provider that is reached reads an empty slot, and its factory answers its provider's value. */
  lemma NoSlotReadEmpty(
      g: Setup, world: World, chain: seq<Compiled>, singletons: Slots, c: Chain, aborts: Aborts, from: nat,
      seeded: Slots, i: nat)
    requires Validated(g.regs, g.ranks) && ChainValid(g, chain) && i < |chain|
    requires SingletonsHeld(g, world, singletons) && InputsDecoded(g, world, seeded)
    requires RunsCompiled(c, g, world, chain, singletons) && |seeded| == c.base + c.count
    requires After(c, aborts, from, seeded, i).stop.None?
    ensures var slots := After(c, aborts, from, seeded, i).slots;
            && ReadAll(chain[i].slots, singletons, slots).Some?
            && c.factory(i, slots) == Eval(g.regs, g.ranks, world, chain[i].id)
  {
    hide Eval, After, Validated, SingletonsHeld, ValuesStored, InputsDecoded, ReadAll, EntryValid, Run;
    ChainRuns(g, world, chain, singletons, c, aborts, from, seeded, i);
    EntryRuns(g, world, chain[..i], chain[i], singletons, After(c, aborts, from, seeded, i).slots);
  }

  lemma NothingRuns(g: Setup, world: World, aborts: Aborts, from: nat, seeded: Slots)
    requires Validated(g.regs, g.ranks) && InputsDecoded(g, world, seeded)
    ensures RunsAs(g, world, aborts, from, [], Progress(seeded, 0, None, []))
  {
  }

  lemma OneRuns(
      g: Setup, world: World, chain: seq<Compiled>, singletons: Slots, c: Chain, aborts: Aborts, from: nat,
      p: Progress, i: nat)
    requires Validated(g.regs, g.ranks) && i < |chain| && EntryValid(g, chain[..i], chain[i])
    requires SingletonsHeld(g, world, singletons) && RunsCompiled(c, g, world, chain, singletons)
    requires |p.slots| == c.base + c.count && RunsAs(g, world, aborts, from, chain[..i], p)
    ensures RunsAs(g, world, aborts, from, chain[..i + 1], Advance(c, aborts, from, p, i))
  {
    EntryInRange(g, chain[..i], chain[i]);
    assert c.count == |chain|;
    hide *;
    if p.stop.None? {
      FactoryMeans(g, world, chain, singletons, c, aborts, from, p, i);
      OneAdvances(g, world, chain, c, aborts, from, p, i);
    } else {
      OneStopped(g, world, chain, c, aborts, from, p, i);
    }
  }

  lemma EntryInRange(g: Setup, before: seq<Compiled>, entry: Compiled)
    requires Validated(g.regs, g.ranks) && EntryValid(g, before, entry)
    ensures entry.id < |g.regs|
  {
  }

  /** The next factory reads what the providers before it stored, and answers its provider's value. */
  lemma FactoryMeans(
      g: Setup, world: World, chain: seq<Compiled>, singletons: Slots, c: Chain, aborts: Aborts, from: nat,
      p: Progress, i: nat)
    requires Validated(g.regs, g.ranks) && i < |chain| && EntryValid(g, chain[..i], chain[i])
    requires SingletonsHeld(g, world, singletons) && RunsCompiled(c, g, world, chain, singletons)
    requires RunsAs(g, world, aborts, from, chain[..i], p) && p.stop.None?
    ensures chain[i].id < |g.regs| && c.factory(i, p.slots) == Eval(g.regs, g.ranks, world, chain[i].id)
    ensures c.base == |g.plan.decoders| && c.count == |chain|
    ensures ValuesStored(g, world, chain[..i], p.slots) && InputsDecoded(g, world, p.slots)
  {
    EntryInRange(g, chain[..i], chain[i]);
    hide Eval, Run, Halts, EntryValid, SingletonsHeld, ValuesStored, InputsDecoded, Validated;
    EntryRuns(g, world, chain[..i], chain[i], singletons, p.slots);
  }

  lemma OneAdvances(
      g: Setup, world: World, chain: seq<Compiled>, c: Chain, aborts: Aborts, from: nat, p: Progress, i: nat)
    requires Validated(g.regs, g.ranks) && i < |chain| && c.base == |g.plan.decoders| && c.count == |chain|
    requires |p.slots| == c.base + c.count && RunsAs(g, world, aborts, from, chain[..i], p) && p.stop.None?
    requires chain[i].id < |g.regs| && c.factory(i, p.slots) == Eval(g.regs, g.ranks, world, chain[i].id)
    requires ValuesStored(g, world, chain[..i], p.slots) && InputsDecoded(g, world, p.slots)
    ensures RunsAs(g, world, aborts, from, chain[..i + 1], Advance(c, aborts, from, p, i))
  {
    hide Eval, Halts, ValuesStored, InputsDecoded, Validated;
    assert chain[..i + 1] == chain[..i] + [chain[i]];
    HaltsAppend(g, world, aborts, from, chain[..i], chain[i]);
    var value := Eval(g.regs, g.ranks, world, chain[i].id);
    if value.Ok? {
      ValuesGrow(g, world, chain, p.slots, i, value.value);
    }
  }

  lemma OneStopped(
      g: Setup, world: World, chain: seq<Compiled>, c: Chain, aborts: Aborts, from: nat, p: Progress, i: nat)
    requires Validated(g.regs, g.ranks) && i < |chain| && chain[i].id < |g.regs| && i < c.count
    requires |p.slots| == c.base + c.count && RunsAs(g, world, aborts, from, chain[..i], p) && p.stop.Some?
    ensures RunsAs(g, world, aborts, from, chain[..i + 1], Advance(c, aborts, from, p, i))
  {
    hide Eval, Halts, Validated;
    assert chain[..i + 1] == chain[..i] + [chain[i]];
    HaltsAppend(g, world, aborts, from, chain[..i], chain[i]);
  }

  lemma HaltsAppend(g: Setup, world: World, aborts: Aborts, from: nat, chain: seq<Compiled>, entry: Compiled)
    requires Validated(g.regs, g.ranks) && forall i | 0 <= i < |chain| :: chain[i].id < |g.regs|
    requires entry.id < |g.regs|
    ensures Halts(g, world, aborts, from, chain + [entry])
            == match Halts(g, world, aborts, from, chain)
               case Some(stop) => Some(stop)
               case None =>
                 match aborts(from + |chain|)
                 case Some(abort) => Some(ByAbort(abort))
                 case None =>
                   match FailureOf(Eval(g.regs, g.ranks, world, entry.id))
                   case Some(error) => Some(ByError(error))
                   case None => None
  {
    hide Eval, Validated;
    var longer := chain + [entry];
    assert longer[..|longer| - 1] == chain;
  }

  /** A signal ends the run exactly when one fires at a provider before which none fails. */
  ghost predicate Interrupted(g: Setup, world: World, aborts: Aborts, from: nat, chain: seq<Compiled>)
    requires Validated(g.regs, g.ranks) && forall i | 0 <= i < |chain| :: chain[i].id < |g.regs|
  {
    exists i | 0 <= i < |chain| :: aborts(from + i).Some? && FirstFailure(g, world, chain[..i]).None?
  }

  /** From poll `from` on, `poll` is the first at which a signal fires, and it is `abort`. */
  ghost predicate FirstSignal(aborts: Aborts, from: nat, poll: nat, abort: Abort) {
    from <= poll && aborts(poll) == Some(abort) && forall earlier: nat | from <= earlier < poll :: aborts(earlier).None?
  }

  /** What a run comes to: the first signal, if any fires before a failure, or else the first failure. */
  ghost predicate HaltsAs(
      g: Setup, world: World, aborts: Aborts, from: nat, chain: seq<Compiled>, halt: Option<Stop>)
    requires Validated(g.regs, g.ranks) && forall i | 0 <= i < |chain| :: chain[i].id < |g.regs|
  {
    if Interrupted(g, world, aborts, from, chain) then
      exists poll: nat, abort | poll < from + |chain| ::
        halt == Some(ByAbort(abort)) && FirstSignal(aborts, from, poll, abort)
    else
      match FirstFailure(g, world, chain)
      case Some(error) => halt == Some(ByError(error))
      case None => halt.None?
  }

  lemma {:induction false} HaltsExactly(g: Setup, world: World, aborts: Aborts, from: nat, chain: seq<Compiled>)
    requires Validated(g.regs, g.ranks) && forall i | 0 <= i < |chain| :: chain[i].id < |g.regs|
    ensures HaltsAs(g, world, aborts, from, chain, Halts(g, world, aborts, from, chain))
    decreases |chain|
  {
    hide Eval, Validated;
    if chain != [] {
      var init, n := chain[..|chain| - 1], |chain| - 1;
      HaltsExactly(g, world, aborts, from, init);
      assert forall i | 0 <= i < n :: init[..i] == chain[..i];
      if !Interrupted(g, world, aborts, from, init) && Interrupted(g, world, aborts, from, chain) {
        assert FirstFailure(g, world, init).None? && aborts(from + n).Some?;
        forall earlier: nat | from <= earlier < from + n ensures aborts(earlier).None? {
          NoFailureBefore(g, world, init, earlier - from);
          assert init[..earlier - from] == chain[..earlier - from] && aborts(from + (earlier - from)) == aborts(earlier);
        }
        assert FirstSignal(aborts, from, from + n, aborts(from + n).value);
      }
    }
  }

  lemma {:induction false} NoFailureBefore(g: Setup, world: World, chain: seq<Compiled>, n: nat)
    requires Validated(g.regs, g.ranks) && forall i | 0 <= i < |chain| :: chain[i].id < |g.regs|
    requires FirstFailure(g, world, chain).None? && n <= |chain|
    ensures FirstFailure(g, world, chain[..n]).None?
    decreases |chain|
  {
    hide Eval, Validated;
    if n == |chain| {
      assert chain[..n] == chain;
    } else {
      NoFailureBefore(g, world, chain[..|chain| - 1], n);
      assert chain[..|chain| - 1][..n] == chain[..n];
    }
  }

  lemma ValuesGrow(g: Setup, world: World, chain: seq<Compiled>, slots: Slots, i: nat, value: Value)
    requires Validated(g.regs, g.ranks) && i < |chain| && |slots| == |g.plan.decoders| + |chain|
    requires chain[i].id < |g.regs| && Eval(g.regs, g.ranks, world, chain[i].id) == Ok(value)
    requires ValuesStored(g, world, chain[..i], slots) && InputsDecoded(g, world, slots)
    ensures var after := slots[|g.plan.decoders| + i := Some(value)];
            ValuesStored(g, world, chain[..i + 1], after) && InputsDecoded(g, world, after)
  {
    hide Eval, Validated;
    var base := |g.plan.decoders|;
    var after, done := slots[base + i := Some(value)], chain[..i + 1];
    forall j | 0 <= j < |done| ensures ValueAt(g, world, done[j].id, after, j) {
      if j < i {
        assert ValueAt(g, world, chain[..i][j].id, slots, j);
        assert done[j] == chain[..i][j] && after[base + j] == slots[base + j];
      } else {
        assert done[j] == chain[i] && after[base + j] == Some(value);
      }
    }
  }

  /** What the compiled operation's providers and slots come to, at the end of a run. */
  ghost predicate MeansInjection(
      g: Setup, world: World, scope: map<TypeKey, nat>, requests: seq<TypeKey>, op: CompiledOperation,
      singletons: Slots, aborts: Aborts, from: nat, p: Progress)
    requires Validated(g.regs, g.ranks) && Below(g.ranks, Roots(scope, requests), Top(g.ranks))
    requires forall i | 0 <= i < |op.chain| :: op.chain[i].id < |g.regs|
  {
    if Interrupted(g, world, aborts, from, op.chain) then
      exists poll: nat, abort | poll < from + |op.chain| ::
        p.stop == Some(ByAbort(abort)) && FirstSignal(aborts, from, poll, abort)
    else
      match EvalAll(g.regs, g.ranks, world, Roots(scope, requests), Top(g.ranks))
      case Err(error) => p.stop == Some(ByError(error))
      case Ok(values) => p.stop.None? && ReadAll(op.handlerSlots, singletons, p.slots) == Some(values)
  }

  /**
   Dependency injection by slots is dependency injection, under any signals: unless a signal ends it,
   resolving the compiled chain in order fails with the first error that evaluating the handler's
   dependencies would, or else the handler reads exactly their values.
   */
  lemma SlotsMeanInjection(
      g: Setup, worlds: iset<World>, world: World, scope: map<TypeKey, nat>, requests: seq<TypeKey>,
      op: CompiledOperation, singletons: Slots, c: Chain, aborts: Aborts, from: nat, seeded: Slots)
    requires Validated(g.regs, g.ranks) && CompiledFor(g, worlds, scope, requests, op) && world in worlds
    requires SingletonsHeld(g, world, singletons) && InputsDecoded(g, world, seeded)
    requires RunsCompiled(c, g, world, op.chain, singletons) && |seeded| == c.base + c.count
    ensures Below(g.ranks, Roots(scope, requests), Top(g.ranks))
    ensures forall i | 0 <= i < |op.chain| :: op.chain[i].id < |g.regs|
    ensures var p := After(c, aborts, from, seeded, c.count);
            MeansInjection(g, world, scope, requests, op, singletons, aborts, from, p)
  {
    hide Eval, EvalAll, After, FirstFailure, Halts, Interrupted, CompiledFor, Validated, Read, ReadAll, SingletonsHeld;
    hide InputsDecoded, ValuesStored, Roots, EntryValid;
    CompiledParts(g, worlds, world, scope, requests, op);
    ChainRuns(g, world, op.chain, singletons, c, aborts, from, seeded, |op.chain|);
    assert op.chain[..|op.chain|] == op.chain;
    HaltsExactly(g, world, aborts, from, op.chain);
    if !Interrupted(g, world, aborts, from, op.chain) {
      RunMeans(g, world, Roots(scope, requests), op, singletons, After(c, aborts, from, seeded, c.count));
    }
  }

  lemma CompiledParts(
      g: Setup, worlds: iset<World>, world: World, scope: map<TypeKey, nat>, requests: seq<TypeKey>,
      op: CompiledOperation)
    requires Validated(g.regs, g.ranks) && CompiledFor(g, worlds, scope, requests, op) && world in worlds
    ensures ChainValid(g, op.chain)
    ensures var ids := Roots(scope, requests);
            && |op.handlerSlots| == |ids| == |requests| && Below(g.ranks, ids, Top(g.ranks))
            && (forall k | 0 <= k < |ids| :: Points(g, op.chain, op.handlerSlots[k], ids[k]))
            && FailsAlike(g, world, [], op.chain, FailureOf(EvalAll(g.regs, g.ranks, world, ids, Top(g.ranks))))
  {
    hide Eval, EvalAll, FirstFailure, FailsAlike, Points, ChainValid, Validated, Exclusive, Uses;
    assert forall key | key in requests :: key in scope;
  }

  /** Of any run that no signal ended. */
  lemma RunMeans(g: Setup, world: World, ids: seq<nat>, op: CompiledOperation, singletons: Slots, p: Progress)
    requires Validated(g.regs, g.ranks) && forall i | 0 <= i < |op.chain| :: op.chain[i].id < |g.regs|
    requires p.stop == match FirstFailure(g, world, op.chain)
                       case Some(error) => Some(ByError(error))
                       case None => None
    requires p.stop.None? ==> ValuesStored(g, world, op.chain, p.slots)
    requires |op.handlerSlots| == |ids| && Below(g.ranks, ids, Top(g.ranks))
    requires forall k | 0 <= k < |ids| :: Points(g, op.chain, op.handlerSlots[k], ids[k])
    requires FailsAlike(g, world, [], op.chain, FailureOf(EvalAll(g.regs, g.ranks, world, ids, Top(g.ranks))))
    requires SingletonsHeld(g, world, singletons)
    ensures match EvalAll(g.regs, g.ranks, world, ids, Top(g.ranks))
            case Err(error) => p.stop == Some(ByError(error))
            case Ok(values) => p.stop.None? && ReadAll(op.handlerSlots, singletons, p.slots) == Some(values)
  {
    NothingFails(g, world);
    hide Eval, EvalAll, FirstFailure, Validated, SingletonsHeld, Points, ValuesStored, Read, ReadAll;
    if FirstFailure(g, world, op.chain).None? {
      HandlerReads(g, world, op, ids, singletons, p.slots);
    }
  }

  lemma NothingFails(g: Setup, world: World)
    requires Validated(g.regs, g.ranks)
    ensures FirstFailure(g, world, []) == None
  {
  }

  lemma HandlerReads(
      g: Setup, world: World, op: CompiledOperation, ids: seq<nat>, singletons: Slots, slots: Slots)
    requires Validated(g.regs, g.ranks) && |op.handlerSlots| == |ids| && Below(g.ranks, ids, Top(g.ranks))
    requires forall k | 0 <= k < |ids| :: Points(g, op.chain, op.handlerSlots[k], ids[k])
    requires SingletonsHeld(g, world, singletons) && ValuesStored(g, world, op.chain, slots)
    ensures var all := EvalAll(g.regs, g.ranks, world, ids, Top(g.ranks));
            all.Ok? && ReadAll(op.handlerSlots, singletons, slots) == Some(all.value)
  {
    forall k | 0 <= k < |ids|
      ensures Read(op.handlerSlots[k], singletons, slots).Some?
      ensures Eval(g.regs, g.ranks, world, ids[k]) == Ok(Read(op.handlerSlots[k], singletons, slots).value)
    {
      SlotReads(g, world, op.chain, singletons, slots, op.handlerSlots[k], ids[k]);
    }
    hide Eval, Points, SingletonsHeld, ValuesStored, Read;
    EvalAllValues(g.regs, g.ranks, world, ids, Top(g.ranks));
    assert ReadAll(op.handlerSlots, singletons, slots).value == EvalAll(g.regs, g.ranks, world, ids, Top(g.ranks)).value;
  }

  /** An operation without request providers decodes no provider inputs. */
  lemma EmptyChainDecodesNothing(
      g: Setup, worlds: iset<World>, scope: map<TypeKey, nat>, requests: seq<TypeKey>, op: CompiledOperation)
    requires Validated(g.regs, g.ranks) && CompiledFor(g, worlds, scope, requests, op) && op.chain == []
    requires forall input | input in g.plan.decoders :: Declared(g.regs, Roots(scope, requests), input)
    ensures g.plan.decoders == []
  {
    hide Eval, EvalAll, FailsAsAll, RequestOnce, ChainValid, Validated, Exclusive, Uses;
    var roots := Roots(scope, requests);
    forall root | root in roots ensures root < |g.regs| && g.regs[root].lifetime.Singleton? {
      var k :| 0 <= k < |requests| && requests[k] in scope && scope[requests[k]] == root;
      assert Points(g, [], op.handlerSlots[k], root);
    }
    assert g.plan.decoders == [] || g.plan.decoders[0] in g.plan.decoders;
    forall id: nat | id < |g.regs| && Needed(g.regs, roots, id) ensures g.regs[id].lifetime.Singleton? {
      var walk :| NeededBy(g.regs, roots, walk) && walk[|walk| - 1] == id;
      assert g.regs[walk[0]].lifetime.Singleton?;
    }
  }

  // ----- building an operation, start to end -----

  datatype Build = Build(
    singletons: Slots, singletonSlots: seq<Option<nat>>, plan: Plan, op: CompiledOperation)

  datatype BuildError = InGraph(graph: GraphError) | InCompiler(compile: CompileError)

  /** Every request to an application with these factories. */
  ghost function Requests(factory: (nat, seq<Value>) -> Result<Value, DependencyError>): iset<World> {
    iset world: World | world.factory == factory
  }

  ghost predicate SingletonsHaveValues(regs: seq<Registration>, ranks: seq<nat>, world: World)
    requires Validated(regs, ranks)
  {
    forall id | 0 <= id < |regs| && regs[id].lifetime.Singleton? :: Eval(regs, ranks, world, id).Ok?
  }

  ghost predicate ExplainsProviders(regs: seq<Registration>, ranks: seq<nat>, world: World, error: BuildError)
    requires Scoped(regs) && (Sound(regs) ==> Validated(regs, ranks))
  {
    match error
    case InGraph(defect) => !Sound(regs) && Genuine(regs, defect) && exists path :: FirstFault(regs, path, defect)
    case InCompiler(SingletonFailed(id, failure)) =>
      && Sound(regs) && id < |regs| && Eval(regs, ranks, world, id) == Err(failure)
      && FirstCulprit(regs, ranks, world, id)
    case InCompiler(_) => false
  }

  ghost predicate ExplainsOperation(
      regs: seq<Registration>, scope: map<TypeKey, nat>, requests: seq<TypeKey>, error: BuildError)
  {
    match error
    case InCompiler(ConflictingInput(key)) => Clashing(regs, Roots(scope, requests), key)
    case InCompiler(MissingForOperation(key)) =>
      && Consistent(regs, Roots(scope, requests))
      && exists k | 0 <= k < |requests| ::
           requests[k] == key && key !in scope && forall j | 0 <= j < k :: requests[j] in scope
    case _ => false
  }

  /** The error is there, and the compilers before the one that reports it had nothing to report. */
  ghost predicate Explains(
      regs: seq<Registration>, ranks: seq<nat>, world: World, scope: map<TypeKey, nat>, requests: seq<TypeKey>,
      error: BuildError)
    requires Scoped(regs) && (Sound(regs) ==> Validated(regs, ranks))
  {
    || ExplainsProviders(regs, ranks, world, error)
    || (Sound(regs) && SingletonsHaveValues(regs, ranks, world) && ExplainsOperation(regs, scope, requests, error))
  }

  /** Every singleton's slot holds its value. */
  ghost predicate SingletonsStored(
      regs: seq<Registration>, ranks: seq<nat>, world: World, values: Slots, slots: seq<Option<nat>>)
    requires Validated(regs, ranks)
  {
    && Assigned(regs, slots, |values|)
    && forall id | 0 <= id < |regs| && regs[id].lifetime.Singleton? :: Holds(regs, ranks, world, slots, values, id)
  }

  function SetupOf(regs: seq<Registration>, ranks: seq<nat>, b: Build, covered: set<nat>): Setup {
    Setup(regs, ranks, b.singletonSlots, |b.singletons|, b.plan, covered)
  }

  /** The build serves every request to an application with these factories. */
  ghost predicate BuiltFor(
      regs: seq<Registration>, ranks: seq<nat>, world: World, scope: map<TypeKey, nat>, requests: seq<TypeKey>,
      b: Build, covered: set<nat>)
  {
    var g := SetupOf(regs, ranks, b, covered);
    && Validated(regs, ranks)
    && CompiledFor(g, Requests(world.factory), scope, requests, b.op)
    && (forall w | w in Requests(world.factory) :: SingletonsHeld(g, w, b.singletons))
    && (b.op.chain == [] ==> b.plan.decoders == [])
  }

  /** What is left to compile once the graph is validated and the singletons are built. */
  ghost predicate Compilable(regs: seq<Registration>, scope: map<TypeKey, nat>, requests: seq<TypeKey>) {
    Consistent(regs, Roots(scope, requests)) && forall key | key in requests :: key in scope
  }

  /** What the builder does once for all operations: validate the graph and build the singletons. */
  method BuildProviders(regs: seq<Registration>, world: World)
      returns (result: Result<(Slots, seq<Option<nat>>), BuildError>, ghost ranks: seq<nat>)
    requires Scoped(regs)
    requires forall id | 0 <= id < |regs| && regs[id].lifetime.Singleton? :: regs[id].inputs == []
    ensures Sound(regs) ==> Validated(regs, ranks)
    ensures result.Ok? <==> Sound(regs) && SingletonsHaveValues(regs, ranks, world)
    ensures result.Ok? ==> SingletonsStored(regs, ranks, world, result.value.0, result.value.1)
    ensures result.Err? ==> ExplainsProviders(regs, ranks, world, result.error)
  {
    hide Eval, Assigned, Holds;
    var valid;
    valid, ranks := Validate(regs);
    if valid.Err? {
      GenuineIsDefect(regs, valid.error);
      return Err(InGraph(valid.error)), ranks;
    }
    var singletons := CompileSingletons(regs, world, ranks);
    if singletons.Err? {
      return Err(InCompiler(singletons.error)), ranks;
    }
    return Ok(singletons.value), ranks;
  }

  /** What it does for each: plan the inputs and compile the slots. */
  method BuildScoped(regs: seq<Registration>, ghost ranks: seq<nat>, ghost world: World, values: Slots,
                     slots: seq<Option<nat>>, scope: map<TypeKey, nat>, requests: seq<TypeKey>)
      returns (result: Result<Build, BuildError>, ghost covered: set<nat>)
    requires Validated(regs, ranks) && SingletonsStored(regs, ranks, world, values, slots)
    requires forall key | key in scope :: scope[key] < |regs|
    ensures result.Ok? <==> Compilable(regs, scope, requests)
    ensures result.Ok? ==>
              && BuiltFor(regs, ranks, world, scope, requests, result.value, covered)
              && result.value.singletons == values && result.value.singletonSlots == slots
    ensures result.Err? ==> ExplainsOperation(regs, scope, requests, result.error)
  {
    hide Eval, EvalAll, CompiledFor, Covers, Assigned, Clashing, Consistent, Declared, Holds;
    var roots := Roots(scope, requests);
    var planned;
    planned, covered := PlanInputs(regs, ranks, roots);
    if planned.Err? {
      return Err(InCompiler(planned.error)), {};
    }
    var plan := planned.value;
    ghost var g := Setup(regs, ranks, slots, |values|, plan, covered);
    SingletonsForAll(g, world, values);
    var compiled := CompileOperation(regs, slots, plan, scope, requests, g, Requests(world.factory));
    if compiled.Err? {
      return Err(InCompiler(compiled.error)), {};
    }
    if compiled.value.chain == [] {
      EmptyChainDecodesNothing(g, Requests(world.factory), scope, requests, compiled.value);
    }
    return Ok(Build(values, slots, plan, compiled.value)), covered;
  }

  /**
   The compilers in the order the application builder runs them, for one operation. What they hand
   each other fits together, for every request the application will ever see.
   */
  method BuildOperation(regs: seq<Registration>, world: World, scope: map<TypeKey, nat>, requests: seq<TypeKey>)
      returns (result: Result<Build, BuildError>, ghost ranks: seq<nat>, ghost covered: set<nat>)
    requires Scoped(regs) && forall key | key in scope :: scope[key] < |regs|
    requires forall id | 0 <= id < |regs| && regs[id].lifetime.Singleton? :: regs[id].inputs == []
    ensures result.Err? && result.error.InGraph? <==> !Sound(regs)
    ensures Sound(regs) ==> Validated(regs, ranks)
    ensures result.Ok? <==> Sound(regs) && SingletonsHaveValues(regs, ranks, world) && Compilable(regs, scope, requests)
    ensures result.Err? ==> Explains(regs, ranks, world, scope, requests, result.error)
    ensures result.Ok? ==> BuiltFor(regs, ranks, world, scope, requests, result.value, covered)
  {
    hide Eval, Consistent, SingletonsStored, BuiltFor, Validated, Genuine;
    covered := {};
    var providers;
    providers, ranks := BuildProviders(regs, world);
    if providers.Err? {
      return Err(providers.error), ranks, {};
    }
    result, covered := BuildScoped(regs, ranks, world, providers.value.0, providers.value.1, scope, requests);
  }

  /** Singletons built once serve every request. */
  lemma SingletonsForAll(g: Setup, world: World, singletons: Slots)
    requires Validated(g.regs, g.ranks) && Assigned(g.regs, g.singletonSlots, |singletons|)
    requires forall id | 0 <= id < |g.regs| && g.regs[id].lifetime.Singleton? ::
               Holds(g.regs, g.ranks, world, g.singletonSlots, singletons, id)
    ensures SingletonsBuilt(g, Requests(world.factory))
    ensures forall w | w in Requests(world.factory) :: SingletonsHeld(g, w, singletons)
  {
    hide Eval, Validated;
    forall w, id | w in Requests(world.factory) && 0 <= id < |g.regs| && g.regs[id].lifetime.Singleton?
      ensures Eval(g.regs, g.ranks, w, id).Ok? && Holds(g.regs, g.ranks, w, g.singletonSlots, singletons, id)
    {
      SingletonIgnoresRequest(g.regs, g.ranks, world, w, id);
      assert Holds(g.regs, g.ranks, world, g.singletonSlots, singletons, id);
    }
  }
}
