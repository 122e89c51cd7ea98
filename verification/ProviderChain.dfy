/**
 Resolving and finalizing one operation's request providers over numeric slots. The providers'
 factories and finalizers are parameters; every call and every write is recorded in a log.
 */
module ProviderChain {
  import opened Wrappers
  import opened Hooks
  import opened Outcomes

  type Slots = seq<Option<Value>>

  /** Which of the invocation's signals fires at its n-th poll, if any. */
  type Aborts = nat -> Option<Abort>

  datatype Event =
    | Called(provider: nat)
    | Stored(provider: nat, value: Value)
    | Finalized(provider: nat, value: Value, told: RequestOutcome)
    | ErrorHook(hook: Hook, outcome: ExecutionOutcome)
    | ResponseHook(hook: Hook, outcome: ExecutionOutcome)

  /** `base` decoded inputs come first; provider `i` owns slot `base + i`. */
  datatype Chain = Chain(
    base: nat,
    count: nat,
    isAsync: nat -> bool,
    factory: (nat, Slots) -> Result<Value, DependencyError>,
    finalizer: (nat, Value, RequestOutcome) -> Option<DependencyError>)

  datatype ChainKind = Unknown | AllSync | SomeAsync

  datatype Stop = ByError(error: DependencyError) | ByAbort(abort: Abort)

  // ----- reference: in order, each provider once -----

  datatype Progress = Progress(slots: Slots, filled: nat, stop: Option<Stop>, events: seq<Event>)

  /**
   Provider `i`, unless something stopped the chain before: its factory is called before the
   signals are looked at, and it meets the signals' poll `from + i`.
   */
  function Advance(c: Chain, aborts: Aborts, from: nat, p: Progress, i: nat): (q: Progress)
    requires |p.slots| == c.base + c.count && i < c.count
    ensures |q.slots| == |p.slots| && (p.stop.Some? ==> q == p)
    ensures p.events <= q.events
    ensures p.stop.None? && p.filled == i ==> q.filled == if q.stop.None? then i + 1 else i
  {
    if p.stop.Some? then p
    else
      var called := p.events + [Called(i)];
      match aborts(from + i)
      case Some(abort) => p.(stop := Some(ByAbort(abort)), events := called)
      case None =>
        match c.factory(i, p.slots)
        case Err(error) => p.(stop := Some(ByError(error)), events := called)
        case Ok(value) =>
          Progress(p.slots[c.base + i := Some(value)], i + 1, None, called + [Stored(i, value)])
  }

  /** The first `n` providers, in order, until one fails or a signal fires. */
  function After(c: Chain, aborts: Aborts, from: nat, seeded: Slots, n: nat): (p: Progress)
    requires |seeded| == c.base + c.count && n <= c.count
    ensures |p.slots| == |seeded| && p.filled <= n
    ensures p.stop.None? ==> p.filled == n
    ensures p.stop.Some? ==> p.filled < n
  {
    if n == 0 then Progress(seeded, 0, None, [])
    else Advance(c, aborts, from, After(c, aborts, from, seeded, n - 1), n - 1)
  }

  function NoAborts(): Aborts {
    _ => None
  }

  // ----- what a log says -----

  function Stores(log: seq<Event>): seq<(nat, Value)> {
    if log == [] then []
    else
      var last := log[|log| - 1];
      Stores(log[..|log| - 1]) + (if last.Stored? then [(last.provider, last.value)] else [])
  }

  predicate NoFinals(log: seq<Event>) {
    forall k | 0 <= k < |log| :: !log[k].Finalized?
  }

  datatype FinalRun = FinalRun(events: seq<Event>, error: Option<DependencyError>)

  /** Finalizers from the last stored value to the first, until one fails. */
  function Finalization(c: Chain, stores: seq<(nat, Value)>, told: RequestOutcome): FinalRun {
    if stores == [] then FinalRun([], None)
    else
      var (provider, value) := stores[|stores| - 1];
      var event := Finalized(provider, value, told);
      match c.finalizer(provider, value, told)
      case Some(error) => FinalRun([event], Some(error))
      case None =>
        var rest := Finalization(c, stores[..|stores| - 1], told);
        FinalRun([event] + rest.events, rest.error)
  }

  lemma FinalizationStep(c: Chain, stores: seq<(nat, Value)>, provider: nat, value: Value, told: RequestOutcome)
    ensures var run, rest := Finalization(c, stores + [(provider, value)], told), Finalization(c, stores, told);
            match c.finalizer(provider, value, told)
            case Some(error) => run == FinalRun([Finalized(provider, value, told)], Some(error))
            case None => run == FinalRun([Finalized(provider, value, told)] + rest.events, rest.error)
  {
    var all := stores + [(provider, value)];
    assert all[..|all| - 1] == stores;
  }

  lemma {:induction false} StoresAppend(first: seq<Event>, second: seq<Event>)
    ensures Stores(first + second) == Stores(first) + Stores(second)
    decreases |second|
  {
    if second == [] {
      assert first + second == first;
    } else {
      var init := second[..|second| - 1];
      assert (first + second)[..|first + second| - 1] == first + init;
      StoresAppend(first, init);
    }
  }

  predicate HaveValues(slots: Slots, base: nat, n: nat) {
    base + n <= |slots| && forall j | base <= j < base + n :: slots[j].Some?
  }

  /** The values in the first `n` provider slots. */
  function StoredIn(slots: Slots, base: nat, n: nat): (stored: seq<(nat, Value)>)
    requires HaveValues(slots, base, n)
    ensures |stored| == n
  {
    if n == 0 then [] else StoredIn(slots, base, n - 1) + [(n - 1, slots[base + (n - 1)].value)]
  }

  lemma {:induction false} StoredInSame(slots: Slots, other: Slots, base: nat, n: nat)
    requires HaveValues(slots, base, n) && |other| == |slots|
    requires forall j | base <= j < base + n :: other[j] == slots[j]
    ensures HaveValues(other, base, n) && StoredIn(other, base, n) == StoredIn(slots, base, n)
  {
    if n > 0 {
      StoredInSame(slots, other, base, n - 1);
    }
  }

  lemma StoresOne(event: Event)
    ensures Stores([event]) == if event.Stored? then [(event.provider, event.value)] else []
  {
    assert [event][..0] == [];
  }

  /** What the log says was stored is what the slots hold; inputs are left alone. */
  lemma {:induction false} AfterStores(c: Chain, aborts: Aborts, from: nat, seeded: Slots, n: nat)
    requires |seeded| == c.base + c.count && n <= c.count
    ensures var p := After(c, aborts, from, seeded, n);
            && HaveValues(p.slots, c.base, p.filled)
            && Stores(p.events) == StoredIn(p.slots, c.base, p.filled)
            && NoFinals(p.events)
            && (forall i | 0 <= i < c.base :: p.slots[i] == seeded[i])
    decreases n
  {
    hide Advance, Stores;
    if n == 0 {
      assert Stores([]) == [] by {
        StoresNone();
      }
    } else {
      AfterStores(c, aborts, from, seeded, n - 1);
      AdvanceStores(c, aborts, from, After(c, aborts, from, seeded, n - 1), n - 1);
    }
  }

  lemma StoresNone()
    ensures Stores([]) == []
  {
  }

  lemma AdvanceStores(c: Chain, aborts: Aborts, from: nat, p: Progress, i: nat)
    requires |p.slots| == c.base + c.count && i < c.count
    requires p.stop.None? ==> p.filled == i
    requires HaveValues(p.slots, c.base, p.filled)
    requires Stores(p.events) == StoredIn(p.slots, c.base, p.filled) && NoFinals(p.events)
    ensures var q := Advance(c, aborts, from, p, i);
            && HaveValues(q.slots, c.base, q.filled)
            && Stores(q.events) == StoredIn(q.slots, c.base, q.filled) && NoFinals(q.events)
            && (forall j | 0 <= j < c.base :: q.slots[j] == p.slots[j])
  {
    hide Stores;
    var q := Advance(c, aborts, from, p, i);
    if p.stop.None? {
      if q.stop.Some? {
        CalledStores(p.events, i);
      } else {
        var value := q.slots[c.base + i].value;
        SuccessStores(p, c.base, value);
        assert p.events + [Called(i)] + [Stored(i, value)] == q.events;
      }
    }
  }

  lemma CalledStores(events: seq<Event>, provider: nat)
    requires NoFinals(events)
    ensures Stores(events + [Called(provider)]) == Stores(events) && NoFinals(events + [Called(provider)])
  {
    StoresAppend(events, [Called(provider)]);
    StoresOne(Called(provider));
  }

  lemma SuccessStores(q: Progress, base: nat, value: Value)
    requires base + q.filled < |q.slots| && HaveValues(q.slots, base, q.filled)
    requires Stores(q.events) == StoredIn(q.slots, base, q.filled) && NoFinals(q.events)
    ensures var slots := q.slots[base + q.filled := Some(value)];
            var events := q.events + [Called(q.filled)] + [Stored(q.filled, value)];
            HaveValues(slots, base, q.filled + 1)
            && Stores(events) == StoredIn(slots, base, q.filled + 1) && NoFinals(events)
  {
    hide Stores;
    CalledStores(q.events, q.filled);
    var stored := Stored(q.filled, value);
    StoresAppend(q.events + [Called(q.filled)], [stored]);
    StoresOne(stored);
    StoredInSame(q.slots, q.slots[base + q.filled := Some(value)], base, q.filled);
  }

  lemma {:induction false} AfterStopped(c: Chain, aborts: Aborts, from: nat, seeded: Slots, m: nat, n: nat)
    requires |seeded| == c.base + c.count && m <= n <= c.count
    requires After(c, aborts, from, seeded, m).stop.Some?
    ensures After(c, aborts, from, seeded, n) == After(c, aborts, from, seeded, m)
    decreases n
  {
    hide Advance;
    if m < n {
      AfterStopped(c, aborts, from, seeded, m, n - 1);
    }
  }

  /**
   The probing resolver repeats a factory call when a synchronous factory answers the code that is
   reserved for "this runner is asynchronous".
   */
  predicate Reprobed(c: Chain, kind: ChainKind, p: Progress) {
    && !kind.SomeAsync?
    && p.stop == Some(ByError(Internal(ASYNC_RUNNER_CODE)))
    && forall i | 0 <= i <= p.filled :: !c.isAsync(i)
  }

  function ToldOfStop(stop: Stop): RequestOutcome {
    match stop
    case ByError(error) => ToldOfError(error)
    case ByAbort(abort) => ToldOfAbort(abort)
  }

  datatype Ending = Ending(events: seq<Event>, stop: Option<Stop>)

  /** A chain that stopped finalizes what it stored, and answers the first failing finalizer if any. */
  function EndOf(c: Chain, p: Progress): Ending
    requires HaveValues(p.slots, c.base, p.filled)
  {
    match p.stop
    case None => Ending([], None)
    case Some(stop) =>
      var run := Finalization(c, StoredIn(p.slots, c.base, p.filled), ToldOfStop(stop));
      Ending(run.events, if run.error.Some? then Some(ByError(run.error.value)) else Some(stop))
  }

  lemma {:induction false} AfterFills(c: Chain, aborts: Aborts, from: nat, seeded: Slots, m: nat, n: nat)
    requires |seeded| == c.base + c.count && m <= n <= c.count && After(c, aborts, from, seeded, m).filled == m
    ensures After(c, aborts, from, seeded, n).filled >= m
    decreases n
  {
    if m < n {
      AfterFills(c, aborts, from, seeded, m, n - 1);
    }
  }

  lemma AdvanceFails(c: Chain, p: Progress, i: nat)
    requires |p.slots| == c.base + c.count && i < c.count && p.stop.None? && c.factory(i, p.slots).Err?
    ensures Advance(c, NoAborts(), 0, p, i)
            == p.(stop := Some(ByError(c.factory(i, p.slots).error)), events := p.events + [Called(i)])
  {
  }

  /** What the cached chain kind becomes: whatever the probes that were made found out. */
  function KindAfter(c: Chain, kind: ChainKind, p: Progress): ChainKind {
    if kind.SomeAsync? || Reprobed(c, kind, p) || exists i | 0 <= i <= p.filled && i < c.count :: c.isAsync(i) then
      SomeAsync
    else if p.stop.None? then AllSync
    else kind
  }

  /**
   The cached kind is never wrong about the providers it was told of, and a resolution that went
   through settles it: asynchronous exactly when some provider is.
   */
  lemma KindExactly(c: Chain, kind: ChainKind, aborts: Aborts, seeded: Slots)
    requires |seeded| == c.base + c.count
    requires kind.AllSync? ==> forall i | 0 <= i < c.count :: !c.isAsync(i)
    requires kind.SomeAsync? ==> exists i | 0 <= i < c.count :: c.isAsync(i)
    ensures var p := After(c, aborts, 0, seeded, c.count);
            var found := KindAfter(c, kind, p);
            && (found.AllSync? ==> forall i | 0 <= i < c.count :: !c.isAsync(i))
            && (p.stop.None? ==> (found.SomeAsync? <==> exists i | 0 <= i < c.count :: c.isAsync(i)) && !found.Unknown?)
            && (found.SomeAsync? ==>
                  (exists i | 0 <= i < c.count :: c.isAsync(i)) || p.stop == Some(ByError(Internal("async_singleton_provider"))))
  {
    hide After;
  }

  class Invocation {
    const chain: Chain
    const aborts: Aborts
    var slots: Slots
    var log: seq<Event>
    var kind: ChainKind
    var polls: nat

    constructor (chain: Chain, aborts: Aborts, kind: ChainKind)
      ensures this.chain == chain && this.aborts == aborts && this.kind == kind
      ensures slots == seq(chain.base + chain.count, _ => None) && log == [] && polls == 0
    {
      this.chain, this.aborts, this.kind := chain, aborts, kind;
      slots, log, polls := seq(chain.base + chain.count, _ => None), [], 0;
    }

    predicate Sized()
      reads this
    {
      |slots| == chain.base + chain.count
    }

    ghost predicate Filled(n: nat)
      reads this
    {
      Sized() && n <= chain.count && HaveValues(slots, chain.base, n)
    }

    /** `RequestDependencyValues::set`. */
    method Set(index: nat, value: Value) returns (error: Option<DependencyError>)
      modifies this`slots
      ensures index < |old(slots)| ==> error.None? && slots == old(slots)[index := Some(value)]
      ensures index >= |old(slots)| ==> error == Some(Internal("invalid_dependency_slot")) && slots == old(slots)
    {
      if index >= |slots| {
        return Some(Internal(INVALID_SLOT));
      }
      slots := slots[index := Some(value)];
      return None;
    }

    /** `CompiledProvider::run_sync`: an asynchronous runner is refused without calling its factory. */
    method RunSync(index: nat) returns (result: Result<Value, DependencyError>)
      modifies this`log
      ensures chain.isAsync(index) ==> result == Err(Internal("async_singleton_provider")) && log == old(log)
      ensures !chain.isAsync(index) ==> result == chain.factory(index, slots) && log == old(log) + [Called(index)]
    {
      if chain.isAsync(index) {
        return Err(Internal(ASYNC_RUNNER_CODE));
      }
      log := log + [Called(index)];
      return chain.factory(index, slots);
    }

    /** `finalize_prefix`: every stored value once, last slot first, until a finalizer fails. */
    method FinalizePrefix(initialized: nat, told: RequestOutcome) returns (error: Option<DependencyError>)
      requires Filled(initialized)
      modifies this`log
      ensures var run := Finalization(chain, StoredIn(slots, chain.base, initialized), told);
              log == old(log) + run.events && error == run.error
    {
      hide Finalization;
      ghost var run := Finalization(chain, StoredIn(slots, chain.base, initialized), told);
      var index := initialized;
      assert Finalization(chain, [], told) == FinalRun([], None) by {
        FinalizationEmpty(chain, told);
      }
      while index > 0
        invariant 0 <= index <= initialized
        invariant var rest := Finalization(chain, StoredIn(slots, chain.base, index), told);
                  log + rest.events == old(log) + run.events && rest.error == run.error
      {
        ghost var before := log;
        index := index - 1;
        var slot := chain.base + index;
        if slot >= |slots| || slots[slot].None? {
          return Some(Internal(INVALID_SLOT));
        }
        var value := slots[slot].value;
        FinalizationStep(chain, StoredIn(slots, chain.base, index), index, value, told);
        log := log + [Finalized(index, value, told)];
        var failed := chain.finalizer(index, value, told);
        if failed.Some? {
          return failed;
        }
        ghost var rest := Finalization(chain, StoredIn(slots, chain.base, index), told);
        assert log + rest.events == before + ([Finalized(index, value, told)] + rest.events);
      }
      return None;
    }

    /** `CompiledProvider::run`, awaited. */
    method RunAwaited(index: nat) returns (result: Result<Value, DependencyError>)
      modifies this`log
      ensures result == chain.factory(index, slots) && log == old(log) + [Called(index)]
    {
      log := log + [Called(index)];
      return chain.factory(index, slots);
    }

    /** What `InvocationControl::run` makes of a future: the first signal that fires, or its output. */
    method Poll() returns (abort: Option<Abort>)
      modifies this`polls
      ensures abort == aborts(old(polls)) && polls == old(polls) + 1
    {
      abort := aborts(polls);
      polls := polls + 1;
    }

    /** The end of an iteration: keep the value, or finalize what came before. */
    method Settle(index: nat, abort: Option<Abort>, result: Result<Value, DependencyError>,
                  ghost signals: Aborts, ghost from: nat, ghost p: Progress)
        returns (stop: Option<Stop>)
      requires index < chain.count && |p.slots| == chain.base + chain.count
      requires slots == p.slots && p.stop.None? && p.filled == index && HaveValues(slots, chain.base, index)
      requires abort == signals(from + index) && result == chain.factory(index, slots)
      modifies this`slots, this`log
      ensures var q := Advance(chain, signals, from, p, index);
              && HaveValues(q.slots, chain.base, q.filled) && slots == q.slots
              && stop == EndOf(chain, q).stop && (stop.None? <==> q.stop.None?)
              && (stop.Some? <==> abort.Some? || result.Err?)
              && q.events == p.events + [Called(index)] + StoredEvent(index, abort, result)
              && log == old(log) + StoredEvent(index, abort, result) + EndOf(chain, q).events
    {
      hide Finalization;
      if abort.Some? {
        var failed := FinalizePrefix(index, ToldOfAbort(abort.value));
        return Some(if failed.Some? then ByError(failed.value) else ByAbort(abort.value));
      }
      if result.Err? {
        var failed := FinalizePrefix(index, ToldOfError(result.error));
        return Some(ByError(if failed.Some? then failed.value else result.error));
      }
      var unset := Set(chain.base + index, result.value);
      match unset {
        case Some(error) => return Some(ByError(error));
        case None =>
      }
      log := log + [Stored(index, result.value)];
      return None;
    }

    /** The reference run has come to provider `n` without stopping, and this is its state. */
    ghost predicate At(signals: Aborts, from: nat, seeded: Slots, n: nat, events: seq<Event>)
      requires |seeded| == chain.base + chain.count && n <= chain.count
      reads this`slots
    {
      var q := After(chain, signals, from, seeded, n);
      q.stop.None? && slots == q.slots && events == q.events && HaveValues(slots, chain.base, n)
    }

    /** The reference run ended like this. */
    ghost predicate Ended(signals: Aborts, from: nat, seeded: Slots, events: seq<Event>, ending: Ending)
      requires |seeded| == chain.base + chain.count
      reads this`slots
    {
      var q := After(chain, signals, from, seeded, chain.count);
      slots == q.slots && events == q.events && HaveValues(slots, chain.base, q.filled) && ending == EndOf(chain, q)
    }

    lemma AtStart(signals: Aborts, from: nat, seeded: Slots)
      requires |seeded| == chain.base + chain.count && slots == seeded
      ensures At(signals, from, seeded, 0, [])
    {
    }

    lemma AtEnd(signals: Aborts, from: nat, seeded: Slots, events: seq<Event>)
      requires |seeded| == chain.base + chain.count && At(signals, from, seeded, chain.count, events)
      ensures Ended(signals, from, seeded, events, Ending([], None))
    {
      hide After;
    }

    /** The plain run stops where a factory first fails. */
    lemma StoppedHere(seeded: Slots, index: nat, events: seq<Event>)
      requires |seeded| == chain.base + chain.count && index < chain.count
      requires At(NoAborts(), 0, seeded, index, events) && chain.factory(index, slots).Err?
      ensures var p := After(chain, NoAborts(), 0, seeded, chain.count);
              && p.filled == index && p.stop == Some(ByError(chain.factory(index, slots).error))
              && p.events == events + [Called(index)]
    {
      hide After, Advance, HaveValues;
      AfterNext(chain, NoAborts(), 0, seeded, index);
      AdvanceFails(chain, After(chain, NoAborts(), 0, seeded, index), index);
      AfterStopped(chain, NoAborts(), 0, seeded, index + 1, chain.count);
    }

    lemma RanSoFar(seeded: Slots, index: nat, events: seq<Event>)
      requires |seeded| == chain.base + chain.count && index < chain.count
      requires At(NoAborts(), 0, seeded, index, events)
      ensures After(chain, NoAborts(), 0, seeded, chain.count).filled >= index
    {
      hide After;
      AfterFills(chain, NoAborts(), 0, seeded, index, chain.count);
    }

    lemma AtLast(seeded: Slots, events: seq<Event>)
      requires |seeded| == chain.base + chain.count && At(NoAborts(), 0, seeded, chain.count, events)
      ensures After(chain, NoAborts(), 0, seeded, chain.count).stop.None?
    {
      hide After;
    }

    lemma EndedEvents(seeded: Slots, events: seq<Event>, ending: Ending)
      requires |seeded| == chain.base + chain.count && Ended(NoAborts(), 0, seeded, events, ending)
      ensures After(chain, NoAborts(), 0, seeded, chain.count).events == events
    {
      hide After;
    }

    /** The rest of an iteration, once the factory has been called. */
    method Take(ghost signals: Aborts, ghost from: nat, ghost seeded: Slots, index: nat, ghost events: seq<Event>,
                abort: Option<Abort>, result: Result<Value, DependencyError>)
        returns (stop: Option<Stop>, ghost stored: seq<Event>, ghost ending: Ending)
      requires |seeded| == chain.base + chain.count && index < chain.count
      requires At(signals, from, seeded, index, events)
      requires abort == signals(from + index) && result == chain.factory(index, slots)
      modifies this`slots, this`log
      ensures stop == ending.stop && log == old(log) + stored + ending.events
      ensures stored == StoredEvent(index, abort, result)
      ensures stop.Some? <==> abort.Some? || result.Err?
      ensures stop.None? ==>
                At(signals, from, seeded, index + 1, events + [Called(index)] + stored) && ending == Ending([], None)
      ensures stop.Some? ==> Ended(signals, from, seeded, events + [Called(index)] + stored, ending)
    {
      hide Finalization, Advance, After;
      ghost var p := After(chain, signals, from, seeded, index);
      AfterNext(chain, signals, from, seeded, index);
      stop := Settle(index, abort, result, signals, from, p);
      stored := StoredEvent(index, abort, result);
      ending := EndOf(chain, Advance(chain, signals, from, p, index));
      if stop.Some? {
        AfterStopped(chain, signals, from, seeded, index + 1, chain.count);
      }
    }

    /** `resolve_from`: the awaiting path, from provider `start` on. */
    method ResolveFrom(ghost seeded: Slots, start: nat, ghost before: seq<Event>)
        returns (stop: Option<Stop>, ghost more: seq<Event>, ghost ending: Ending)
      requires |seeded| == chain.base + chain.count && start <= chain.count
      requires At(NoAborts(), 0, seeded, start, before)
      modifies this`slots, this`log
      ensures Ended(NoAborts(), 0, seeded, before + more, ending)
      ensures stop == ending.stop && log == old(log) + more + ending.events
    {
      hide At, Ended;
      var index := start;
      more := [];
      assert before + more == before;
      while index < chain.count
        invariant start <= index <= chain.count
        invariant At(NoAborts(), 0, seeded, index, before + more) && log == old(log) + more
      {
        ghost var so, stored := more, [];
        var result := RunAwaited(index);
        stop, stored, ending := Take(NoAborts(), 0, seeded, index, before + so, None, result);
        more := so + [Called(index)] + stored;
        Joined(before, so, [Called(index)], stored);
        Joined(old(log), so, [Called(index)], stored);
        if stop.Some? {
          return;
        }
        index := index + 1;
      }
      AtEnd(NoAborts(), 0, seeded, before + more);
      return None, more, Ending([], None);
    }

    /** `resolve_controlled`: the factory is called before the signals are polled. */
    method ResolveControlled() returns (stop: Option<Stop>, ghost events: seq<Event>, ghost ending: Ending)
      requires Sized()
      modifies this`slots, this`log, this`polls
      ensures Ended(aborts, old(polls), old(slots), events, ending)
      ensures stop == ending.stop && log == old(log) + events + ending.events
      ensures stop.None? ==> polls == old(polls) + chain.count
    {
      AtStart(aborts, polls, slots);
      hide At, Ended;
      ghost var seeded := slots;
      var index := 0;
      events := [];
      while index < chain.count
        invariant 0 <= index <= chain.count && polls == old(polls) + index
        invariant At(aborts, old(polls), seeded, index, events) && log == old(log) + events
      {
        ghost var so, stored := events, [];
        var result := RunAwaited(index);
        var abort := Poll();
        stop, stored, ending := Take(aborts, old(polls), seeded, index, so, abort, result);
        events := so + [Called(index)] + stored;
        Joined(old(log), so, [Called(index)], stored);
        if stop.Some? {
          return;
        }
        index := index + 1;
      }
      AtEnd(aborts, old(polls), seeded, events);
      return None, events, Ending([], None);
    }

    /** The probe of provider `index` answered the reserved code. */
    method FallBack(ghost seeded: Slots, index: nat, ghost so: seq<Event>, ghost start: seq<Event>)
        returns (stop: Option<Stop>, ghost more: seq<Event>, ghost ending: Ending)
      requires |seeded| == chain.base + chain.count && index < chain.count
      requires At(NoAborts(), 0, seeded, index, so)
      requires chain.isAsync(index) || chain.factory(index, slots) == Err(Internal(ASYNC_RUNNER_CODE))
      requires forall i | 0 <= i < index :: !chain.isAsync(i)
      requires log == start + so + if chain.isAsync(index) then [] else [Called(index)]
      requires !kind.SomeAsync?
      modifies this`slots, this`log, this`kind
      ensures Ended(NoAborts(), 0, seeded, so + more, ending) && stop == ending.stop
      ensures log == start + (so + more) + Again(old(kind), seeded) + ending.events
      ensures kind == KindAfter(chain, old(kind), After(chain, NoAborts(), 0, seeded, chain.count))
    {
      hide At, Ended, After;
      kind := SomeAsync;
      if chain.isAsync(index) {
        RanSoFar(seeded, index, so);
      } else {
        StoppedHere(seeded, index, so);
      }
      stop, more, ending := ResolveFrom(seeded, index, so);
      EndedEvents(seeded, so + more, ending);
      assert (so + more)[|so|..] == more && (so + [Called(index)])[|so|..] == [Called(index)];
      SplitLog(start, so, more, [Called(index)], ending.events);
    }

    /** The probe of provider `index` gave its value, or an error of its own. */
    method Proceed(ghost seeded: Slots, index: nat, ghost so: seq<Event>, ghost start: seq<Event>,
                   result: Result<Value, DependencyError>)
        returns (stop: Option<Stop>, ghost events: seq<Event>, ghost ending: Ending)
      requires |seeded| == chain.base + chain.count && index < chain.count
      requires At(NoAborts(), 0, seeded, index, so)
      requires result == chain.factory(index, slots) && result != Err(Internal(ASYNC_RUNNER_CODE))
      requires log == start + so + [Called(index)]
      requires !kind.SomeAsync? && forall i | 0 <= i <= index :: !chain.isAsync(i)
      modifies this`slots, this`log
      ensures stop.None? ==> At(NoAborts(), 0, seeded, index + 1, events) && log == start + events
      ensures stop.Some? ==>
                && Ended(NoAborts(), 0, seeded, events, ending) && stop == ending.stop
                && log == start + events + Again(kind, seeded) + ending.events
                && kind == KindAfter(chain, kind, After(chain, NoAborts(), 0, seeded, chain.count))
    {
      hide At, Ended, After, Again;
      if result.Err? {
        StoppedHere(seeded, index, so);
        NeverAgain(kind, seeded);
      }
      ghost var stored;
      stop, stored, ending := Take(NoAborts(), 0, seeded, index, so, None, result);
      events := so + [Called(index)] + stored;
      Joined(start, so, [Called(index)], stored);
      SplitLog(start, events, [], [], ending.events);
    }

    /** The call a reserved answer makes the resolver repeat. */
    ghost function Again(kind: ChainKind, seeded: Slots): seq<Event>
      requires |seeded| == chain.base + chain.count
    {
      var p := After(chain, NoAborts(), 0, seeded, chain.count);
      if Reprobed(chain, kind, p) then [Called(p.filled)] else []
    }

    lemma NeverAgain(kind: ChainKind, seeded: Slots)
      requires |seeded| == chain.base + chain.count
      requires kind.SomeAsync?
               || After(chain, NoAborts(), 0, seeded, chain.count).stop != Some(ByError(Internal(ASYNC_RUNNER_CODE)))
      ensures Again(kind, seeded) == []
    {
      hide After;
    }

    /**
     `resolve`: probes each provider synchronously and falls back to the awaiting path. Whatever
     the cached chain kind says, values, failure and finalization are those of the plain run; the
     calls are too, unless a synchronous factory answered the reserved code.
     */
    method Resolve() returns (stop: Option<Stop>, ghost events: seq<Event>, ghost ending: Ending)
      requires Sized()
      modifies this`slots, this`log, this`kind
      ensures Ended(NoAborts(), 0, old(slots), events, ending) && stop == ending.stop
      ensures log == old(log) + events + Again(old(kind), old(slots)) + ending.events
      ensures kind == KindAfter(chain, old(kind), After(chain, NoAborts(), 0, old(slots), chain.count))
    {
      AtStart(NoAborts(), 0, slots);
      hide At, Ended, After, Again;
      ghost var seeded := slots;
      events := [];
      if kind.SomeAsync? {
        ghost var more;
        stop, more, ending := ResolveFrom(seeded, 0, []);
        NeverAgain(kind, seeded);
        SplitLog(old(log), [], more, [], ending.events);
        events := [] + more;
        return;
      }
      var index := 0;
      while index < chain.count
        invariant 0 <= index <= chain.count && kind == old(kind)
        invariant At(NoAborts(), 0, seeded, index, events) && log == old(log) + events
        invariant forall i | 0 <= i < index :: !chain.isAsync(i)
      {
        ghost var start := old(log);
        var result := RunSync(index);
        if result == Err(Internal(ASYNC_RUNNER_CODE)) {
          ghost var more;
          stop, more, ending := FallBack(seeded, index, events, start);
          events := events + more;
          return;
        }
        stop, events, ending := Proceed(seeded, index, events, start, result);
        if stop.Some? {
          return;
        }
        index := index + 1;
      }
      kind := AllSync;
      AtLast(seeded, events);
      NeverAgain(old(kind), seeded);
      SplitLog(old(log), events, [], [], []);
      AtEnd(NoAborts(), 0, seeded, events);
      return None, events, Ending([], None);
    }
  }

  function StoredEvent(index: nat, abort: Option<Abort>, result: Result<Value, DependencyError>): seq<Event> {
    if abort.None? && result.Ok? then [Stored(index, result.value)] else []
  }

  lemma SplitLog(log: seq<Event>, so: seq<Event>, more: seq<Event>, again: seq<Event>, end: seq<Event>)
    ensures log + so + more + end == log + (so + more) + [] + end
    ensures more == again ==> log + so + again + more + end == log + (so + more) + again + end
  {
  }

  lemma Joined(first: seq<Event>, second: seq<Event>, third: seq<Event>, fourth: seq<Event>)
    ensures first + second + third + fourth == first + (second + third + fourth)
  {
  }

  lemma AfterNext(c: Chain, aborts: Aborts, from: nat, seeded: Slots, n: nat)
    requires |seeded| == c.base + c.count && n < c.count
    ensures After(c, aborts, from, seeded, n + 1) == Advance(c, aborts, from, After(c, aborts, from, seeded, n), n)
  {
  }

  lemma FinalizationEmpty(c: Chain, told: RequestOutcome)
    ensures Finalization(c, [], told) == FinalRun([], None)
  {
  }
}
