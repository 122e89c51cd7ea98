/** Slots, compiled providers, and the application-lifetime values built before any request. */
module CompiledProviders {
  import opened Wrappers
  import opened Outcomes
  import opened ProviderGraph
  import opened DependencyMeaning

  datatype Slot = SingletonSlot(index: nat) | RequestSlot(index: nat)

  datatype Compiled = Compiled(id: nat, slots: seq<Slot>)

  datatype CompileError =
    | MissingForOperation(dependency: TypeKey)
    | NoCompiledSlot(id: nat)
    | Arity(id: nat, expected: nat, actual: nat)
    | SingletonFailed(id: nat, failure: DependencyError)
    | ConflictingInput(key: nat)

  /** `expect_arity`, then the provider with its slots fixed. */
  function CompileProvider(regs: seq<Registration>, id: nat, slots: seq<Slot>): Result<Compiled, CompileError>
    requires id < |regs|
  {
    var expected := |regs[id].dependencies| + |regs[id].inputs|;
    if |slots| == expected then Ok(Compiled(id, slots)) else Err(Arity(id, expected, |slots|))
  }

  function Read(slot: Slot, singletons: seq<Option<Value>>, requests: seq<Option<Value>>): Option<Value> {
    match slot
    case SingletonSlot(index) => if index < |singletons| then singletons[index] else None
    case RequestSlot(index) => if index < |requests| then requests[index] else None
  }

  function ReadAll(slots: seq<Slot>, singletons: seq<Option<Value>>, requests: seq<Option<Value>>)
      : (values: Option<seq<Value>>)
    ensures values.Some? ==> |values.value| == |slots|
    ensures values.Some? <==> forall k | 0 <= k < |slots| :: Read(slots[k], singletons, requests).Some?
    ensures values.Some? ==>
              forall k | 0 <= k < |slots| :: Read(slots[k], singletons, requests) == Some(values.value[k])
  {
    if slots == [] then Some([])
    else
      match ReadAll(slots[..|slots| - 1], singletons, requests)
      case None => None
      case Some(values) =>
        match Read(slots[|slots| - 1], singletons, requests)
        case None => None
        case Some(value) => Some(values + [value])
  }

  /** A compiled provider's runner: an empty slot is an internal error, never a factory call. */
  function Run(world: World, provider: Compiled, singletons: seq<Option<Value>>, requests: seq<Option<Value>>)
      : Result<Value, DependencyError>
  {
    match ReadAll(provider.slots, singletons, requests)
    case None => Err(Internal(INVALID_SLOT))
    case Some(values) => world.factory(provider.id, values)
  }

  /** A compiled provider's factory runs on its slots' values, in order, once all of them are filled. */
  lemma RunExactly(world: World, provider: Compiled, singletons: seq<Option<Value>>, requests: seq<Option<Value>>, values: seq<Value>)
    ensures (forall k | 0 <= k < |provider.slots| :: Read(provider.slots[k], singletons, requests).Some?)
            || Run(world, provider, singletons, requests) == Err(Internal("invalid_dependency_slot"))
    ensures |values| == |provider.slots|
            && (forall k | 0 <= k < |values| :: Read(provider.slots[k], singletons, requests) == Some(values[k])) ==>
              Run(world, provider, singletons, requests) == world.factory(provider.id, values)
  {
    hide Read;
    var read := ReadAll(provider.slots, singletons, requests);
    if read.Some? && |values| == |provider.slots|
       && forall k | 0 <= k < |values| :: Read(provider.slots[k], singletons, requests) == Some(values[k])
    {
      assert forall k | 0 <= k < |values| :: Some(values[k]) == Some(read.value[k]);
      assert values == read.value;
    }
  }

  /** A slot is read where it points: among the singletons or among the request's values. */
  lemma ReadExactly(slot: Slot, singletons: seq<Option<Value>>, requests: seq<Option<Value>>, value: Value)
    ensures Read(slot, singletons, requests) == Some(value)
       <==> match slot
            case SingletonSlot(index) => index < |singletons| && singletons[index] == Some(value)
            case RequestSlot(index) => index < |requests| && requests[index] == Some(value)
  {
  }
}

module SingletonBuild {
  import opened Wrappers
  import opened Outcomes
  import opened ProviderGraph
  import opened DependencyMeaning
  import opened CompiledProviders

  /** Every singleton, and nothing else, has a slot of its own. */
  ghost predicate Assigned(regs: seq<Registration>, slots: seq<Option<nat>>, count: nat) {
    && |slots| == |regs|
    && (forall id | 0 <= id < |regs| :: slots[id].Some? <==> regs[id].lifetime.Singleton?)
    && (forall id | 0 <= id < |regs| && slots[id].Some? :: slots[id].value < count)
    && (forall a, b | 0 <= a < b < |regs| && slots[a].Some? && slots[b].Some? :: slots[a].value < slots[b].value)
  }

  method AssignSlots(regs: seq<Registration>) returns (slots: seq<Option<nat>>, count: nat)
    ensures Assigned(regs, slots, count)
    ensures forall c: nat | c < count :: Some(c) in slots
  {
    slots, count := seq(|regs|, _ => None), 0;
    var id := 0;
    while id < |regs|
      invariant 0 <= id <= |regs| == |slots|
      invariant forall x | id <= x < |regs| :: slots[x].None?
      invariant Assigned(regs[..id], slots[..id], count)
      invariant forall c: nat | c < count :: Some(c) in slots[..id]
    {
      ghost var before := slots[..id];
      if regs[id].lifetime.Singleton? {
        slots, count := slots[id := Some(count)], count + 1;
      }
      assert slots[..id + 1] == before + [slots[id]];
      id := id + 1;
    }
    assert regs[..|regs|] == regs && slots[..|regs|] == slots;
  }

  /** The slot holds the singleton's value. */
  ghost predicate Holds(
      regs: seq<Registration>, ranks: seq<nat>, world: World, slots: seq<Option<nat>>, values: seq<Option<Value>>, id: nat)
    requires Validated(regs, ranks) && id < |regs| == |slots|
  {
    slots[id].Some? && slots[id].value < |values| && values[slots[id].value].Some?
    && Eval(regs, ranks, world, id) == Ok(values[slots[id].value].value)
  }

  /**
   Evaluating `id` fails, and `culprit` is the provider whose own factory does: `id` itself if its
   dependencies have values, and otherwise the culprit of the first that has none.
   */
  ghost predicate FailsFirst(regs: seq<Registration>, ranks: seq<nat>, world: World, id: nat, culprit: nat)
    requires Validated(regs, ranks) && id < |regs|
    decreases ranks[id]
  {
    && Eval(regs, ranks, world, id).Err?
    && if forall k | 0 <= k < |regs[id].dependencies| :: Eval(regs, ranks, world, Target(regs, ranks, id, k)).Ok?
       then culprit == id
       else
         exists k: nat | k < |regs[id].dependencies| ::
           && (forall j | 0 <= j < k :: Eval(regs, ranks, world, Target(regs, ranks, id, j)).Ok?)
           && FailsFirst(regs, ranks, world, Target(regs, ranks, id, k), culprit)
  }

  /** The first singleton without a value, in registration order, has this culprit. */
  ghost predicate FirstCulprit(regs: seq<Registration>, ranks: seq<nat>, world: World, culprit: nat)
    requires Validated(regs, ranks)
  {
    exists id | 0 <= id < |regs| && regs[id].lifetime.Singleton? ::
      && FailsFirst(regs, ranks, world, id, culprit)
      && forall x | 0 <= x < id && regs[x].lifetime.Singleton? :: Eval(regs, ranks, world, x).Ok?
  }

  class SingletonCompiler {
    const regs: seq<Registration>
    const world: World
    const slots: seq<Option<nat>>
    ghost const ranks: seq<nat>
    var values: seq<Option<Value>>
    var built: seq<bool>
    ghost var runs: seq<nat>

    constructor (regs: seq<Registration>, world: World, slots: seq<Option<nat>>, count: nat, ghost ranks: seq<nat>)
      requires Validated(regs, ranks) && Assigned(regs, slots, count)
      ensures this.regs == regs && this.world == world && this.slots == slots && this.ranks == ranks
      ensures Valid() && |values| == count && runs == []
    {
      this.regs, this.world, this.slots, this.ranks := regs, world, slots, ranks;
      values, built, runs := seq(count, _ => None), seq(|regs|, _ => false), [];
    }

    ghost predicate Valid()
      reads this
    {
      && Validated(regs, ranks) && Assigned(regs, slots, |values|)
      && |built| == |regs|
      && (forall x | 0 <= x < |regs| && built[x] :: Holds(regs, ranks, world, slots, values, x))
      && (forall x: nat :: x in runs <==> x < |regs| && built[x])
      && (forall i, j | 0 <= i < j < |runs| :: runs[i] != runs[j])
    }

    /** `compile_singleton`: each factory runs once, after its dependencies. */
    method Build(id: nat) returns (result: Result<(), CompileError>)
      requires Valid() && id < |regs| && regs[id].lifetime.Singleton?
      modifies this`values, this`built, this`runs
      ensures Valid() && |values| == |old(values)|
      ensures forall x | 0 <= x < |regs| && old(built)[x] :: built[x]
      ensures forall x | 0 <= x < |regs| && built[x] && !old(built)[x] :: ranks[x] <= ranks[id]
      ensures result.Ok? ==> built[id]
      ensures result.Err? ==>
                && result.error.SingletonFailed? && result.error.id < |regs|
                && regs[result.error.id].lifetime.Singleton?
                && Eval(regs, ranks, world, result.error.id) == Err(result.error.failure)
                && FailsFirst(regs, ranks, world, id, result.error.id)
      decreases ranks[id]
    {
      hide Eval, Decoded;
      if built[id] {
        return Ok(());
      }
      var dependencySlots: seq<Slot> := [];
      var at := 0;
      while at < |regs[id].dependencies|
        invariant 0 <= at == |dependencySlots| <= |regs[id].dependencies|
        invariant Valid() && |values| == |old(values)|
        invariant forall x | 0 <= x < |regs| && old(built)[x] :: built[x]
        invariant forall x | 0 <= x < |regs| && built[x] && !old(built)[x] :: ranks[x] < ranks[id]
        invariant forall k | 0 <= k < at ::
                    var target := Target(regs, ranks, id, k);
                    built[target] && dependencySlots[k] == SingletonSlot(slots[target].value)
      {
        ghost var target := Target(regs, ranks, id, at);
        var dependency := regs[id].visible[regs[id].dependencies[at]];
        result := Build(dependency);
        if result.Err? {
          DependencyFails(id, at, result.error.id);
          return;
        }
        if slots[dependency].None? {
          return Err(NoCompiledSlot(id));
        }
        dependencySlots := dependencySlots + [SingletonSlot(slots[dependency].value)];
        at := at + 1;
      }
      var compiled := CompileProvider(regs, id, dependencySlots);
      match compiled {
        case Err(error) => return Err(error);
        case Ok(_) =>
      }
      ReadsBuilt(id, dependencySlots);
      var value := Run(world, compiled.value, values, []);
      if value.Err? {
        OwnFactoryFails(id);
        return Err(SingletonFailed(id, value.error));
      }
      if slots[id].None? {
        return Err(NoCompiledSlot(id));
      }
      values, built := values[slots[id].value := Some(value.value)], built[id := true];
      runs := runs + [id];
      return Ok(());
    }

    lemma DependencyFails(id: nat, at: nat, culprit: nat)
      requires Valid() && id < |regs| && at < |regs[id].dependencies|
      requires forall k | 0 <= k < at :: built[Target(regs, ranks, id, k)]
      requires FailsFirst(regs, ranks, world, Target(regs, ranks, id, at), culprit)
      ensures FailsFirst(regs, ranks, world, id, culprit)
    {
      forall k | 0 <= k < at ensures Eval(regs, ranks, world, Target(regs, ranks, id, k)).Ok? {
        assert Holds(regs, ranks, world, slots, values, Target(regs, ranks, id, k));
      }
      assert Eval(regs, ranks, world, Target(regs, ranks, id, at)).Err?;
      FailsWithDependency(regs, ranks, world, id, at);
    }

    lemma OwnFactoryFails(id: nat)
      requires Valid() && id < |regs| && Eval(regs, ranks, world, id).Err?
      requires forall k | 0 <= k < |regs[id].dependencies| :: built[Target(regs, ranks, id, k)]
      ensures FailsFirst(regs, ranks, world, id, id)
    {
      forall k | 0 <= k < |regs[id].dependencies| ensures Eval(regs, ranks, world, Target(regs, ranks, id, k)).Ok? {
        assert Holds(regs, ranks, world, slots, values, Target(regs, ranks, id, k));
      }
    }

    lemma ReadsBuilt(id: nat, dependencySlots: seq<Slot>)
      requires Valid() && id < |regs| && regs[id].lifetime.Singleton?
      requires |dependencySlots| == |regs[id].dependencies|
      requires forall k | 0 <= k < |dependencySlots| ::
                 var target := Target(regs, ranks, id, k);
                 built[target] && dependencySlots[k] == SingletonSlot(slots[target].value)
      ensures Run(world, Compiled(id, dependencySlots), values, []) == Eval(regs, ranks, world, id)
    {
      hide Eval, ReadAll;
      forall k | 0 <= k < |dependencySlots|
        ensures Read(dependencySlots[k], values, []).Some?
        ensures Eval(regs, ranks, world, Target(regs, ranks, id, k)) == Ok(Read(dependencySlots[k], values, []).value)
      {
        var target := Target(regs, ranks, id, k);
        assert built[target] && Holds(regs, ranks, world, slots, values, target);
      }
      var read := ReadAll(dependencySlots, values, []).value;
      EvalFrom(regs, ranks, world, id, read);
      assert regs[id].inputs == [];
      assert read + [] == read;
    }
  }

  /**
   `compile_singletons`: succeeds exactly when every singleton has a value, and then every
   singleton's slot holds it.
   */
  method CompileSingletons(regs: seq<Registration>, world: World, ghost ranks: seq<nat>)
      returns (result: Result<(seq<Option<Value>>, seq<Option<nat>>), CompileError>)
    requires Validated(regs, ranks)
    ensures result.Ok? <==>
              forall id | 0 <= id < |regs| && regs[id].lifetime.Singleton? :: Eval(regs, ranks, world, id).Ok?
    ensures result.Ok? ==>
              && Assigned(regs, result.value.1, |result.value.0|)
              && forall id | 0 <= id < |regs| && regs[id].lifetime.Singleton? ::
                   Holds(regs, ranks, world, result.value.1, result.value.0, id)
    ensures result.Err? ==>
              && result.error.SingletonFailed? && result.error.id < |regs|
              && Eval(regs, ranks, world, result.error.id) == Err(result.error.failure)
              && FirstCulprit(regs, ranks, world, result.error.id)
  {
    hide Eval, FailsFirst;
    var slots, count := AssignSlots(regs);
    var compiler := new SingletonCompiler(regs, world, slots, count, ranks);
    var id := 0;
    while id < |regs|
      invariant 0 <= id <= |regs|
      invariant compiler.Valid() && compiler.regs == regs && compiler.world == world
      invariant compiler.slots == slots && compiler.ranks == ranks && |compiler.values| == count
      invariant forall x | 0 <= x < id && regs[x].lifetime.Singleton? :: compiler.built[x]
    {
      if slots[id].Some? {
        var built := compiler.Build(id);
        if built.Err? {
          return Err(built.error);
        }
      }
      id := id + 1;
    }
    result := Ok((compiler.values, slots));
  }
}
