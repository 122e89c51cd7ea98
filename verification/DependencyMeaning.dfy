/**
 What dependency injection means, without slots: a provider's value is its factory applied to the
 values of its dependencies, in order, followed by its decoded request inputs.
 */
module DependencyMeaning {
  import opened Wrappers
  import opened Outcomes
  import opened ProviderGraph

  /** The user's code: what a factory answers, and what an input decodes to. */
  datatype World = World(factory: (nat, seq<Value>) -> Result<Value, DependencyError>, decode: Input -> Value)

  /** A graph that `Validate` accepted, with the ranks it found; singletons declare no inputs. */
  ghost predicate Validated(regs: seq<Registration>, ranks: seq<nat>) {
    && Scoped(regs) && RankedBy(regs, ranks)
    && (forall id | 0 <= id < |regs| :: LocallySound(regs, id))
    && (forall id | 0 <= id < |regs| && regs[id].lifetime.Singleton? :: regs[id].inputs == [])
  }

  ghost predicate Below(ranks: seq<nat>, ids: seq<nat>, bound: nat) {
    forall i | 0 <= i < |ids| :: ids[i] < |ranks| && ranks[ids[i]] < bound
  }

  ghost function Target(regs: seq<Registration>, ranks: seq<nat>, id: nat, k: nat): (target: nat)
    requires Validated(regs, ranks) && id < |regs| && k < |regs[id].dependencies|
    ensures target < |regs| && ranks[target] < ranks[id]
    ensures regs[id].dependencies[k] in regs[id].visible && regs[id].visible[regs[id].dependencies[k]] == target
    ensures regs[id].lifetime.Singleton? ==> regs[target].lifetime.Singleton?
  {
    var key := regs[id].dependencies[k];
    assert key in regs[id].dependencies && LocallySound(regs, id);
    assert DependencyVisible(regs[id], key) && LifetimeRespected(regs, id, key);
    assert Edge(regs, id, regs[id].visible[key]);
    regs[id].visible[key]
  }

  /** The providers a provider's dependencies resolve to, in order. */
  ghost function Targets(regs: seq<Registration>, ranks: seq<nat>, id: nat): (targets: seq<nat>)
    requires Validated(regs, ranks) && id < |regs|
    ensures |targets| == |regs[id].dependencies| && Below(ranks, targets, ranks[id])
    ensures forall k | 0 <= k < |targets| :: targets[k] == Target(regs, ranks, id, k)
  {
    seq(|regs[id].dependencies|, k requires 0 <= k < |regs[id].dependencies| => Target(regs, ranks, id, k))
  }

  function Decoded(world: World, inputs: seq<Input>): seq<Value> {
    seq(|inputs|, k requires 0 <= k < |inputs| => world.decode(inputs[k]))
  }

  ghost function Eval(regs: seq<Registration>, ranks: seq<nat>, world: World, id: nat): Result<Value, DependencyError>
    requires Validated(regs, ranks) && id < |regs|
    decreases ranks[id] + 1, 0
  {
    match EvalAll(regs, ranks, world, Targets(regs, ranks, id), ranks[id])
    case Err(failure) => Err(failure)
    case Ok(values) => world.factory(id, values + Decoded(world, regs[id].inputs))
  }

  /** Values in order, or the first failure. */
  ghost function EvalAll(regs: seq<Registration>, ranks: seq<nat>, world: World, ids: seq<nat>, bound: nat)
      : (result: Result<seq<Value>, DependencyError>)
    requires Validated(regs, ranks) && Below(ranks, ids, bound)
    ensures result.Ok? ==> |result.value| == |ids|
    decreases bound, |ids| + 1
  {
    if ids == [] then Ok([])
    else
      match EvalAll(regs, ranks, world, ids[..|ids| - 1], bound)
      case Err(failure) => Err(failure)
      case Ok(values) =>
        match Eval(regs, ranks, world, ids[|ids| - 1])
        case Err(failure) => Err(failure)
        case Ok(value) => Ok(values + [value])
  }

  lemma {:induction false} EvalAllValues(regs: seq<Registration>, ranks: seq<nat>, world: World, ids: seq<nat>, bound: nat)
    requires Validated(regs, ranks) && Below(ranks, ids, bound)
    requires forall i | 0 <= i < |ids| :: Eval(regs, ranks, world, ids[i]).Ok?
    ensures var all := EvalAll(regs, ranks, world, ids, bound);
            all.Ok? && forall i | 0 <= i < |ids| :: all.value[i] == Eval(regs, ranks, world, ids[i]).value
    decreases |ids|
  {
    hide Eval, Validated;
    if ids != [] {
      var init := ids[..|ids| - 1];
      assert forall i | 0 <= i < |init| :: init[i] == ids[i];
      EvalAllValues(regs, ranks, world, init, bound);
    }
  }

  /** Once its dependencies have values, a provider's outcome is its factory's. */
  lemma EvalFrom(regs: seq<Registration>, ranks: seq<nat>, world: World, id: nat, values: seq<Value>)
    requires Validated(regs, ranks) && id < |regs| && |values| == |regs[id].dependencies|
    requires forall k | 0 <= k < |values| ::
               Eval(regs, ranks, world, Target(regs, ranks, id, k)) == Ok(values[k])
    ensures Eval(regs, ranks, world, id) == world.factory(id, values + Decoded(world, regs[id].inputs))
  {
    var targets := Targets(regs, ranks, id);
    assert forall k | 0 <= k < |targets| :: Eval(regs, ranks, world, targets[k]) == Ok(values[k]);
    EvalAllValues(regs, ranks, world, targets, ranks[id]);
    assert EvalAll(regs, ranks, world, targets, ranks[id]).value == values;
  }

  lemma {:induction false} EvalAllFails(
      regs: seq<Registration>, ranks: seq<nat>, world: World, ids: seq<nat>, bound: nat, i: nat)
    requires Validated(regs, ranks) && Below(ranks, ids, bound)
    requires i < |ids| && Eval(regs, ranks, world, ids[i]).Err?
    ensures EvalAll(regs, ranks, world, ids, bound).Err?
    decreases |ids|
  {
    hide Eval, Validated;
    if i < |ids| - 1 {
      EvalAllFails(regs, ranks, world, ids[..|ids| - 1], bound, i);
    }
  }

  /** A provider with a failing dependency fails. */
  lemma FailsWithDependency(regs: seq<Registration>, ranks: seq<nat>, world: World, id: nat, k: nat)
    requires Validated(regs, ranks) && id < |regs| && k < |regs[id].dependencies|
    requires Eval(regs, ranks, world, Target(regs, ranks, id, k)).Err?
    ensures Eval(regs, ranks, world, id).Err?
  {
    EvalAllFails(regs, ranks, world, Targets(regs, ranks, id), ranks[id], k);
  }

  /** A singleton's value does not depend on the request. */
  lemma {:induction false} SingletonIgnoresRequest(
      regs: seq<Registration>, ranks: seq<nat>, world: World, other: World, id: nat)
    requires Validated(regs, ranks) && id < |regs| && regs[id].lifetime.Singleton?
    requires world.factory == other.factory
    ensures Eval(regs, ranks, world, id) == Eval(regs, ranks, other, id)
    decreases ranks[id] + 1, 0
  {
    SingletonsIgnoreRequest(regs, ranks, world, other, Targets(regs, ranks, id), ranks[id]);
    assert Decoded(world, regs[id].inputs) == Decoded(other, regs[id].inputs);
  }

  lemma {:induction false} SingletonsIgnoreRequest(
      regs: seq<Registration>, ranks: seq<nat>, world: World, other: World, ids: seq<nat>, bound: nat)
    requires Validated(regs, ranks) && Below(ranks, ids, bound)
    requires forall i | 0 <= i < |ids| :: regs[ids[i]].lifetime.Singleton?
    requires world.factory == other.factory
    ensures EvalAll(regs, ranks, world, ids, bound) == EvalAll(regs, ranks, other, ids, bound)
    decreases bound, |ids| + 1
  {
    if ids != [] {
      SingletonsIgnoreRequest(regs, ranks, world, other, ids[..|ids| - 1], bound);
      var last := ids[|ids| - 1];
      assert regs[last].lifetime.Singleton?;
      SingletonIgnoresRequest(regs, ranks, world, other, last);
    }
  }
}
