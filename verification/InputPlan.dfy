/**
 The request inputs an operation's provider chain declares, deduplicated by wire identity and
 given the first request slots: `plan_operation_inputs`.
 */
module InputPlan {
  import opened Wrappers
  import opened ProviderGraph
  import opened DependencyMeaning
  import opened CompiledProviders

  datatype Plan = Plan(decoders: seq<Input>, positions: map<nat, seq<nat>>)

  /** From a root to `id` along dependencies, never through a singleton. */
  ghost predicate NeededBy(regs: seq<Registration>, roots: seq<nat>, walk: seq<nat>) {
    && walk != [] && walk[0] in roots && Walk(regs, walk)
    && forall i | 0 <= i < |walk| - 1 :: !regs[walk[i]].lifetime.Singleton?
  }

  ghost predicate Needed(regs: seq<Registration>, roots: seq<nat>, id: nat) {
    exists walk :: NeededBy(regs, roots, walk) && walk[|walk| - 1] == id
  }

  /** Some provider the operation needs per request declares the input. */
  ghost predicate Declared(regs: seq<Registration>, roots: seq<nat>, input: Input) {
    exists id: nat :: id < |regs| && Needed(regs, roots, id) && !regs[id].lifetime.Singleton? && input in regs[id].inputs
  }

  /** Nobody decodes one wire input to two types. */
  ghost predicate Consistent(regs: seq<Registration>, roots: seq<nat>) {
    forall a, b :: Declared(regs, roots, a) && Declared(regs, roots, b) && a.key == b.key ==> a == b
  }

  /** The operation needs this wire input decoded to two types. */
  ghost predicate Clashing(regs: seq<Registration>, roots: seq<nat>, key: nat) {
    exists a, b :: Declared(regs, roots, a) && Declared(regs, roots, b) && a.key == b.key == key && a != b
  }

  /** Slot `positions[k]` decodes the provider's input `k`. */
  ghost predicate Located(plan: Plan, regs: seq<Registration>, id: nat)
    requires id < |regs|
  {
    var inputs := regs[id].inputs;
    if inputs == [] then id !in plan.positions
    else
      && id in plan.positions && |plan.positions[id]| == |inputs|
      && forall k | 0 <= k < |inputs| ::
           plan.positions[id][k] < |plan.decoders| && plan.decoders[plan.positions[id][k]] == inputs[k]
  }

  /** `visited` contains the roots and follows every per-request dependency, and the plan locates its inputs. */
  ghost predicate Covers(plan: Plan, regs: seq<Registration>, ranks: seq<nat>, visited: set<nat>, roots: seq<nat>)
    requires Validated(regs, ranks)
  {
    && (forall root | root in roots :: root in visited)
    && Explored(plan, regs, ranks, visited, visited)
  }

  /** The processed providers' inputs are located, and their dependencies known. */
  ghost predicate Explored(plan: Plan, regs: seq<Registration>, ranks: seq<nat>, done: set<nat>, known: set<nat>)
    requires Validated(regs, ranks)
  {
    forall id | id in done ::
      && id < |regs|
      && (!regs[id].lifetime.Singleton? ==>
            && Located(plan, regs, id)
            && forall k | 0 <= k < |regs[id].dependencies| :: Target(regs, ranks, id, k) in known)
  }

  ghost predicate DistinctKeys(decoders: seq<Input>) {
    forall a, b | 0 <= a < b < |decoders| :: decoders[a].key != decoders[b].key
  }

  /** What `slots` remembers about the decoders so far. */
  ghost predicate Indexed(decoders: seq<Input>, slots: map<nat, (TypeKey, nat)>) {
    && (forall p | 0 <= p < |decoders| ::
          decoders[p].key in slots && slots[decoders[p].key] == (decoders[p].valueType, p))
    && (forall key | key in slots :: slots[key].1 < |decoders| && decoders[slots[key].1].key == key)
  }

  lemma NeededStep(regs: seq<Registration>, ranks: seq<nat>, roots: seq<nat>, id: nat, k: nat)
    requires Validated(regs, ranks) && id < |regs| && Needed(regs, roots, id)
    requires !regs[id].lifetime.Singleton? && k < |regs[id].dependencies|
    ensures Needed(regs, roots, Target(regs, ranks, id, k))
  {
    var walk :| NeededBy(regs, roots, walk) && walk[|walk| - 1] == id;
    var target := Target(regs, ranks, id, k);
    assert Edge(regs, id, target);
    var longer := walk + [target];
    assert longer[|longer| - 1] == target;
    assert forall i | 0 <= i < |walk| - 1 :: Edge(regs, walk[i], walk[i + 1]);
    hide Edge, Validated;
    assert NeededBy(regs, roots, longer);
  }

  lemma {:induction false} WalkVisited(
      plan: Plan, regs: seq<Registration>, ranks: seq<nat>, visited: set<nat>, roots: seq<nat>, walk: seq<nat>, i: nat)
    requires Validated(regs, ranks) && Covers(plan, regs, ranks, visited, roots)
    requires NeededBy(regs, roots, walk) && i < |walk|
    ensures walk[i] in visited
    decreases i
  {
    if i > 0 {
      WalkVisited(plan, regs, ranks, visited, roots, walk, i - 1);
      var from := walk[i - 1];
      assert Edge(regs, walk[i - 1], walk[i - 1 + 1]);
      var k :| 0 <= k < |regs[from].dependencies|
               && regs[from].dependencies[k] in regs[from].visible
               && regs[from].visible[regs[from].dependencies[k]] == walk[i];
      assert Target(regs, ranks, from, k) in visited;
    }
  }

  /** Everything the operation needs is covered, so inputs that clash would have been found. */
  lemma CoveredConsistent(
      plan: Plan, regs: seq<Registration>, ranks: seq<nat>, visited: set<nat>, roots: seq<nat>,
      slots: map<nat, (TypeKey, nat)>)
    requires Validated(regs, ranks) && Covers(plan, regs, ranks, visited, roots) && Indexed(plan.decoders, slots)
    ensures Consistent(regs, roots)
  {
    forall input | Declared(regs, roots, input) ensures input in plan.decoders {
      var id: nat :| id < |regs| && Needed(regs, roots, id) && !regs[id].lifetime.Singleton? && input in regs[id].inputs;
      var walk :| NeededBy(regs, roots, walk) && walk[|walk| - 1] == id;
      WalkVisited(plan, regs, ranks, visited, roots, walk, |walk| - 1);
      var k :| 0 <= k < |regs[id].inputs| && regs[id].inputs[k] == input;
      assert Located(plan, regs, id);
      assert plan.decoders[plan.positions[id][k]] == input;
    }
  }

  /** One provider's inputs: reuse a slot with the same type, refuse one with another. */
  method PlanProvider(regs: seq<Registration>, id: nat, decoders: seq<Input>, slots: map<nat, (TypeKey, nat)>)
      returns (result: Result<seq<nat>, CompileError>, decoders': seq<Input>, slots': map<nat, (TypeKey, nat)>)
    requires id < |regs| && Indexed(decoders, slots)
    ensures Indexed(decoders', slots') && decoders <= decoders'
    ensures forall p | |decoders| <= p < |decoders'| :: decoders'[p] in regs[id].inputs
    ensures result.Ok? ==>
              && |result.value| == |regs[id].inputs|
              && forall k | 0 <= k < |result.value| ::
                   result.value[k] < |decoders'| && decoders'[result.value[k]] == regs[id].inputs[k]
    ensures result.Err? ==>
              result.error.ConflictingInput? &&
              exists a, b :: a in regs[id].inputs && b in decoders' && a.key == b.key == result.error.key && a != b
  {
    decoders', slots' := decoders, slots;
    var positions: seq<nat> := [];
    var inputs := regs[id].inputs;
    while |positions| < |inputs|
      invariant |positions| <= |inputs|
      invariant Indexed(decoders', slots') && decoders <= decoders'
      invariant forall p | |decoders| <= p < |decoders'| :: decoders'[p] in inputs
      invariant forall k | 0 <= k < |positions| ::
                  positions[k] < |decoders'| && decoders'[positions[k]] == inputs[k]
    {
      var input := inputs[|positions|];
      if input.key in slots' {
        var (existing, slot) := slots'[input.key];
        if existing != input.valueType {
          assert input in inputs && decoders'[slot] in decoders';
          return Err(ConflictingInput(input.key)), decoders', slots';
        }
        positions := positions + [slot];
      } else {
        positions := positions + [|decoders'|];
        slots' := slots'[input.key := (input.valueType, |decoders'|)];
        decoders' := decoders' + [input];
      }
    }
    result := Ok(positions);
  }

  method PushDependencies(regs: seq<Registration>, ghost ranks: seq<nat>, id: nat, pending: seq<nat>)
      returns (pushed: seq<nat>)
    requires Validated(regs, ranks) && id < |regs|
    ensures pushed == pending + Targets(regs, ranks, id)
  {
    pushed := pending;
    var at := 0;
    while at < |regs[id].dependencies|
      invariant 0 <= at <= |regs[id].dependencies|
      invariant pushed == pending + Targets(regs, ranks, id)[..at]
    {
      var key := regs[id].dependencies[at];
      assert Target(regs, ranks, id, at) == Targets(regs, ranks, id)[at];
      if key in regs[id].visible {
        pushed := pushed + [regs[id].visible[key]];
      }
      at := at + 1;
    }
    assert Targets(regs, ranks, id)[..at] == Targets(regs, ranks, id);
  }

  /** Between two iterations of the walk over what the operation needs. */
  ghost predicate Underway(
      plan: Plan, slots: map<nat, (TypeKey, nat)>, visited: set<nat>, pending: seq<nat>,
      regs: seq<Registration>, ranks: seq<nat>, roots: seq<nat>)
    requires Validated(regs, ranks)
  {
    && (forall x | x in pending :: x < |regs| && Needed(regs, roots, x))
    && (forall x | x in visited :: x < |regs| && Needed(regs, roots, x))
    && (forall root | root in roots :: root in visited || root in pending)
    && Explored(plan, regs, ranks, visited, visited + Members(pending))
    && Indexed(plan.decoders, slots)
    && (forall input | input in plan.decoders :: Declared(regs, roots, input))
    && (forall x | x in plan.positions :: x in visited)
  }

  function Members(ids: seq<nat>): (members: set<nat>)
    ensures forall x :: x in members <==> x in ids
  {
    set x | x in ids
  }

  lemma StartUnderway(regs: seq<Registration>, ranks: seq<nat>, roots: seq<nat>)
    requires Validated(regs, ranks) && forall root | root in roots :: root < |regs|
    ensures Underway(Plan([], map[]), map[], {}, roots, regs, ranks, roots)
  {
    forall root | root in roots ensures Needed(regs, roots, root) {
      assert NeededBy(regs, roots, [root]);
    }
  }

  lemma UnderwayHead(
      plan: Plan, slots: map<nat, (TypeKey, nat)>, visited: set<nat>, rest: seq<nat>, id: nat,
      regs: seq<Registration>, ranks: seq<nat>, roots: seq<nat>)
    requires Validated(regs, ranks) && Underway(plan, slots, visited, rest + [id], regs, ranks, roots)
    ensures id < |regs| && Indexed(plan.decoders, slots) && (id !in visited ==> id !in plan.positions)
  {
    hide Validated, Needed, Declared, Explored, Indexed;
    assert id in rest + [id];
  }

  lemma Finished(
      plan: Plan, slots: map<nat, (TypeKey, nat)>, visited: set<nat>,
      regs: seq<Registration>, ranks: seq<nat>, roots: seq<nat>)
    requires Validated(regs, ranks) && Underway(plan, slots, visited, [], regs, ranks, roots)
    ensures Covers(plan, regs, ranks, visited, roots) && Indexed(plan.decoders, slots)
    ensures DistinctKeys(plan.decoders)
    ensures forall input | input in plan.decoders :: Declared(regs, roots, input)
  {
    assert visited + Members([]) == visited;
    assert forall root | root in roots :: root in visited;
  }

  lemma SkipKeeps(
      plan: Plan, slots: map<nat, (TypeKey, nat)>, visited: set<nat>, rest: seq<nat>, id: nat,
      regs: seq<Registration>, ranks: seq<nat>, roots: seq<nat>)
    requires Validated(regs, ranks) && Underway(plan, slots, visited, rest + [id], regs, ranks, roots)
    requires id < |regs| && (id in visited || regs[id].lifetime.Singleton?)
    ensures Underway(plan, slots, visited + {id}, rest, regs, ranks, roots)
    ensures id in visited ==> Underway(plan, slots, visited, rest, regs, ranks, roots)
  {
    hide Validated, Needed, Declared, Located;
    assert id in rest + [id];
    assert forall x | x in rest :: x in rest + [id];
    assert visited + {id} + Members(rest) == visited + Members(rest + [id]);
    assert id in visited ==> visited + {id} == visited;
  }

  lemma ExpandKeeps(
      plan: Plan, slots: map<nat, (TypeKey, nat)>, visited: set<nat>, rest: seq<nat>, id: nat,
      regs: seq<Registration>, ranks: seq<nat>, roots: seq<nat>,
      plan': Plan, slots': map<nat, (TypeKey, nat)>)
    requires Validated(regs, ranks) && Underway(plan, slots, visited, rest + [id], regs, ranks, roots)
    requires id !in visited && id < |regs| && !regs[id].lifetime.Singleton?
    requires Indexed(plan'.decoders, slots') && plan.decoders <= plan'.decoders
    requires forall p | |plan.decoders| <= p < |plan'.decoders| :: plan'.decoders[p] in regs[id].inputs
    requires Located(plan', regs, id)
    requires forall x | x != id :: x in plan'.positions <==> x in plan.positions
    requires forall x | x != id && x in plan.positions :: plan'.positions[x] == plan.positions[x]
    ensures Underway(plan', slots', visited + {id}, rest + Targets(regs, ranks, id), regs, ranks, roots)
  {
    assert id in rest + [id] && Needed(regs, roots, id);
    ExpandNeeded(regs, ranks, roots, id, rest, plan.decoders, plan'.decoders);
    ExpandExplored(plan, visited, rest, id, regs, ranks, plan');
    hide Validated, Needed, Declared, Explored, Indexed, Located;
    assert forall x | x in rest + [id] :: x in rest || x == id;
    assert forall x | x in rest :: x in rest + Targets(regs, ranks, id);
  }

  lemma ExpandNeeded(
      regs: seq<Registration>, ranks: seq<nat>, roots: seq<nat>, id: nat, rest: seq<nat>,
      before: seq<Input>, after: seq<Input>)
    requires Validated(regs, ranks) && id < |regs| && !regs[id].lifetime.Singleton?
    requires forall x | x in rest + [id] :: x < |regs| && Needed(regs, roots, x)
    requires forall input | input in before :: Declared(regs, roots, input)
    requires before <= after && forall p | |before| <= p < |after| :: after[p] in regs[id].inputs
    ensures forall x | x in rest + Targets(regs, ranks, id) :: x < |regs| && Needed(regs, roots, x)
    ensures forall input | input in after :: Declared(regs, roots, input)
  {
    var targets := Targets(regs, ranks, id);
    assert id in rest + [id] && forall x | x in rest :: x in rest + [id];
    forall k | 0 <= k < |targets| ensures Needed(regs, roots, targets[k]) {
      NeededStep(regs, ranks, roots, id, k);
    }
    forall input | input in after ensures Declared(regs, roots, input) {
      var p :| 0 <= p < |after| && after[p] == input;
      assert p < |before| ==> before[p] in before;
    }
  }

  lemma ExpandExplored(
      plan: Plan, visited: set<nat>, rest: seq<nat>, id: nat, regs: seq<Registration>, ranks: seq<nat>, plan': Plan)
    requires Validated(regs, ranks)
    requires Explored(plan, regs, ranks, visited, visited + Members(rest + [id]))
    requires id !in visited && id < |regs| && !regs[id].lifetime.Singleton?
    requires plan.decoders <= plan'.decoders && Located(plan', regs, id)
    requires forall x | x != id :: x in plan'.positions <==> x in plan.positions
    requires forall x | x != id && x in plan.positions :: plan'.positions[x] == plan.positions[x]
    ensures Explored(plan', regs, ranks, visited + {id}, visited + {id} + Members(rest + Targets(regs, ranks, id)))
  {
    var known := visited + {id} + Members(rest + Targets(regs, ranks, id));
    assert visited + Members(rest + [id]) <= known;
    hide Validated;
    forall x | x in visited + {id}
      ensures x < |regs|
      ensures !regs[x].lifetime.Singleton? ==>
                Located(plan', regs, x) && forall k | 0 <= k < |regs[x].dependencies| :: Target(regs, ranks, x, k) in known
    {
      if x == id {
        var targets := Targets(regs, ranks, id);
        assert forall k | 0 <= k < |targets| :: targets[k] in rest + targets;
      } else if !regs[x].lifetime.Singleton? {
        assert Located(plan, regs, x);
      }
    }
  }

  lemma ConflictFound(
      plan: Plan, slots: map<nat, (TypeKey, nat)>, visited: set<nat>, rest: seq<nat>, id: nat,
      regs: seq<Registration>, ranks: seq<nat>, roots: seq<nat>, decoders: seq<Input>, key: nat)
    requires Validated(regs, ranks) && Underway(plan, slots, visited, rest + [id], regs, ranks, roots)
    requires id < |regs| && !regs[id].lifetime.Singleton? && plan.decoders <= decoders
    requires forall p | |plan.decoders| <= p < |decoders| :: decoders[p] in regs[id].inputs
    requires exists a, b :: a in regs[id].inputs && b in decoders && a.key == b.key == key && a != b
    ensures Clashing(regs, roots, key) && !Consistent(regs, roots)
  {
    assert id in rest + [id];
    assert forall input | input in regs[id].inputs :: Declared(regs, roots, input);
    var a, b :| a in regs[id].inputs && b in decoders && a.key == b.key == key && a != b;
    var p :| 0 <= p < |decoders| && decoders[p] == b;
    assert p < |plan.decoders| ==> plan.decoders[p] in plan.decoders;
    assert Declared(regs, roots, a) && Declared(regs, roots, b);
  }

  /** What the walk does with a provider it meets for the first time. */
  method Expand(
      plan: Plan, slots: map<nat, (TypeKey, nat)>, ghost visited: set<nat>, rest: seq<nat>, id: nat,
      regs: seq<Registration>, ghost ranks: seq<nat>, ghost roots: seq<nat>)
      returns (result: Result<Plan, CompileError>, slots': map<nat, (TypeKey, nat)>, pending: seq<nat>)
    requires Validated(regs, ranks) && Underway(plan, slots, visited, rest + [id], regs, ranks, roots)
    requires id !in visited && id < |regs| && !regs[id].lifetime.Singleton?
    ensures result.Err? ==>
              result.error.ConflictingInput? && Clashing(regs, roots, result.error.key) && !Consistent(regs, roots)
    ensures result.Ok? ==> Underway(result.value, slots', visited + {id}, pending, regs, ranks, roots)
  {
    UnderwayHead(plan, slots, visited, rest, id, regs, ranks, roots);
    hide Validated, Needed, Declared, Clashing, Consistent, Underway, Explored, Indexed;
    var positions, decoders, grown := PlanProvider(regs, id, plan.decoders, slots);
    pending, slots' := rest, grown;
    if positions.Err? {
      ConflictFound(plan, slots, visited, rest, id, regs, ranks, roots, decoders, positions.error.key);
      return Err(positions.error), slots', pending;
    }
    var located := plan.positions;
    if positions.value != [] {
      located := located[id := positions.value];
    }
    var next := Plan(decoders, located);
    ExpandKeeps(plan, slots, visited, rest, id, regs, ranks, roots, next, grown);
    pending := PushDependencies(regs, ranks, id, rest);
    result := Ok(next);
  }

  method Pop(pending: seq<nat>) returns (id: nat, rest: seq<nat>)
    requires pending != []
    ensures pending == rest + [id]
  {
    id, rest := pending[|pending| - 1], pending[..|pending| - 1];
  }

  lemma Shrinks(all: set<nat>, visited: set<nat>, id: nat)
    requires id in all && id !in visited
    ensures all - (visited + {id}) < all - visited
  {
    assert id in all - visited;
  }

  function Indices(n: nat): (all: set<nat>)
    ensures forall x | 0 <= x < n :: x in all
  {
    if n == 0 then {} else Indices(n - 1) + {n - 1}
  }

  /**
   `plan_operation_inputs`: refuses exactly the operations that decode one wire input to two
   types, and otherwise locates every input of every provider the operation needs.
   */
  method PlanInputs(regs: seq<Registration>, ghost ranks: seq<nat>, roots: seq<nat>)
      returns (result: Result<Plan, CompileError>, ghost covered: set<nat>)
    requires Validated(regs, ranks) && forall root | root in roots :: root < |regs|
    ensures result.Ok? <==> Consistent(regs, roots)
    ensures result.Ok? ==> Covers(result.value, regs, ranks, covered, roots)
    ensures result.Ok? ==> DistinctKeys(result.value.decoders)
    ensures result.Ok? ==> forall input | input in result.value.decoders :: Declared(regs, roots, input)
    ensures result.Err? ==> result.error.ConflictingInput? && Clashing(regs, roots, result.error.key)
  {
    var plan := Plan([], map[]);
    var slots: map<nat, (TypeKey, nat)> := map[];
    var visited: set<nat> := {};
    var pending := roots;
    ghost var all := Indices(|regs|);
    StartUnderway(regs, ranks, roots);
    hide Validated, Needed, Declared, Clashing, Consistent, Covers, Underway, Explored, Indexed, DistinctKeys;
    while pending != []
      invariant Underway(plan, slots, visited, pending, regs, ranks, roots)
      decreases all - visited, |pending|
    {
      var id, rest := Pop(pending);
      UnderwayHead(plan, slots, visited, rest, id, regs, ranks, roots);
      if id in visited {
        SkipKeeps(plan, slots, visited, rest, id, regs, ranks, roots);
        pending := rest;
      } else {
        Shrinks(all, visited, id);
        if regs[id].lifetime.Singleton? {
          SkipKeeps(plan, slots, visited, rest, id, regs, ranks, roots);
          pending := rest;
        } else {
          var expanded;
          expanded, slots, pending := Expand(plan, slots, visited, rest, id, regs, ranks, roots);
          if expanded.Err? {
            return Err(expanded.error), {};
          }
          plan := expanded.value;
        }
        visited := visited + {id};
      }
    }
    Finished(plan, slots, visited, regs, ranks, roots);
    CoveredConsistent(plan, regs, ranks, visited, roots, slots);
    return Ok(plan), visited;
  }
}
