/**
 The slot compiler: an operation's dependencies become a chain of providers that read numeric
 slots. `compile_operation_dependencies` and `compile_request_provider`.
 */
module SlotCompiler {
  import opened Wrappers
  import opened Outcomes
  import opened ProviderGraph
  import opened DependencyMeaning
  import opened CompiledProviders
  import opened SingletonBuild
  import opened InputPlan

  /** What the compiler is given. */
  datatype Setup = Setup(
    regs: seq<Registration>,
    ranks: seq<nat>,
    singletonSlots: seq<Option<nat>>,
    singletons: nat,
    plan: Plan,
    covered: set<nat>)

  ghost predicate Ready(g: Setup, roots: seq<nat>) {
    && Validated(g.regs, g.ranks)
    && Assigned(g.regs, g.singletonSlots, g.singletons)
    && Covers(g.plan, g.regs, g.ranks, g.covered, roots)
  }

  /** Singletons have values: they were built before. */
  ghost predicate SingletonsBuilt(g: Setup, worlds: iset<World>)
    requires Validated(g.regs, g.ranks)
  {
    forall world, id | world in worlds && 0 <= id < |g.regs| && g.regs[id].lifetime.Singleton? ::
      Eval(g.regs, g.ranks, world, id).Ok?
  }

  /** `slot`, read when `chain` has run, holds provider `id`'s value. */
  ghost predicate Points(g: Setup, chain: seq<Compiled>, slot: Slot, id: nat) {
    && id < |g.regs| == |g.singletonSlots|
    && match slot
       case SingletonSlot(index) => g.regs[id].lifetime.Singleton? && g.singletonSlots[id] == Some(index)
       case RequestSlot(index) =>
         && !g.regs[id].lifetime.Singleton?
         && |g.plan.decoders| <= index < |g.plan.decoders| + |chain|
         && chain[index - |g.plan.decoders|].id == id
  }

  /** Dependencies first, each built before, then decoded inputs, in declaration order. */
  ghost predicate EntryValid(g: Setup, before: seq<Compiled>, entry: Compiled)
    requires Validated(g.regs, g.ranks)
  {
    && entry.id < |g.regs| && !g.regs[entry.id].lifetime.Singleton?
    && var reg := g.regs[entry.id];
       && |entry.slots| == |reg.dependencies| + |reg.inputs|
       && (forall k | 0 <= k < |reg.dependencies| ::
             Points(g, before, entry.slots[k], Target(g.regs, g.ranks, entry.id, k)))
       && InputsRead(g.plan, entry.slots[|reg.dependencies|..], reg.inputs)
  }

  ghost predicate InputsRead(plan: Plan, slots: seq<Slot>, inputs: seq<Input>) {
    && |slots| == |inputs|
    && forall k | 0 <= k < |inputs| ::
         slots[k].RequestSlot? && slots[k].index < |plan.decoders| && plan.decoders[slots[k].index] == inputs[k]
  }

  /** Every entry is valid where it stands. */
  ghost predicate ChainValid(g: Setup, chain: seq<Compiled>)
    requires Validated(g.regs, g.ranks)
  {
    forall i | 0 <= i < |chain| :: EntryValid(g, chain[..i], chain[i])
  }

  /** Request providers, and only they, are remembered, each where it was compiled. */
  ghost predicate Remembered(g: Setup, chain: seq<Compiled>, requestSlots: map<nat, nat>) {
    && (forall i | 0 <= i < |chain| :: chain[i].id < |g.regs|)
    && (forall i | 0 <= i < |chain| && g.regs[chain[i].id].lifetime.Request? ::
          chain[i].id in requestSlots && requestSlots[chain[i].id] == |g.plan.decoders| + i)
    && (forall id | id in requestSlots :: CompiledAt(g, chain, id, requestSlots[id]))
  }

  lemma PointsLater(g: Setup, chain: seq<Compiled>, later: seq<Compiled>, slot: Slot, id: nat)
    requires Points(g, chain, slot, id) && chain <= later
    ensures Points(g, later, slot, id)
  {
  }

  lemma ChainValidAppend(g: Setup, chain: seq<Compiled>, entry: Compiled)
    requires Validated(g.regs, g.ranks) && ChainValid(g, chain) && EntryValid(g, chain, entry)
    ensures ChainValid(g, chain + [entry])
  {
    hide EntryValid, Validated;
    var longer := chain + [entry];
    forall i | 0 <= i < |longer| ensures EntryValid(g, longer[..i], longer[i]) {
      assert longer[..i] == chain[..i];
      assert chain[..|chain|] == chain;
    }
  }

  // ----- failures, in order -----

  /** The first provider of the chain that has no value, and why. */
  ghost function FirstFailure(g: Setup, world: World, chain: seq<Compiled>): Option<DependencyError>
    requires Validated(g.regs, g.ranks) && forall i | 0 <= i < |chain| :: chain[i].id < |g.regs|
  {
    if chain == [] then None
    else
      match FirstFailure(g, world, chain[..|chain| - 1])
      case Some(error) => Some(error)
      case None => FailureOf(Eval(g.regs, g.ranks, world, chain[|chain| - 1].id))
  }

  function FailureOf<T>(result: Result<T, DependencyError>): Option<DependencyError> {
    match result
    case Ok(_) => None
    case Err(error) => Some(error)
  }

  lemma FirstFailureAppend(g: Setup, world: World, chain: seq<Compiled>, entry: Compiled)
    requires Validated(g.regs, g.ranks) && forall i | 0 <= i < |chain| :: chain[i].id < |g.regs|
    requires entry.id < |g.regs|
    ensures FirstFailure(g, world, chain + [entry])
            == if FirstFailure(g, world, chain).Some? then FirstFailure(g, world, chain)
               else FailureOf(Eval(g.regs, g.ranks, world, entry.id))
  {
    hide Eval, Validated;
    var longer := chain + [entry];
    assert longer[..|longer| - 1] == chain;
  }

  lemma {:induction false} NoFailureMeansValues(g: Setup, world: World, chain: seq<Compiled>, i: nat)
    requires Validated(g.regs, g.ranks) && forall i | 0 <= i < |chain| :: chain[i].id < |g.regs|
    requires FirstFailure(g, world, chain).None? && i < |chain|
    ensures Eval(g.regs, g.ranks, world, chain[i].id).Ok?
    decreases |chain|
  {
    hide Eval, Validated;
    if i < |chain| - 1 {
      NoFailureMeansValues(g, world, chain[..|chain| - 1], i);
    }
  }

  /**
   Compiling `ids` after `before` fails first exactly where evaluating them would, unless
   something before did.
   */
  ghost predicate FailsAlike(g: Setup, world: World, before: seq<Compiled>, after: seq<Compiled>,
                             outcome: Option<DependencyError>)
    requires Validated(g.regs, g.ranks)
  {
    && (forall i | 0 <= i < |before| :: before[i].id < |g.regs|)
    && (forall i | 0 <= i < |after| :: after[i].id < |g.regs|)
    && FirstFailure(g, world, after)
       == if FirstFailure(g, world, before).Some? then FirstFailure(g, world, before) else outcome
  }

  // ----- transients are not shared -----

  /** Every slot the entries read, with multiplicity. */
  function Uses(entries: seq<Compiled>): multiset<Slot> {
    if entries == [] then multiset{} else Uses(entries[..|entries| - 1]) + multiset(entries[|entries| - 1].slots)
  }

  lemma {:induction false} UsesJoin(first: seq<Compiled>, second: seq<Compiled>)
    ensures Uses(first + second) == Uses(first) + Uses(second)
    decreases |second|
  {
    if second == [] {
      assert first + second == first;
    } else {
      assert (first + second)[..|first + second| - 1] == first + second[..|second| - 1];
      UsesJoin(first, second[..|second| - 1]);
    }
  }

  predicate HoldsTransient(g: Setup, chain: seq<Compiled>, slot: Slot) {
    && slot.RequestSlot? && |g.plan.decoders| <= slot.index < |g.plan.decoders| + |chain|
    && var id := chain[slot.index - |g.plan.decoders|].id;
       id < |g.regs| && g.regs[id].lifetime.Transient?
  }

  /** No transient is read twice, and none from before position `from`. */
  ghost predicate Exclusive(g: Setup, chain: seq<Compiled>, from: nat, uses: multiset<Slot>) {
    && (forall slot | slot in uses && slot.RequestSlot? :: slot.index < |g.plan.decoders| + |chain|)
    && forall slot | slot in uses && HoldsTransient(g, chain, slot) ::
         uses[slot] == 1 && slot.index >= |g.plan.decoders| + from
  }

  lemma ExclusiveJoin(
      g: Setup, middle: seq<Compiled>, chain: seq<Compiled>, from: nat, uses: multiset<Slot>, more: multiset<Slot>)
    requires middle <= chain && from <= |middle|
    requires Exclusive(g, middle, from, uses) && Exclusive(g, chain, |middle|, more)
    ensures Exclusive(g, chain, from, uses + more)
  {
    forall slot | slot in uses && HoldsTransient(g, chain, slot)
      ensures HoldsTransient(g, middle, slot) && slot !in more
    {
    }
  }

  /** A new entry reads what was pending; its own slot is pending then, and nobody reads it yet. */
  lemma ExclusiveEntry(
      g: Setup, chain: seq<Compiled>, from: nat, dependencies: seq<Slot>, inputs: seq<Slot>, entry: Compiled)
    requires from <= |chain| && entry.slots == dependencies + inputs
    requires Exclusive(g, chain, from, Uses(chain[from..]) + multiset(dependencies))
    requires forall k | 0 <= k < |inputs| :: inputs[k].RequestSlot? && inputs[k].index < |g.plan.decoders|
    ensures Exclusive(g, chain + [entry], from,
                      Uses((chain + [entry])[from..]) + multiset{RequestSlot(|g.plan.decoders| + |chain|)})
  {
    hide Uses;
    var longer := chain + [entry];
    var uses := Uses(chain[from..]) + multiset(dependencies);
    assert longer[from..] == chain[from..] + [entry];
    UsesJoin(chain[from..], [entry]);
    UsesOne(entry);
    var all := Uses(longer[from..]);
    assert all == uses + multiset(inputs);
    forall slot | slot in all && slot.RequestSlot? ensures slot.index < |g.plan.decoders| + |chain| {
      if slot in inputs {
        var k :| 0 <= k < |inputs| && inputs[k] == slot;
      }
    }
    forall slot | slot in all && HoldsTransient(g, longer, slot)
      ensures HoldsTransient(g, chain, slot) && slot !in inputs && slot in uses
    {
      assert forall k | 0 <= k < |inputs| :: inputs[k] != slot;
    }
  }

  lemma ExclusiveNext(g: Setup, from: nat, middle: seq<Compiled>, chain: seq<Compiled>, slots: seq<Slot>, slot: Slot)
    requires from <= |middle| && middle <= chain
    requires Exclusive(g, middle, from, Uses(middle[from..]) + multiset(slots))
    requires Exclusive(g, chain, |middle|, Uses(chain[|middle|..]) + multiset{slot})
    ensures Exclusive(g, chain, from, Uses(chain[from..]) + multiset(slots + [slot]))
  {
    hide Exclusive, Uses;
    var uses, more := Uses(middle[from..]) + multiset(slots), Uses(chain[|middle|..]) + multiset{slot};
    ExclusiveJoin(g, middle, chain, from, uses, more);
    assert chain[from..] == middle[from..] + chain[|middle|..];
    UsesJoin(middle[from..], chain[|middle|..]);
    assert uses + more == Uses(chain[from..]) + multiset(slots + [slot]);
  }

  lemma UsesOne(entry: Compiled)
    ensures Uses([entry]) == multiset(entry.slots)
  {
    assert [entry][..0] == [];
  }

  lemma NothingUsed(g: Setup, chain: seq<Compiled>)
    ensures Uses(chain[|chain|..]) == multiset{}
    ensures Exclusive(g, chain, |chain|, Uses(chain[|chain|..]) + multiset([]))
  {
    assert Uses(chain[|chain|..]) + multiset([]) == multiset{};
  }

  lemma EvalNothing(g: Setup, world: World, bound: nat)
    requires Validated(g.regs, g.ranks)
    ensures EvalAll(g.regs, g.ranks, world, [], bound) == Ok([])
  {
  }

  /** A chain is compiled once and runs for every request: whatever the request, it fails as evaluating `id` would. */
  ghost predicate FailsAsOne(g: Setup, worlds: iset<World>, before: seq<Compiled>, after: seq<Compiled>, id: nat)
    requires Validated(g.regs, g.ranks) && id < |g.regs|
  {
    forall world | world in worlds ::
      FailsAlike(g, world, before, after, FailureOf(Eval(g.regs, g.ranks, world, id)))
  }

  /** The same for several providers, in order. */
  ghost predicate FailsAsAll(
      g: Setup, worlds: iset<World>, before: seq<Compiled>, after: seq<Compiled>, ids: seq<nat>, bound: nat)
    requires Validated(g.regs, g.ranks) && Below(g.ranks, ids, bound)
  {
    forall world | world in worlds ::
      FailsAlike(g, world, before, after, FailureOf(EvalAll(g.regs, g.ranks, world, ids, bound)))
  }

  lemma FailsAsNone(g: Setup, worlds: iset<World>, chain: seq<Compiled>, bound: nat)
    requires Validated(g.regs, g.ranks) && forall i | 0 <= i < |chain| :: chain[i].id < |g.regs|
    ensures FailsAsAll(g, worlds, chain, chain, [], bound)
  {
    forall world | world in worlds
      ensures FailsAlike(g, world, chain, chain, FailureOf(EvalAll(g.regs, g.ranks, world, [], bound)))
    {
      EvalNothing(g, world, bound);
      hide FirstFailure, Validated, EvalAll;
    }
  }

  lemma FailsAsKnown(g: Setup, worlds: iset<World>, chain: seq<Compiled>, id: nat)
    requires Validated(g.regs, g.ranks) && forall i | 0 <= i < |chain| :: chain[i].id < |g.regs|
    requires id < |g.regs|
    requires (SingletonsBuilt(g, worlds) && g.regs[id].lifetime.Singleton?) || exists i :: 0 <= i < |chain| && chain[i].id == id
    ensures FailsAsOne(g, worlds, chain, chain, id)
  {
    hide FirstFailure, Validated, Eval;
    forall world | world in worlds
      ensures FailsAlike(g, world, chain, chain, FailureOf(Eval(g.regs, g.ranks, world, id)))
    {
      if !g.regs[id].lifetime.Singleton? || !SingletonsBuilt(g, worlds) {
        var i :| 0 <= i < |chain| && chain[i].id == id;
        if FirstFailure(g, world, chain).None? {
          NoFailureMeansValues(g, world, chain, i);
        }
      }
    }
  }

  lemma FailsAsNext(
      g: Setup, worlds: iset<World>, before: seq<Compiled>, middle: seq<Compiled>, after: seq<Compiled>,
      ids: seq<nat>, bound: nat, k: nat)
    requires Validated(g.regs, g.ranks) && k < |ids| && Below(g.ranks, ids, bound) && Below(g.ranks, ids[..k], bound)
    requires FailsAsAll(g, worlds, before, middle, ids[..k], bound)
    requires ids[k] < |g.regs| && FailsAsOne(g, worlds, middle, after, ids[k])
    ensures Below(g.ranks, ids[..k + 1], bound)
    ensures FailsAsAll(g, worlds, before, after, ids[..k + 1], bound)
  {
    hide FailsAlike, Validated, Eval, EvalAll;
    forall world | world in worlds
      ensures FailsAlike(g, world, before, after, FailureOf(EvalAll(g.regs, g.ranks, world, ids[..k + 1], bound)))
    {
      FailsAlikeNext(g, world, before, middle, after, ids, bound, k);
    }
  }

  lemma FailsAsEntry(g: Setup, worlds: iset<World>, before: seq<Compiled>, chain: seq<Compiled>, entry: Compiled)
    requires Validated(g.regs, g.ranks) && entry.id < |g.regs|
    requires FailsAsAll(g, worlds, before, chain, Targets(g.regs, g.ranks, entry.id), g.ranks[entry.id])
    ensures FailsAsOne(g, worlds, before, chain + [entry], entry.id)
  {
    hide FailsAlike, Eval, EvalAll;
    forall world | world in worlds
      ensures FailsAlike(g, world, before, chain + [entry], FailureOf(Eval(g.regs, g.ranks, world, entry.id)))
    {
      FailsAlikeEntry(g, world, before, chain, entry);
    }
  }

  /** One more dependency. */
  lemma FailsAlikeNext(
      g: Setup, world: World, before: seq<Compiled>, middle: seq<Compiled>, after: seq<Compiled>,
      ids: seq<nat>, bound: nat, k: nat)
    requires Validated(g.regs, g.ranks) && k < |ids| && Below(g.ranks, ids, bound) && Below(g.ranks, ids[..k], bound)
    requires FailsAlike(g, world, before, middle, FailureOf(EvalAll(g.regs, g.ranks, world, ids[..k], bound)))
    requires FailsAlike(g, world, middle, after, FailureOf(Eval(g.regs, g.ranks, world, ids[k])))
    ensures Below(g.ranks, ids[..k + 1], bound)
    ensures FailsAlike(g, world, before, after, FailureOf(EvalAll(g.regs, g.ranks, world, ids[..k + 1], bound)))
  {
    hide Validated, Eval, FirstFailure;
    assert ids[..k + 1][..k] == ids[..k];
  }

  /** The provider itself, after its dependencies. */
  lemma FailsAlikeEntry(g: Setup, world: World, before: seq<Compiled>, chain: seq<Compiled>, entry: Compiled)
    requires Validated(g.regs, g.ranks) && entry.id < |g.regs|
    requires FailsAlike(g, world, before, chain,
                        FailureOf(EvalAll(g.regs, g.ranks, world, Targets(g.regs, g.ranks, entry.id), g.ranks[entry.id])))
    ensures FailsAlike(g, world, before, chain + [entry], FailureOf(Eval(g.regs, g.ranks, world, entry.id)))
  {
    FirstFailureAppend(g, world, chain, entry);
    hide Validated, FirstFailure, EvalAll;
  }

  lemma InputSlots(g: Setup, id: nat, positions: seq<nat>, slots: seq<Slot>)
    requires id < |g.regs| && Located(g.plan, g.regs, id)
    requires positions == if id in g.plan.positions then g.plan.positions[id] else []
    requires |slots| == |positions| && forall k | 0 <= k < |slots| :: slots[k] == RequestSlot(positions[k])
    ensures InputsRead(g.plan, slots, g.regs[id].inputs)
  {
  }

  lemma EntryIsValid(g: Setup, chain: seq<Compiled>, dependencies: seq<Slot>, inputs: seq<Slot>, entry: Compiled)
    requires Validated(g.regs, g.ranks) && entry.id < |g.regs| && !g.regs[entry.id].lifetime.Singleton?
    requires |dependencies| == |g.regs[entry.id].dependencies| && entry.slots == dependencies + inputs
    requires forall k | 0 <= k < |dependencies| ::
               Points(g, chain, dependencies[k], Target(g.regs, g.ranks, entry.id, k))
    requires InputsRead(g.plan, inputs, g.regs[entry.id].inputs)
    ensures EntryValid(g, chain, entry)
  {
    hide Points, Validated;
    assert entry.slots[|dependencies|..] == inputs;
  }

  lemma CoveredTarget(g: Setup, roots: seq<nat>, id: nat, k: nat)
    requires Ready(g, roots) && id < |g.regs| && id in g.covered && !g.regs[id].lifetime.Singleton?
    requires k < |g.regs[id].dependencies|
    ensures Target(g.regs, g.ranks, id, k) in g.covered
  {
    hide Validated, Located, Assigned;
  }

  lemma NewSlotPoints(g: Setup, chain: seq<Compiled>, entry: Compiled)
    requires Validated(g.regs, g.ranks) && EntryValid(g, chain, entry) && |g.singletonSlots| == |g.regs|
    ensures Points(g, chain + [entry], RequestSlot(|g.plan.decoders| + |chain|), entry.id)
  {
    hide Validated;
  }

  /** Where a remembered provider was compiled. */
  ghost predicate CompiledAt(g: Setup, chain: seq<Compiled>, id: nat, slot: nat) {
    && id < |g.regs| && g.regs[id].lifetime.Request?
    && |g.plan.decoders| <= slot < |g.plan.decoders| + |chain|
    && chain[slot - |g.plan.decoders|].id == id
  }

  lemma RememberedAppend(g: Setup, chain: seq<Compiled>, requestSlots: map<nat, nat>, entry: Compiled)
    requires Remembered(g, chain, requestSlots) && entry.id < |g.regs|
    requires g.regs[entry.id].lifetime.Request? ==> entry.id !in requestSlots
    ensures var slot := |g.plan.decoders| + |chain|;
            Remembered(g, chain + [entry],
                       if g.regs[entry.id].lifetime.Request? then requestSlots[entry.id := slot] else requestSlots)
  {
    var longer := chain + [entry];
    assert forall id, slot | CompiledAt(g, chain, id, slot) :: CompiledAt(g, longer, id, slot);
    assert g.regs[entry.id].lifetime.Request? ==> CompiledAt(g, longer, entry.id, |g.plan.decoders| + |chain|);
    hide CompiledAt;
    assert forall i | 0 <= i < |chain| :: longer[i] == chain[i];
  }

  /** Dependencies are not the provider itself, so compiling them does not remember it. */
  lemma StillUnknown(
      g: Setup, before: seq<Compiled>, known: map<nat, nat>, chain: seq<Compiled>, requestSlots: map<nat, nat>, id: nat)
    requires |g.ranks| == |g.regs| && Remembered(g, before, known) && Remembered(g, chain, requestSlots)
    requires before <= chain && id < |g.regs| && (g.regs[id].lifetime.Request? ==> id !in known)
    requires forall i | |before| <= i < |chain| :: g.ranks[chain[i].id] < g.ranks[id]
    ensures g.regs[id].lifetime.Request? ==> id !in requestSlots
  {
    assert forall i | 0 <= i < |before| && g.regs[before[i].id].lifetime.Request? :: before[i].id in known;
    assert forall i | 0 <= i < |before| :: chain[i] == before[i];
    assert id in requestSlots ==> CompiledAt(g, chain, id, requestSlots[id]);
  }

  class OperationCompiler {
    const regs: seq<Registration>
    const singletonSlots: seq<Option<nat>>
    const plan: Plan
    ghost const g: Setup
    ghost const roots: seq<nat>
    ghost const worlds: iset<World>
    var requestSlots: map<nat, nat>
    var chain: seq<Compiled>

    constructor (regs: seq<Registration>, singletonSlots: seq<Option<nat>>, plan: Plan,
                 ghost g: Setup, ghost roots: seq<nat>, ghost worlds: iset<World>)
      requires Ready(g, roots) && SingletonsBuilt(g, worlds)
      requires g.regs == regs && g.singletonSlots == singletonSlots && g.plan == plan
      ensures this.g == g && this.roots == roots && this.worlds == worlds
      ensures Valid() && chain == []
    {
      this.regs, this.singletonSlots, this.plan := regs, singletonSlots, plan;
      this.g, this.roots, this.worlds := g, roots, worlds;
      requestSlots, chain := map[], [];
    }

    ghost predicate Valid()
      reads this
    {
      && g.regs == regs && g.singletonSlots == singletonSlots && g.plan == plan
      && Ready(g, roots) && |g.ranks| == |regs| && SingletonsBuilt(g, worlds)
      && ChainValid(g, chain) && Remembered(g, chain, requestSlots)
      && forall i | 0 <= i < |chain| :: chain[i].id < |regs|
    }

    /** `compile_request_provider`. */
    method Compile(id: nat) returns (result: Result<Slot, CompileError>)
      requires Valid() && id < |regs| && id in g.covered
      modifies this`requestSlots, this`chain
      ensures Valid() && old(chain) <= chain
      ensures result.Ok? && Points(g, chain, result.value, id)
      ensures forall i | |old(chain)| <= i < |chain| :: g.ranks[chain[i].id] <= g.ranks[id]
      ensures FailsAsOne(g, worlds, old(chain), chain, id)
      ensures Exclusive(g, chain, |old(chain)|, Uses(chain[|old(chain)|..]) + multiset{result.value})
      decreases g.ranks[id]
    {
      hide Eval, EvalAll, FirstFailure, EntryValid, Located, Uses;
      if regs[id].lifetime.Singleton? {
        FailsAsKnown(g, worlds, chain, id);
        NothingUsed(g, chain);
        if singletonSlots[id].None? {
          return Err(NoCompiledSlot(id));
        }
        return Ok(SingletonSlot(singletonSlots[id].value));
      }
      if regs[id].lifetime.Request? && id in requestSlots {
        KnownProvider(id);
        NothingUsed(g, chain);
        return Ok(RequestSlot(requestSlots[id]));
      }
      result := CompileNew(id);
    }

    /** A request provider compiled before has failed before, if it fails. */
    lemma KnownProvider(id: nat)
      requires Valid() && id in requestSlots
      ensures id < |g.regs|
      ensures FailsAsOne(g, worlds, chain, chain, id)
    {
      hide ChainValid;
      FailsAsKnown(g, worlds, chain, id);
    }

    method CompileNew(id: nat) returns (result: Result<Slot, CompileError>)
      requires Valid() && id < |regs| && id in g.covered && !regs[id].lifetime.Singleton?
      requires regs[id].lifetime.Request? ==> id !in requestSlots
      modifies this`requestSlots, this`chain
      ensures Valid() && old(chain) <= chain
      ensures result.Ok? && Points(g, chain, result.value, id)
      ensures forall i | |old(chain)| <= i < |chain| :: g.ranks[chain[i].id] <= g.ranks[id]
      ensures FailsAsOne(g, worlds, old(chain), chain, id)
      ensures Exclusive(g, chain, |old(chain)|, Uses(chain[|old(chain)|..]) + multiset{result.value})
      decreases g.ranks[id], 1
    {
      hide Eval, EvalAll, FirstFailure, Located, Uses, Exclusive, FailsAsOne, FailsAsAll, EntryValid, Remembered, ChainValid, Points;
      ghost var before := chain;
      var compiledSlots := CompileDependencies(id);
      match compiledSlots {
        case Err(error) => return Err(error);
        case Ok(dependencies) =>
          var positions := if id in plan.positions then plan.positions[id] else [];
          var inputs := seq(|positions|, k requires 0 <= k < |positions| => RequestSlot(positions[k]));
          InputSlots(g, id, positions, inputs);
          var compiled := CompileProvider(regs, id, dependencies + inputs);
          match compiled {
            case Err(error) => return Err(error);
            case Ok(entry) =>
              EntryIsValid(g, chain, dependencies, inputs, entry);
              FailsAsEntry(g, worlds, before, chain, entry);
              ExclusiveEntry(g, chain, |before|, dependencies, inputs, entry);
              result := Append(entry);
          }
      }
    }

    /** The new provider takes the next slot. */
    method Append(entry: Compiled) returns (result: Result<Slot, CompileError>)
      requires Valid() && entry.id < |regs| == |singletonSlots| && EntryValid(g, chain, entry)
      requires regs[entry.id].lifetime.Request? ==> entry.id !in requestSlots
      modifies this`requestSlots, this`chain
      ensures Valid() && chain == old(chain) + [entry]
      ensures result == Ok(RequestSlot(|plan.decoders| + |old(chain)|))
      ensures Points(g, chain, RequestSlot(|plan.decoders| + |old(chain)|), entry.id)
    {
      hide Validated, Assigned, Covers, Eval, SingletonsBuilt, ChainValid, Remembered, EntryValid, Points;
      NewSlotPoints(g, chain, entry);
      var id := entry.id;
      var slot := |plan.decoders| + |chain|;
      ChainValidAppend(g, chain, entry);
      RememberedAppend(g, chain, requestSlots, entry);
      chain := chain + [entry];
      requestSlots := if regs[id].lifetime.Request? then requestSlots[id := slot] else requestSlots;
      return Ok(RequestSlot(slot));
    }

    method CompileDependencies(id: nat) returns (result: Result<seq<Slot>, CompileError>)
      requires Valid() && id < |regs| && id in g.covered && !regs[id].lifetime.Singleton?
      requires regs[id].lifetime.Request? ==> id !in requestSlots
      modifies this`requestSlots, this`chain
      ensures Valid() && old(chain) <= chain
      ensures result.Ok? && |result.value| == |regs[id].dependencies|
      ensures forall k | 0 <= k < |regs[id].dependencies| ::
                Points(g, chain, result.value[k], Target(g.regs, g.ranks, id, k))
      ensures forall i | |old(chain)| <= i < |chain| :: g.ranks[chain[i].id] < g.ranks[id]
      ensures regs[id].lifetime.Request? ==> id !in requestSlots
      ensures FailsAsAll(g, worlds, old(chain), chain, Targets(g.regs, g.ranks, id), g.ranks[id])
      ensures Exclusive(g, chain, |old(chain)|, Uses(chain[|old(chain)|..]) + multiset(result.value))
      decreases g.ranks[id], 0
    {
      hide Eval, EvalAll, FirstFailure, EntryValid, Points, Uses, Validated, Assigned, Covers, ChainValid, Exclusive, FailsAsOne, FailsAsAll, Remembered;
      ghost var targets := Targets(g.regs, g.ranks, id);
      var slots: seq<Slot> := [];
      FailsAsNone(g, worlds, chain, g.ranks[id]);
      assert targets[..0] == [];
      NothingUsed(g, chain);
      while |slots| < |regs[id].dependencies|
        invariant |slots| <= |regs[id].dependencies|
        invariant Valid() && old(chain) <= chain
        invariant forall k | 0 <= k < |slots| :: Points(g, chain, slots[k], targets[k])
        invariant forall i | |old(chain)| <= i < |chain| :: g.ranks[chain[i].id] < g.ranks[id]
        invariant regs[id].lifetime.Request? ==> id !in requestSlots
        invariant Below(g.ranks, targets[..|slots|], g.ranks[id])
        invariant FailsAsAll(g, worlds, old(chain), chain, targets[..|slots|], g.ranks[id])
        invariant Exclusive(g, chain, |old(chain)|, Uses(chain[|old(chain)|..]) + multiset(slots))
      {
        ghost var middle := chain;
        ghost var target := targets[|slots|];
        assert target == Target(g.regs, g.ranks, id, |slots|);
        CoveredTarget(g, roots, id, |slots|);
        var dependency := regs[id].visible[regs[id].dependencies[|slots|]];
        var compiled := Compile(dependency);
        match compiled {
          case Err(error) => return Err(error);
          case Ok(slot) =>
            FailsAsNext(g, worlds, old(chain), middle, chain, targets, g.ranks[id], |slots|);
            ExclusiveNext(g, |old(chain)|, middle, chain, slots, slot);
            StillUnknown(g, old(chain), old(requestSlots), chain, requestSlots, id);
            forall k | 0 <= k < |slots| ensures Points(g, chain, slots[k], targets[k]) {
              PointsLater(g, middle, chain, slots[k], targets[k]);
            }
            slots := slots + [slot];
        }
      }
      assert targets[..|slots|] == targets;
      return Ok(slots);
    }
  }

  // ----- one operation -----

  datatype CompiledOperation = CompiledOperation(chain: seq<Compiled>, handlerSlots: seq<Slot>)

  /** The providers an operation's dependency requests resolve to, those that resolve. */
  function Roots(scope: map<TypeKey, nat>, requests: seq<TypeKey>): (roots: seq<nat>)
    ensures forall k | 0 <= k < |requests| && requests[k] in scope :: scope[requests[k]] in roots
    ensures forall root | root in roots :: exists k :: 0 <= k < |requests| && requests[k] in scope && scope[requests[k]] == root
    ensures (forall key | key in requests :: key in scope) ==>
              |roots| == |requests| && forall k | 0 <= k < |requests| :: roots[k] == scope[requests[k]]
  {
    if requests == [] then []
    else
      var last := requests[|requests| - 1];
      Roots(scope, requests[..|requests| - 1]) + if last in scope then [scope[last]] else []
  }

  /** Each request provider is compiled once, however many consumers it has. */
  ghost predicate RequestOnce(g: Setup, chain: seq<Compiled>) {
    && (forall i | 0 <= i < |chain| :: chain[i].id < |g.regs|)
    && forall i, j | 0 <= i < j < |chain| && g.regs[chain[i].id].lifetime.Request? :: chain[i].id != chain[j].id
  }

  /** What compiling an operation achieves. */
  ghost predicate CompiledFor(
      g: Setup, worlds: iset<World>, scope: map<TypeKey, nat>, requests: seq<TypeKey>, op: CompiledOperation)
    requires Validated(g.regs, g.ranks)
  {
    && |op.handlerSlots| == |requests|
    && (forall k | 0 <= k < |requests| ::
          requests[k] in scope && Points(g, op.chain, op.handlerSlots[k], scope[requests[k]]))
    && ChainValid(g, op.chain) && RequestOnce(g, op.chain)
    && Exclusive(g, op.chain, 0, Uses(op.chain) + multiset(op.handlerSlots))
    && Below(g.ranks, Roots(scope, requests), Top(g.ranks))
    && FailsAsAll(g, worlds, [], op.chain, Roots(scope, requests), Top(g.ranks))
  }

  /** Above every rank. */
  function Top(ranks: seq<nat>): (top: nat)
    ensures forall i | 0 <= i < |ranks| :: ranks[i] < top
  {
    if ranks == [] then 0
    else
      var below := Top(ranks[..|ranks| - 1]);
      if ranks[|ranks| - 1] < below then below else ranks[|ranks| - 1] + 1
  }

  /**
   `compile_operation_dependencies`: fails exactly when a requested type is not in scope, naming
   the first one.
   */
  method CompileOperation(
      regs: seq<Registration>, singletonSlots: seq<Option<nat>>, plan: Plan, scope: map<TypeKey, nat>,
      requests: seq<TypeKey>, ghost g: Setup, ghost worlds: iset<World>)
      returns (result: Result<CompiledOperation, CompileError>)
    requires Ready(g, Roots(scope, requests)) && SingletonsBuilt(g, worlds)
    requires g.regs == regs && g.singletonSlots == singletonSlots && g.plan == plan
    requires forall key | key in scope :: scope[key] < |regs|
    ensures result.Ok? <==> forall key | key in requests :: key in scope
    ensures result.Err? ==>
              exists k :: && 0 <= k < |requests| && requests[k] !in scope
                          && result.error == MissingForOperation(requests[k])
                          && forall j | 0 <= j < k :: requests[j] in scope
    ensures result.Ok? ==> CompiledFor(g, worlds, scope, requests, result.value)
  {
    hide Eval, EvalAll, FirstFailure, EntryValid, Located, Points, Halfway, CompiledFor, Exclusive, Uses;
    ghost var roots := Roots(scope, requests);
    var compiler := new OperationCompiler(regs, singletonSlots, plan, g, roots, worlds);
    var slots: seq<Slot> := [];
    HalfwayStart(g, worlds, scope, requests);
    while |slots| < |requests|
      invariant |slots| <= |requests|
      invariant forall k | 0 <= k < |slots| :: requests[k] in scope
      invariant compiler.Valid() && compiler.g == g && compiler.worlds == worlds && compiler.roots == roots
      invariant Halfway(g, worlds, scope, requests, compiler.chain, slots)
    {
      var key := requests[|slots|];
      if key !in scope {
        assert key in requests;
        return Err(MissingForOperation(key));
      }
      var id := scope[key];
      assert id in roots && id in g.covered;
      ghost var middle := compiler.chain;
      var compiled := compiler.Compile(id);
      match compiled {
        case Err(error) => return Err(error);
        case Ok(slot) =>
          HalfwayNext(g, worlds, scope, requests, middle, compiler.chain, slots, slot);
          slots := slots + [slot];
      }
    }
    HalfwayEnd(g, worlds, scope, requests, compiler.chain, slots, compiler.requestSlots);
    return Ok(CompiledOperation(compiler.chain, slots));
  }

  /** The first requests have been compiled. */
  ghost predicate Halfway(
      g: Setup, worlds: iset<World>, scope: map<TypeKey, nat>, requests: seq<TypeKey>, chain: seq<Compiled>, slots: seq<Slot>)
    requires Validated(g.regs, g.ranks) && |slots| <= |requests|
    requires forall k | 0 <= k < |slots| :: requests[k] in scope
  {
    var ids := Resolved(scope, requests, |slots|);
    && (forall k | 0 <= k < |slots| :: Points(g, chain, slots[k], ids[k]))
    && Below(g.ranks, ids, Top(g.ranks))
    && FailsAsAll(g, worlds, [], chain, ids, Top(g.ranks))
    && Exclusive(g, chain, 0, Uses(chain) + multiset(slots))
  }

  lemma HalfwayStart(g: Setup, worlds: iset<World>, scope: map<TypeKey, nat>, requests: seq<TypeKey>)
    requires Validated(g.regs, g.ranks)
    ensures Halfway(g, worlds, scope, requests, [], [])
  {
    hide FirstFailure;
    FailsAsNone(g, worlds, [], Top(g.ranks));
    assert Resolved(scope, requests, 0) == [];
  }

  lemma HalfwayNext(
      g: Setup, worlds: iset<World>, scope: map<TypeKey, nat>, requests: seq<TypeKey>,
      middle: seq<Compiled>, chain: seq<Compiled>, slots: seq<Slot>, slot: Slot)
    requires Validated(g.regs, g.ranks) && |slots| < |requests|
    requires forall k | 0 <= k <= |slots| :: requests[k] in scope
    requires Halfway(g, worlds, scope, requests, middle, slots) && middle <= chain
    requires scope[requests[|slots|]] < |g.regs| && Points(g, chain, slot, scope[requests[|slots|]])
    requires FailsAsOne(g, worlds, middle, chain, scope[requests[|slots|]])
    requires Exclusive(g, chain, |middle|, Uses(chain[|middle|..]) + multiset{slot})
    ensures Halfway(g, worlds, scope, requests, chain, slots + [slot])
  {
    hide Eval, EvalAll, FirstFailure, FailsAsOne, FailsAsAll, Points, Exclusive, Uses;
    assert middle[0..] == middle && chain[0..] == chain;
    ExclusiveNext(g, 0, middle, chain, slots, slot);
    var at := |slots|;
    var ids, next := Resolved(scope, requests, at), Resolved(scope, requests, at + 1);
    assert next[..at] == ids && next[..at + 1] == next;
    assert |g.ranks| == |g.regs|;
    hide Validated;
    assert Below(g.ranks, next, Top(g.ranks));
    FailsAsNext(g, worlds, [], middle, chain, next, Top(g.ranks), at);
    forall k | 0 <= k < at ensures Points(g, chain, slots[k], next[k]) {
      PointsLater(g, middle, chain, slots[k], next[k]);
    }
  }

  lemma HalfwayEnd(
      g: Setup, worlds: iset<World>, scope: map<TypeKey, nat>, requests: seq<TypeKey>, chain: seq<Compiled>, slots: seq<Slot>,
      requestSlots: map<nat, nat>)
    requires Validated(g.regs, g.ranks) && |slots| == |requests|
    requires forall k | 0 <= k < |slots| :: requests[k] in scope
    requires Halfway(g, worlds, scope, requests, chain, slots)
    requires ChainValid(g, chain) && Remembered(g, chain, requestSlots)
    ensures CompiledFor(g, worlds, scope, requests, CompiledOperation(chain, slots))
  {
    hide Eval, EvalAll, FirstFailure, FailsAsOne, FailsAsAll, Points, ChainValid, Validated, Exclusive, Uses;
    assert forall key | key in requests :: key in scope;
    assert Resolved(scope, requests, |requests|) == Roots(scope, requests);
  }

  function Resolved(scope: map<TypeKey, nat>, requests: seq<TypeKey>, n: nat): (ids: seq<nat>)
    requires n <= |requests| && forall k | 0 <= k < n :: requests[k] in scope
    ensures |ids| == n && forall k | 0 <= k < n :: ids[k] == scope[requests[k]]
  {
    seq(n, k requires 0 <= k < n => scope[requests[k]])
  }
}
