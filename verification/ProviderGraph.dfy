/**
 Provider registrations and the depth-first validation of the graph they span.
 A provider names its dependencies by type; the scope it was registered in resolves a type to
 the index of a registration.
 */
module ProviderGraph {
  import opened Wrappers

  type TypeKey = nat

  datatype Lifetime = Singleton | Request | Transient

  /** A request input: what identifies it on the wire, and the type it is decoded to. */
  datatype Input = Input(key: nat, valueType: TypeKey)

  datatype Registration = Registration(
    key: TypeKey,
    lifetime: Lifetime,
    dependencies: seq<TypeKey>,
    inputs: seq<Input>,
    visible: map<TypeKey, nat>)

  datatype GraphError =
    | MissingProvider(consumer: nat, dependency: TypeKey)
    | InvalidLifetime(singleton: nat, dependency: TypeKey)
    | ProviderCycle(walk: seq<nat>)

  /** Scopes only hold indices of registrations. */
  predicate Scoped(regs: seq<Registration>) {
    forall id, key | 0 <= id < |regs| && key in regs[id].visible :: regs[id].visible[key] < |regs|
  }

  ghost predicate Edge(regs: seq<Registration>, a: nat, b: nat) {
    && a < |regs|
    && exists k | 0 <= k < |regs[a].dependencies| ::
         regs[a].dependencies[k] in regs[a].visible && regs[a].visible[regs[a].dependencies[k]] == b
  }

  predicate DependencyVisible(reg: Registration, key: TypeKey) {
    key in reg.visible
  }

  predicate LifetimeRespected(regs: seq<Registration>, id: nat, key: TypeKey)
    requires Scoped(regs) && id < |regs| && key in regs[id].visible
  {
    regs[id].lifetime.Singleton? ==> regs[regs[id].visible[key]].lifetime.Singleton?
  }

  /** Every dependency of `id` is visible, and none outlives it the wrong way. */
  predicate LocallySound(regs: seq<Registration>, id: nat)
    requires Scoped(regs) && id < |regs|
  {
    forall key | key in regs[id].dependencies ::
      DependencyVisible(regs[id], key) && LifetimeRespected(regs, id, key)
  }

  /** Consecutive providers are joined by dependency edges. */
  ghost predicate Walk(regs: seq<Registration>, walk: seq<nat>) {
    && (forall i | 0 <= i < |walk| :: walk[i] < |regs|)
    && forall i | 0 <= i < |walk| - 1 :: Edge(regs, walk[i], walk[i + 1])
  }

  ghost predicate ClosedWalk(regs: seq<Registration>, walk: seq<nat>) {
    |walk| >= 2 && walk[0] == walk[|walk| - 1] && Walk(regs, walk)
  }

  /** What validation promises: every dependency visible, no shorter-lived one, no cycle. */
  ghost predicate Sound(regs: seq<Registration>)
    requires Scoped(regs)
  {
    && (forall id | 0 <= id < |regs| :: LocallySound(regs, id))
    && forall walk :: !ClosedWalk(regs, walk)
  }

  /** `ranks` decreases along every edge. */
  ghost predicate RankedBy(regs: seq<Registration>, ranks: seq<nat>) {
    && |ranks| == |regs|
    && forall a, b | 0 <= a < |regs| && 0 <= b < |regs| && Edge(regs, a, b) :: ranks[b] < ranks[a]
  }

  /** The defect an error reports is there. */
  ghost predicate Genuine(regs: seq<Registration>, error: GraphError)
    requires Scoped(regs)
  {
    match error
    case MissingProvider(id, key) =>
      id < |regs| && key in regs[id].dependencies && key !in regs[id].visible
    case InvalidLifetime(id, key) =>
      id < |regs| && key in regs[id].dependencies && key in regs[id].visible && !LifetimeRespected(regs, id, key)
    case ProviderCycle(walk) => ClosedWalk(regs, walk)
  }

  /** An error is only reported for a graph that is not sound. */
  lemma GenuineIsDefect(regs: seq<Registration>, error: GraphError)
    requires Scoped(regs) && Genuine(regs, error)
    ensures !Sound(regs)
  {
    match error
    case MissingProvider(id, key) => assert !LocallySound(regs, id);
    case InvalidLifetime(id, key) => assert !LocallySound(regs, id);
    case ProviderCycle(walk) => assert ClosedWalk(regs, walk);
  }

  lemma {:induction false} RanksDropAlongWalk(regs: seq<Registration>, ranks: seq<nat>, walk: seq<nat>, i: nat, j: nat)
    requires RankedBy(regs, ranks) && Walk(regs, walk) && i < j < |walk|
    ensures ranks[walk[j]] < ranks[walk[i]]
    decreases j
  {
    assert Edge(regs, walk[j - 1], walk[j - 1 + 1]);
    if i < j - 1 {
      RanksDropAlongWalk(regs, ranks, walk, i, j - 1);
    }
  }

  lemma RankedHasNoCycle(regs: seq<Registration>, ranks: seq<nat>, walk: seq<nat>)
    requires RankedBy(regs, ranks)
    ensures !ClosedWalk(regs, walk)
  {
    if |walk| >= 2 && Walk(regs, walk) {
      RanksDropAlongWalk(regs, ranks, walk, 0, |walk| - 1);
    }
  }

  datatype Mark = Unvisited | Active | Done

  /** The stack holds the active providers, each depending on the next. */
  ghost predicate StackValid(regs: seq<Registration>, states: seq<Mark>, stack: seq<nat>) {
    && |states| == |regs|
    && (forall x | 0 <= x < |regs| :: states[x].Active? <==> x in stack)
    && (forall i, j | 0 <= i < j < |stack| :: stack[i] != stack[j])
    && Walk(regs, stack)
  }

  /** Finished providers are sound, depend on finished ones only, and outrank those. */
  ghost predicate DoneValid(regs: seq<Registration>, states: seq<Mark>, ranks: seq<nat>, clock: nat)
    requires Scoped(regs)
  {
    && |states| == |ranks| == |regs|
    && (forall x | 0 <= x < |regs| && states[x].Done? :: LocallySound(regs, x) && ranks[x] < clock)
    && forall x, y | 0 <= x < |regs| && 0 <= y < |regs| && states[x].Done? && Edge(regs, x, y) ::
         states[y].Done? && ranks[y] < ranks[x]
  }

  /** Nothing finished is forgotten, and whoever was active still is. */
  ghost predicate Progressed(before: seq<Mark>, after: seq<Mark>) {
    && |before| == |after|
    && (forall x | 0 <= x < |after| && before[x].Done? :: after[x].Done?)
    && (forall x | 0 <= x < |after| :: before[x].Active? <==> after[x].Active?)
  }

  lemma EnterKeeps(regs: seq<Registration>, states: seq<Mark>, stack: seq<nat>, ranks: seq<nat>, clock: nat, id: nat)
    requires Scoped(regs) && StackValid(regs, states, stack) && DoneValid(regs, states, ranks, clock)
    requires id < |regs| && states[id].Unvisited?
    requires stack != [] ==> Edge(regs, stack[|stack| - 1], id)
    ensures StackValid(regs, states[id := Active], stack + [id])
    ensures DoneValid(regs, states[id := Active], ranks, clock)
  {
    hide Edge, LocallySound;
    var entered := stack + [id];
    assert forall i | 0 <= i < |stack| :: entered[i] == stack[i] && stack[i] in stack;
  }

  lemma FinishKeeps(regs: seq<Registration>, states: seq<Mark>, stack: seq<nat>, ranks: seq<nat>, clock: nat, id: nat)
    requires Scoped(regs) && StackValid(regs, states, stack + [id]) && DoneValid(regs, states, ranks, clock)
    requires id < |regs| && LocallySound(regs, id)
    requires forall key | key in regs[id].dependencies :: key in regs[id].visible && states[regs[id].visible[key]].Done?
    ensures StackValid(regs, states[id := Done], stack)
    ensures DoneValid(regs, states[id := Done], ranks[id := clock], clock + 1)
  {
    hide LocallySound;
    var entered := stack + [id];
    assert entered[|stack|] == id && id in entered;
    assert forall i | 0 <= i < |stack| :: entered[i] == stack[i];
    FinishDone(regs, states, ranks, clock, id);
    hide Edge;
    assert forall x | 0 <= x < |regs| && x != id :: x in stack <==> x in entered;
    assert forall i | 0 <= i < |stack| - 1 :: Edge(regs, entered[i], entered[i + 1]);
  }

  lemma FinishDone(regs: seq<Registration>, states: seq<Mark>, ranks: seq<nat>, clock: nat, id: nat)
    requires Scoped(regs) && DoneValid(regs, states, ranks, clock)
    requires id < |regs| && LocallySound(regs, id) && states[id].Active?
    requires forall key | key in regs[id].dependencies :: key in regs[id].visible && states[regs[id].visible[key]].Done?
    ensures DoneValid(regs, states[id := Done], ranks[id := clock], clock + 1)
  {
    hide LocallySound;
    forall y | 0 <= y < |regs| && Edge(regs, id, y) ensures states[y].Done? {
      var k :| 0 <= k < |regs[id].dependencies|
               && regs[id].dependencies[k] in regs[id].visible && regs[id].visible[regs[id].dependencies[k]] == y;
      assert regs[id].dependencies[k] in regs[id].dependencies;
    }
    hide Edge;
  }

  lemma CycleIsClosed(regs: seq<Registration>, states: seq<Mark>, stack: seq<nat>, start: nat)
    requires StackValid(regs, states, stack) && start < |stack|
    requires Edge(regs, stack[|stack| - 1], stack[start])
    ensures ClosedWalk(regs, stack[start..] + [stack[start]])
  {
    hide Edge;
    var walk := stack[start..] + [stack[start]];
    forall i | 0 <= i < |walk| - 1 ensures Edge(regs, walk[i], walk[i + 1]) {
      if i < |walk| - 2 {
        assert Edge(regs, stack[start + i], stack[start + i + 1]);
      }
    }
  }

  // ----- which error is reported -----

  /** No walk from the provider meets a provider with a local defect, or one it has been to. */
  ghost predicate Clean(regs: seq<Registration>, id: nat)
    requires Scoped(regs)
  {
    id < |regs| && forall walk | Walk(regs, walk) && walk != [] && walk[0] == id :: CleanWalk(regs, walk)
  }

  ghost predicate CleanWalk(regs: seq<Registration>, walk: seq<nat>)
    requires Scoped(regs) && Walk(regs, walk) && walk != []
  {
    LocallySound(regs, walk[|walk| - 1]) && forall i, j | 0 <= i < j < |walk| :: walk[i] != walk[j]
  }

  /** Dependency `k` of a provider is visible, long-lived enough and leads to `target`. */
  predicate Leads(regs: seq<Registration>, id: nat, k: nat, target: nat)
    requires Scoped(regs)
  {
    && id < |regs| && k < |regs[id].dependencies| && regs[id].dependencies[k] in regs[id].visible
    && LifetimeRespected(regs, id, regs[id].dependencies[k]) && regs[id].visible[regs[id].dependencies[k]] == target
  }

  /** Dependency `k` of a provider has nothing wrong with it or below it. */
  ghost predicate FineAt(regs: seq<Registration>, id: nat, k: nat)
    requires Scoped(regs)
  {
    exists target :: Leads(regs, id, k, target) && Clean(regs, target)
  }

  ghost predicate FineBefore(regs: seq<Registration>, id: nat, n: nat)
    requires Scoped(regs)
  {
    id < |regs| && forall k: nat | k < n :: FineAt(regs, id, k)
  }

  /** `to` is what the first dependency of `from` that is not fine leads to. */
  ghost predicate Descent(regs: seq<Registration>, from: nat, to: nat)
    requires Scoped(regs)
  {
    exists k: nat :: FineBefore(regs, from, k) && Leads(regs, from, k, to)
  }

  ghost predicate Descends(regs: seq<Registration>, path: seq<nat>)
    requires Scoped(regs)
  {
    && (forall i, j | 0 <= i < j < |path| :: path[i] != path[j])
    && forall i | 0 <= i < |path| - 1 :: Descent(regs, path[i], path[i + 1])
  }

  /** The first dependency of the path's end that is not fine is itself at fault. */
  ghost predicate FaultAt(regs: seq<Registration>, path: seq<nat>, k: nat, error: GraphError)
    requires Scoped(regs) && path != []
  {
    var id := path[|path| - 1];
    && FineBefore(regs, id, k) && k < |regs[id].dependencies|
    && match error
       case MissingProvider(consumer, key) =>
         consumer == id && key == regs[id].dependencies[k] && key !in regs[id].visible
       case InvalidLifetime(singleton, key) =>
         && singleton == id && key == regs[id].dependencies[k] && key in regs[id].visible
         && !LifetimeRespected(regs, id, key)
       case ProviderCycle(walk) =>
         exists j | 0 <= j < |path| :: Leads(regs, id, k, path[j]) && walk == path[j..] + [path[j]]
  }

  /**
   The error is found first in registration order and, from there on, first in the order of dependencies:
   what comes earlier is clean.
   */
  ghost predicate FirstFault(regs: seq<Registration>, path: seq<nat>, error: GraphError)
    requires Scoped(regs)
  {
    && path != [] && Descends(regs, path) && (forall x: nat | x < path[0] :: Clean(regs, x))
    && exists k: nat :: FaultAt(regs, path, k, error)
  }

  lemma {:induction false} DoneWalk(
      regs: seq<Registration>, states: seq<Mark>, ranks: seq<nat>, clock: nat, walk: seq<nat>, i: nat, j: nat)
    requires Scoped(regs) && DoneValid(regs, states, ranks, clock)
    requires Walk(regs, walk) && walk != [] && states[walk[0]].Done? && i <= j < |walk|
    ensures states[walk[j]].Done? && (i < j ==> ranks[walk[j]] < ranks[walk[i]])
    decreases j
  {
    hide Edge, LocallySound;
    if j > 0 {
      DoneWalk(regs, states, ranks, clock, walk, if i < j then i else j - 1, j - 1);
      assert Edge(regs, walk[j - 1], walk[j - 1 + 1]);
    }
  }

  /** Finished providers are clean. */
  lemma DoneClean(regs: seq<Registration>, states: seq<Mark>, ranks: seq<nat>, clock: nat, id: nat)
    requires Scoped(regs) && DoneValid(regs, states, ranks, clock) && id < |regs| && states[id].Done?
    ensures Clean(regs, id)
  {
    hide Edge, LocallySound, Walk;
    forall walk | Walk(regs, walk) && walk != [] && walk[0] == id ensures CleanWalk(regs, walk) {
      WalkInside(regs, walk);
      DoneWalk(regs, states, ranks, clock, walk, |walk| - 1, |walk| - 1);
      forall i, j | 0 <= i < j < |walk| ensures walk[i] != walk[j] {
        DoneWalk(regs, states, ranks, clock, walk, i, j);
      }
    }
  }

  lemma WalkInside(regs: seq<Registration>, walk: seq<nat>)
    requires Walk(regs, walk)
    ensures forall i | 0 <= i < |walk| :: walk[i] < |regs|
  {
  }

  /** Everything on the way to a fault is not clean. */
  lemma UncleanPath(regs: seq<Registration>, path: seq<nat>, k: nat, error: GraphError, i: nat)
    requires Scoped(regs) && path != [] && Descends(regs, path) && FaultAt(regs, path, k, error) && i < |path|
    ensures !Clean(regs, path[i])
  {
    PathWalks(regs, path, path[|path| - 1]);
    var id := path[|path| - 1];
    assert id < |regs|;
    if error.ProviderCycle? {
      var j :| 0 <= j < |path| && Leads(regs, id, k, path[j]);
      BackToPath(regs, path, i, j, k);
    } else {
      var walk := path[i..];
      WalkPart(regs, path, i, |path|);
      assert walk[|walk| - 1] == id;
      assert regs[id].dependencies[k] in regs[id].dependencies;
      assert !CleanWalk(regs, walk);
    }
  }

  lemma BackToPath(regs: seq<Registration>, path: seq<nat>, i: nat, j: nat, k: nat)
    requires Scoped(regs) && Walk(regs, path) && i < |path| && j < |path|
    requires Leads(regs, path[|path| - 1], k, path[j])
    ensures !Clean(regs, path[i])
  {
    var m := if j < i then i else j;
    var first, second := path[i..], path[j..m + 1];
    WalkPart(regs, path, i, |path|);
    WalkPart(regs, path, j, m + 1);
    assert Edge(regs, first[|first| - 1], second[0]);
    hide Edge, Leads, Walk, LocallySound;
    WalksJoin(regs, first, second);
    var walk := first + second;
    assert walk[m - i] == first[m - i] == path[m];
    assert walk[|walk| - 1] == second[|second| - 1] == path[m];
    assert !CleanWalk(regs, walk);
  }

  lemma WalksJoin(regs: seq<Registration>, first: seq<nat>, second: seq<nat>)
    requires Walk(regs, first) && Walk(regs, second) && first != [] && second != []
    requires Edge(regs, first[|first| - 1], second[0])
    ensures Walk(regs, first + second)
  {
    hide Edge;
    var walk := first + second;
    forall n | 0 <= n < |walk| - 1 ensures Edge(regs, walk[n], walk[n + 1]) {
      assert n < |first| - 1 ==> Edge(regs, first[n], first[n + 1]);
      assert n >= |first| ==> Edge(regs, second[n - |first|], second[n - |first| + 1]);
    }
  }

  lemma WalkPart(regs: seq<Registration>, walk: seq<nat>, from: nat, to: nat)
    requires Walk(regs, walk) && from <= to <= |walk|
    ensures Walk(regs, walk[from..to])
  {
    hide Edge;
    var part := walk[from..to];
    forall i | 0 <= i < |part| - 1 ensures Edge(regs, part[i], part[i + 1]) {
      assert Edge(regs, walk[from + i], walk[from + i + 1]);
    }
  }

  lemma PathWalks(regs: seq<Registration>, path: seq<nat>, last: nat)
    requires Scoped(regs) && path != [] && Descends(regs, path) && last == path[|path| - 1] && last < |regs|
    ensures Walk(regs, path)
  {
    forall i | 0 <= i < |path| - 1 ensures path[i] < |regs| && Edge(regs, path[i], path[i + 1]) {
      assert Descent(regs, path[i], path[i + 1]);
    }
  }

  /** The index of the first dependency that is not fine; there is only one. */
  ghost predicate FirstBad(regs: seq<Registration>, id: nat, k: nat)
    requires Scoped(regs)
  {
    FineBefore(regs, id, k) && !FineAt(regs, id, k)
  }

  lemma OneBad(regs: seq<Registration>, id: nat, j: nat, k: nat)
    requires Scoped(regs) && FirstBad(regs, id, j) && FirstBad(regs, id, k)
    ensures j == k
  {
    hide FineAt;
  }

  /** On the way down every turn is at the first bad dependency, and the fault is too. */
  lemma TurnIsBad(regs: seq<Registration>, path: seq<nat>, k: nat, error: GraphError, i: nat) returns (turn: nat)
    requires Scoped(regs) && path != [] && Descends(regs, path) && FaultAt(regs, path, k, error) && i < |path|
    ensures FirstBad(regs, path[i], turn)
    ensures if i < |path| - 1 then Leads(regs, path[i], turn, path[i + 1]) else turn == k
  {
    if i < |path| - 1 {
      assert Descent(regs, path[i], path[i + 1]);
      turn :| FineBefore(regs, path[i], turn) && Leads(regs, path[i], turn, path[i + 1]);
      UncleanPath(regs, path, k, error, i + 1);
      hide Clean;
    } else {
      turn := k;
      if error.ProviderCycle? {
        var j :| 0 <= j < |path| && Leads(regs, path[i], k, path[j]);
        UncleanPath(regs, path, k, error, j);
        hide Clean;
      }
    }
  }

  lemma {:induction false} SamePath(
      regs: seq<Registration>, p: seq<nat>, j: nat, e: GraphError, q: seq<nat>, k: nat, f: GraphError, n: nat)
    requires Scoped(regs) && p != [] && q != [] && Descends(regs, p) && Descends(regs, q) && p[0] == q[0]
    requires FaultAt(regs, p, j, e) && FaultAt(regs, q, k, f)
    requires n < |p| && n < |q|
    ensures forall i | 0 <= i <= n :: p[i] == q[i]
  {
    if n > 0 {
      SamePath(regs, p, j, e, q, k, f, n - 1);
      var a := TurnIsBad(regs, p, j, e, n - 1);
      var b := TurnIsBad(regs, q, k, f, n - 1);
      OneBad(regs, p[n - 1], a, b);
    }
  }

  lemma NotShorter(
      regs: seq<Registration>, p: seq<nat>, j: nat, e: GraphError, q: seq<nat>, k: nat, f: GraphError)
    requires Scoped(regs) && p != [] && q != [] && Descends(regs, p) && Descends(regs, q) && p[0] == q[0]
    requires FaultAt(regs, p, j, e) && FaultAt(regs, q, k, f)
    ensures |p| >= |q|
  {
    var n := |p| - 1;
    if |p| < |q| {
      SamePath(regs, p, j, e, q, k, f, n);
      var a := TurnIsBad(regs, p, j, e, n);
      var b := TurnIsBad(regs, q, k, f, n);
      OneBad(regs, p[n], a, b);
    }
  }

  /** There is one first fault, so which error is reported is determined by the registrations. */
  lemma OneFault(regs: seq<Registration>, p: seq<nat>, e: GraphError, q: seq<nat>, f: GraphError)
    requires Scoped(regs) && FirstFault(regs, p, e) && FirstFault(regs, q, f)
    ensures p == q && e == f
  {
    var j: nat :| FaultAt(regs, p, j, e);
    var k: nat :| FaultAt(regs, q, k, f);
    UncleanPath(regs, p, j, e, 0);
    UncleanPath(regs, q, k, f, 0);
    hide Clean;
    assert p[0] == q[0];
    NotShorter(regs, p, j, e, q, k, f);
    NotShorter(regs, q, k, f, p, j, e);
    SamePath(regs, p, j, e, q, k, f, |p| - 1);
    assert p == q;
    var a := TurnIsBad(regs, p, j, e, |p| - 1);
    var b := TurnIsBad(regs, q, k, f, |q| - 1);
    OneBad(regs, p[|p| - 1], a, b);
    hide FineBefore, Descends;
  }

  lemma DescendsOne(regs: seq<Registration>, path: seq<nat>, id: nat)
    requires Scoped(regs) && Descends(regs, path) && id !in path
    requires path != [] ==> Descent(regs, path[|path| - 1], id)
    ensures Descends(regs, path + [id])
  {
    hide Descent;
    var longer := path + [id];
    forall i | 0 <= i < |longer| - 1 ensures Descent(regs, longer[i], longer[i + 1]) {
      assert i < |path| - 1 ==> Descent(regs, path[i], path[i + 1]);
    }
    assert forall i | 0 <= i < |path| :: longer[i] == path[i] && path[i] in path;
  }

  lemma CycleIsFault(regs: seq<Registration>, path: seq<nat>, id: nat, start: nat)
    requires Scoped(regs) && path != [] && Descent(regs, path[|path| - 1], id)
    requires start < |path| && path[start] == id
    ensures exists k: nat :: FaultAt(regs, path, k, ProviderCycle(path[start..] + [id]))
  {
    hide FineBefore, Leads;
    var k: nat :| FineBefore(regs, path[|path| - 1], k) && Leads(regs, path[|path| - 1], k, id);
    LeadsInside(regs, path[|path| - 1], k, id);
    assert FaultAt(regs, path, k, ProviderCycle(path[start..] + [id]));
  }

  lemma LeadsInside(regs: seq<Registration>, id: nat, k: nat, target: nat)
    requires Scoped(regs) && Leads(regs, id, k, target)
    ensures id < |regs| && k < |regs[id].dependencies|
  {
  }

  /** The `states` and `stack` that `validate_provider` carries through its recursion. */
  class Validator {
    const regs: seq<Registration>
    var states: seq<Mark>
    var stack: seq<nat>
    ghost var ranks: seq<nat>
    ghost var clock: nat

    constructor (regs: seq<Registration>)
      requires Scoped(regs)
      ensures this.regs == regs && Valid() && stack == []
    {
      this.regs := regs;
      states, stack := seq(|regs|, _ => Unvisited), [];
      ranks, clock := seq(|regs|, _ => 0), 0;
    }

    ghost predicate Valid()
      reads this
    {
      Scoped(regs) && |states| == |ranks| == |regs| && StackValid(regs, states, stack) && DoneValid(regs, states, ranks, clock)
    }

    ghost function Fresh(): set<nat>
      reads this
    {
      set x | 0 <= x < |states| && states[x].Unvisited?
    }

    /** The stack from the first occurrence of an active provider on, closed by that provider. */
    method CycleFrom(id: nat) returns (walk: seq<nat>)
      requires Valid() && id < |regs| && states[id].Active?
      requires stack != [] ==> Edge(regs, stack[|stack| - 1], id)
      ensures ClosedWalk(regs, walk) && walk[0] == id
      ensures exists start | 0 <= start < |stack| :: stack[start] == id && walk == stack[start..] + [id]
    {
      hide Edge, DoneValid, ClosedWalk;
      var start: nat := 0;
      while stack[start] != id
        invariant 0 <= start < |stack|
        invariant exists k :: start <= k < |stack| && stack[k] == id
        decreases |stack| - start
      {
        start := start + 1;
      }
      CycleIsClosed(regs, states, stack, start);
      walk := stack[start..] + [id];
    }

    /** Mark the provider active and push it. */
    method Enter(id: nat)
      requires Valid() && id < |regs| && states[id].Unvisited?
      requires stack != [] ==> Edge(regs, stack[|stack| - 1], id)
      modifies this
      ensures Valid() && states == old(states)[id := Active] && stack == old(stack) + [id]
      ensures id !in Fresh() && Fresh() + {id} == old(Fresh())
    {
      EnterKeeps(regs, states, stack, ranks, clock, id);
      hide Edge, DoneValid, StackValid;
      ghost var before := Fresh();
      states, stack := states[id := Active], stack + [id];
      assert id in before && id !in Fresh() && Fresh() + {id} == before;
    }

    /** Pop the provider and mark it done, with a rank above all earlier ones. */
    method Leave(id: nat)
      requires Valid() && id < |regs| && LocallySound(regs, id)
      requires stack != [] && stack[|stack| - 1] == id
      requires forall key | key in regs[id].dependencies ::
                 key in regs[id].visible && states[regs[id].visible[key]].Done?
      modifies this
      ensures Valid() && states == old(states)[id := Done] && stack == old(stack)[..|old(stack)| - 1]
      ensures Fresh() <= old(Fresh())
    {
      hide Edge, DoneValid, StackValid, LocallySound;
      assert stack == stack[..|stack| - 1] + [id];
      FinishKeeps(regs, states, stack[..|stack| - 1], ranks, clock, id);
      stack := stack[..|stack| - 1];
      states := states[id := Done];
      ranks, clock := ranks[id := clock], clock + 1;
    }

    method Visit(id: nat) returns (result: Result<(), GraphError>)
      requires Valid() && id < |regs|
      requires stack != [] ==> Edge(regs, stack[|stack| - 1], id) && Descent(regs, stack[|stack| - 1], id)
      requires Descends(regs, stack) && forall x: nat | x < (stack + [id])[0] :: Clean(regs, x)
      modifies this
      ensures result.Ok? ==>
                && Valid() && states[id].Done? && stack == old(stack)
                && Progressed(old(states), states) && Fresh() <= old(Fresh())
      ensures result.Err? ==> Scoped(regs) && Genuine(regs, result.error)
      ensures result.Err? ==> exists path :: FirstFault(regs, path, result.error)
      decreases Fresh()
    {
      hide Edge, DoneValid, StackValid, LocallySound, LifetimeRespected, ClosedWalk, Clean, Descent, Descends, FaultAt;
      if states[id].Done? {
        return Ok(());
      }
      if states[id].Active? {
        var walk := CycleFrom(id);
        assert FirstFault(regs, stack, ProviderCycle(walk)) by {
          var start: nat :| start < |stack| && stack[start] == id && walk == stack[start..] + [id];
          CycleIsFault(regs, stack, id, start);
        }
        return Err(ProviderCycle(walk));
      }
      NotOnStack(id);
      DescendsOne(regs, stack, id);
      Enter(id);
      result := VisitDependencies(id);
      if result.Ok? {
        Leave(id);
      }
    }

    lemma NotOnStack(id: nat)
      requires Valid() && id < |regs| && !states[id].Active?
      ensures id !in stack
    {
      hide DoneValid;
    }

    lemma FinishedIsClean(id: nat)
      requires Valid() && id < |regs| && states[id].Done?
      ensures Clean(regs, id)
    {
      DoneClean(regs, states, ranks, clock, id);
    }

    /** The loop over one provider's dependencies. */
    method VisitDependencies(id: nat) returns (result: Result<(), GraphError>)
      requires Valid() && id < |regs|
      requires stack != [] && stack[|stack| - 1] == id && states[id].Active?
      requires Descends(regs, stack) && forall x: nat | x < stack[0] :: Clean(regs, x)
      modifies this
      ensures result.Ok? ==>
                && Valid() && stack == old(stack)
                && Progressed(old(states), states) && Fresh() <= old(Fresh())
                && LocallySound(regs, id)
                && forall key | key in regs[id].dependencies ::
                     key in regs[id].visible && states[regs[id].visible[key]].Done?
      ensures result.Err? ==> Scoped(regs) && Genuine(regs, result.error)
      ensures result.Err? ==> exists path :: FirstFault(regs, path, result.error)
      decreases Fresh() + {id}, 0
    {
      hide DoneValid, StackValid, ClosedWalk, Clean, Descends;
      var at := 0;
      var dependencies := regs[id].dependencies;
      while at < |dependencies|
        invariant 0 <= at <= |dependencies|
        invariant Valid() && stack == old(stack)
        invariant Progressed(old(states), states) && Fresh() <= old(Fresh())
        invariant forall k | 0 <= k < at ::
            && dependencies[k] in regs[id].visible
            && LifetimeRespected(regs, id, dependencies[k])
            && states[regs[id].visible[dependencies[k]]].Done?
        invariant FineBefore(regs, id, at)
      {
        var key := dependencies[at];
        if key !in regs[id].visible {
          assert FaultAt(regs, stack, at, MissingProvider(id, key));
          assert FirstFault(regs, stack, MissingProvider(id, key));
          return Err(MissingProvider(id, key));
        }
        var target := regs[id].visible[key];
        if regs[id].lifetime.Singleton? && !regs[target].lifetime.Singleton? {
          assert FaultAt(regs, stack, at, InvalidLifetime(id, key));
          assert FirstFault(regs, stack, InvalidLifetime(id, key));
          return Err(InvalidLifetime(id, key));
        }
        assert Leads(regs, id, at, target) && Descent(regs, id, target);
        assert id !in Fresh();
        result := Visit(target);
        if result.Err? {
          return;
        }
        FinishedIsClean(target);
        assert FineAt(regs, id, at);
        at := at + 1;
      }
      return Ok(());
    }
  }

  /** `validate_provider_graph`: accepts exactly the sound graphs, and never invents a defect. */
  method Validate(regs: seq<Registration>) returns (result: Result<(), GraphError>, ghost ranks: seq<nat>)
    requires Scoped(regs)
    ensures result.Ok? <==> Sound(regs)
    ensures result.Ok? ==> RankedBy(regs, ranks)
    ensures result.Err? ==> Genuine(regs, result.error)
    ensures result.Err? ==> exists path :: FirstFault(regs, path, result.error)
  {
    hide FirstFault, Clean;
    var validator := new Validator(regs);
    var id := 0;
    while id < |regs|
      invariant 0 <= id <= |regs|
      invariant validator.Valid() && validator.regs == regs && validator.stack == []
      invariant forall x | 0 <= x < id :: validator.states[x].Done?
    {
      forall x: nat | x < id ensures Clean(regs, x) {
        validator.FinishedIsClean(x);
      }
      result := validator.Visit(id);
      if result.Err? {
        GenuineIsDefect(regs, result.error);
        ranks := [];
        return;
      }
      id := id + 1;
    }
    ranks := validator.ranks;
    forall walk ensures !ClosedWalk(regs, walk) {
      RankedHasNoCycle(regs, ranks, walk);
    }
    result := Ok(());
  }
}
