/**
 From a plugin tree to the answers of its operations: the application builder from end to end.
 */
module ApplicationBuilder {
  import opened Wrappers
  import opened Bytes
  import opened Outcomes
  import opened Hooks
  import opened ProviderGraph
  import opened DependencyMeaning
  import opened SlotCompiler
  import opened ProviderChain
  import opened Injection
  import opened Pipeline
  import opened Mounts
  import opened PluginScopes
  import opened Application

  datatype AppError = InPlugins(plugins: CollectError) | InOperations(build: BuildError)

  /** The builds of an application's operations, in the order the operations were collected. */
  datatype App = App(collected: Collected, builds: seq<Build>)

  /** What the builder checks of collected plugins. */
  ghost predicate Buildable(app: Collected, ranks: seq<nat>, world: World)
    requires Scoped(app.registrations)
  {
    var regs := app.registrations;
    && Sound(regs) && Validated(regs, ranks) && SingletonsHaveValues(regs, ranks, world)
    && forall k | 0 <= k < |app.operations| :: Compilable(regs, app.operations[k].visible, app.operations[k].requests)
  }

  ghost predicate BuiltAt(app: Collected, ranks: seq<nat>, world: World, k: nat, b: Build, covered: set<nat>) {
    k < |app.operations|
    && BuiltFor(app.registrations, ranks, world, app.operations[k].visible, app.operations[k].requests, b, covered)
  }

  /** The plugins are collectable, and the error is of their graph, a singleton or the first operation that fails. */
  ghost predicate ExplainsApplication(app: Collected, ranks: seq<nat>, world: World, error: BuildError)
    requires Scoped(app.registrations) && (Sound(app.registrations) ==> Validated(app.registrations, ranks))
  {
    var regs, operations := app.registrations, app.operations;
    || ExplainsProviders(regs, ranks, world, error)
    || (&& Sound(regs) && SingletonsHaveValues(regs, ranks, world)
        && exists k | 0 <= k < |operations| ::
             && ExplainsOperation(regs, operations[k].visible, operations[k].requests, error)
             && forall j | 0 <= j < k :: Compilable(regs, operations[j].visible, operations[j].requests))
  }

  /**
   `from_plugin`, up to the definition checks: succeeds if and only if every plugin can be collected,
   the provider graph is sound, every singleton has a value and every operation compiles; singletons
   are built once, for all of them.
   */
  method BuildApplication(root: Plugin, validId: bytes -> bool, world: World)
      returns (result: Result<App, AppError>, ghost app: Collected, ghost ranks: seq<nat>, ghost covered: seq<set<nat>>)
    ensures result.Err? && result.error.InPlugins? <==> !Collectable(root, UNMOUNTED, validId)
    ensures Collectable(root, UNMOUNTED, validId) ==>
              CollectedFrom(root, app) && (result.Ok? <==> Buildable(app, ranks, world))
    ensures result.Err? && result.error.InPlugins? ==> Some(result.error.plugins) == Defect(root, UNMOUNTED, validId)
    ensures result.Err? && result.error.InOperations? ==>
              && Scoped(app.registrations) && (Sound(app.registrations) ==> Validated(app.registrations, ranks))
              && ExplainsApplication(app, ranks, world, result.error.build)
    ensures result.Ok? ==>
              && result.value.collected == app && |result.value.builds| == |app.operations| == |covered|
              && (forall k | 0 <= k < |app.operations| :: BuiltAt(app, ranks, world, k, result.value.builds[k], covered[k]))
              && forall j, k | 0 <= j < |app.operations| && 0 <= k < |app.operations| ::
                   result.value.builds[j].singletons == result.value.builds[k].singletons
  {
    hide Collectable, Sound, Validated, SingletonsHaveValues, Compilable, BuiltFor, SingletonsStored;
    hide RegisteredTree, ScopedTree, Lifecycle, Eval, Defect, ExplainsProviders, ExplainsOperation;
    ranks, covered := [], [];
    var collected := CollectApplication(root, validId);
    if collected.Err? {
      app := Collected([], [], [], []);
      return Err(InPlugins(collected.error)), app, ranks, covered;
    }
    var regs, operations := collected.value.registrations, collected.value.operations;
    app := collected.value;
    var providers;
    providers, ranks := BuildProviders(regs, world);
    if providers.Err? {
      return Err(InOperations(providers.error)), app, ranks, covered;
    }
    var (values, slots) := providers.value;
    var builds: seq<Build> := [];
    while |builds| < |operations|
      invariant |builds| == |covered| <= |operations|
      invariant forall k | 0 <= k < |builds| :: BuiltAt(app, ranks, world, k, builds[k], covered[k])
      invariant forall k | 0 <= k < |builds| ::
                  builds[k].singletons == values && Compilable(regs, operations[k].visible, operations[k].requests)
    {
      var k := |builds|;
      assert Bounded(operations[k].visible, |regs|);
      var built;
      ghost var reached;
      built, reached := BuildScoped(regs, ranks, world, values, slots, operations[k].visible, operations[k].requests);
      if built.Err? {
        return Err(InOperations(built.error)), app, ranks, covered;
      }
      builds, covered := builds + [built.value], covered + [reached];
    }
    return Ok(App(collected.value, builds)), app, ranks, covered;
  }

  // ----- what an operation of the tree answers -----

  /** The registrations that requests resolve to in nested frames. */
  function NearestIds(frames: seq<Frame>, requests: seq<TypeKey>): (ids: seq<nat>)
    requires forall j | 0 <= j < |requests| :: Nearest(frames, requests[j]).Some?
    ensures |ids| == |requests| && forall j | 0 <= j < |requests| :: ids[j] == Nearest(frames, requests[j]).value
  {
    seq(|requests|, j requires 0 <= j < |requests| => Nearest(frames, requests[j]).value)
  }

  lemma RootsAreNearest(visible: map<TypeKey, nat>, frames: seq<Frame>, requests: seq<TypeKey>)
    requires Resolves(visible, frames) && forall key | key in requests :: key in visible
    ensures forall j | 0 <= j < |requests| :: Nearest(frames, requests[j]).Some?
    ensures Roots(visible, requests) == NearestIds(frames, requests)
  {
    hide Nearest;
    forall j | 0 <= j < |requests|
      ensures Nearest(frames, requests[j]).Some? && Nearest(frames, requests[j]).value == visible[requests[j]]
    {
      assert requests[j] in requests;
    }
  }

  /** The operation at an address, and what its requests resolve to. */
  lemma OperationRoots(root: Plugin, app: Collected, address: seq<nat>, i: nat)
    requires CollectedFrom(root, app) && Present(root, address) && i < |PluginAt(root, address).operations|
    ensures var k, frames := OperationsFrom(root, 0, address) + i, FramesAt(root, [], 0, address);
            && k < |app.operations| && app.operations[k].requests == PluginAt(root, address).operations[i].requests
            && Resolves(app.operations[k].visible, frames)
  {
    hide ScopedTree, RegisteredTree, Lifecycle, OperationsFrom, FramesAt, Resolves, SurroundingsAt;
    OperationScope(root, NOTHING_AROUND, 0, 0, app.operations, address, i);
    SameFrames(root, NOTHING_AROUND, 0, address);
  }

  /** Operation `i` of the plugin at an address has been built, and serves a request. */
  ghost predicate ServesAt(
      root: Plugin, app: Collected, ranks: seq<nat>, world: World, address: seq<nat>, i: nat, b: Build,
      covered: set<nat>, op: Operation, c: Chain, request: World, code: HandlerCode)
    requires Present(root, address)
  {
    && CollectedFrom(root, app) && i < |PluginAt(root, address).operations|
    && BuiltAt(app, ranks, world, OperationsFrom(root, 0, address) + i, b, covered)
    && request in Requests(world.factory)
    && Serves(op, c, SetupOf(app.registrations, ranks, b, covered), request, b.op, b.singletons, code)
  }

  lemma DeployedAt(
      root: Plugin, app: Collected, ranks: seq<nat>, world: World, address: seq<nat>, i: nat, b: Build,
      covered: set<nat>, op: Operation, c: Chain, request: World, code: HandlerCode)
      returns (visible: map<TypeKey, nat>)
    requires Present(root, address)
    requires ServesAt(root, app, ranks, world, address, i, b, covered, op, c, request, code)
    ensures var requests, frames := PluginAt(root, address).operations[i].requests, FramesAt(root, [], 0, address);
            && (forall j | 0 <= j < |requests| :: Nearest(frames, requests[j]).Some?)
            && Roots(visible, requests) == NearestIds(frames, requests)
            && Deployed(op, c, SetupOf(app.registrations, ranks, b, covered), Requests(world.factory), request, visible,
                        requests, b.op, b.singletons, code)
  {
    hide CollectedFrom, Eval, EvalAll, CompiledFor, SingletonsHeld, Serves, Resolves, Roots, NearestIds, Validated;
    hide FramesAt, OperationsFrom, Nearest;
    OperationRoots(root, app, address, i);
    var operation := app.operations[OperationsFrom(root, 0, address) + i];
    visible := operation.visible;
    InScope(SetupOf(app.registrations, ranks, b, covered), Requests(world.factory), visible, operation.requests, b.op);
    RootsAreNearest(visible, FramesAt(root, [], 0, address), operation.requests);
  }

  /**
   An operation without hooks, wherever its plugin sits in the tree, answers a request with inputs that
   decode by evaluating what it asks for, each resolved to the provider of the nearest plugin around it:
   the first error, or its handler applied to the values.
   */
  lemma TreeAnswer(
      root: Plugin, app: Collected, ranks: seq<nat>, world: World, address: seq<nat>, i: nat, b: Build,
      covered: set<nat>, op: Operation, c: Chain, request: World, code: HandlerCode)
    requires Present(root, address)
    requires ServesAt(root, app, ranks, world, address, i, b, covered, op, c, request, code)
    requires op.hooks.IsEmpty() && FirstRejection(op, |op.decoders|).None? && WillingToFinalize(c)
    ensures var requests, frames := PluginAt(root, address).operations[i].requests, FramesAt(root, [], 0, address);
            && (forall j | 0 <= j < |requests| :: Nearest(frames, requests[j]).Some?)
            && Wired(op) && Validated(app.registrations, ranks) && Below(ranks, NearestIds(frames, requests), Top(ranks))
            && Answer(op, NoAborts())
               == match EvalAll(app.registrations, ranks, request, NearestIds(frames, requests), Top(ranks))
                  case Err(error) => ErrorAnswer(error)
                  case Ok(values) =>
                    match code.prepare(values)
                    case Some(refusal) => refusal
                    case None => code.run(values)
  {
    var visible := DeployedAt(root, app, ranks, world, address, i, b, covered, op, c, request, code);
    var g := SetupOf(app.registrations, ranks, b, covered);
    var requests := PluginAt(root, address).operations[i].requests;
    assert g.regs == app.registrations && g.ranks == ranks;
    hide *;
    PlainAnswer(op, c, g, Requests(world.factory), request, visible, requests, b.op, b.singletons, code);
  }

  /** The same under any hooks and signals: what the request comes to, unless a finalizer fails. */
  lemma TreeDecides(
      root: Plugin, app: Collected, ranks: seq<nat>, world: World, address: seq<nat>, i: nat, b: Build,
      covered: set<nat>, op: Operation, c: Chain, request: World, code: HandlerCode, aborts: Aborts)
      returns (visible: map<TypeKey, nat>, decision: ExecutionOutcome)
    requires Present(root, address)
    requires ServesAt(root, app, ranks, world, address, i, b, covered, op, c, request, code)
    requires HookStops(op, aborts, 0, OnRequest).None? && FirstRejection(op, |op.decoders|).None?
    ensures var requests, frames := PluginAt(root, address).operations[i].requests, FramesAt(root, [], 0, address);
            && (forall j | 0 <= j < |requests| :: Nearest(frames, requests[j]).Some?)
            && Roots(visible, requests) == NearestIds(frames, requests)
            && Decided(op, SetupOf(app.registrations, ranks, b, covered), request, visible, requests, b.op, code, aborts, decision)
            && Wired(op) && AnsweredAfterTeardown(c, decision, Answer(op, aborts))
  {
    visible := DeployedAt(root, app, ranks, world, address, i, b, covered, op, c, request, code);
    var g := SetupOf(app.registrations, ranks, b, covered);
    var requests := PluginAt(root, address).operations[i].requests;
    hide *;
    decision := AnswerMeansInjection(
      op, c, g, Requests(world.factory), request, visible, requests, b.op, b.singletons, code, aborts);
  }

  lemma InScope(
      g: Setup, worlds: iset<World>, scope: map<TypeKey, nat>, requests: seq<TypeKey>, built: CompiledOperation)
    requires Validated(g.regs, g.ranks) && CompiledFor(g, worlds, scope, requests, built)
    ensures forall key | key in requests :: key in scope
  {
  }
}
