/**
 Lexical scopes: `collect_plugin` walks the plugin tree, copying and overlaying one table per plugin
 and joining mounts and hooks on the way down. What each provider and operation sees is its nearest
 enclosing declaration; what an operation serves lies under all the mounts around it.
 */
module PluginScopes {
  import opened Wrappers
  import opened Bytes
  import opened ProviderGraph
  import opened Hooks
  import opened Outcomes
  import opened Mounts
  import opened RouteShapes

  datatype Provider = Provider(key: TypeKey, lifetime: Lifetime, dependencies: seq<TypeKey>, inputs: seq<Input>)

  /** An operation as its plugin declares it, with its dependency requests. */
  datatype Declared = Declared(descriptor: Descriptor, requests: seq<TypeKey>)

  datatype Plugin = Plugin(
    name: bytes,
    providers: seq<Provider>,
    operations: seq<Declared>,
    children: seq<Plugin>,
    mountPrefix: Option<bytes>,
    idNamespace: Option<bytes>,
    hooks: HookScope,
    startup: seq<Hook>,
    shutdown: seq<Hook>)

  /** A mounted operation, the table its requests are resolved in, and the hooks around it. */
  datatype ScopedOperation = ScopedOperation(
    descriptor: Descriptor,
    requests: seq<TypeKey>,
    visible: map<TypeKey, nat>,
    hooks: HookScope)

  datatype CollectError =
    | InvalidPluginName(name: bytes)
    | InvalidMount(mount: MountError)
    | DuplicateProvider(key: TypeKey)
    | SingletonRequestInputs(key: TypeKey)

  /** What one plugin declares: the registration of each type. */
  type Frame = map<TypeKey, nat>

  function FrameOf(providers: seq<Provider>, first: nat): (frame: Frame)
    ensures forall key | key in frame :: first <= frame[key] < first + |providers|
  {
    if providers == [] then map[]
    else
      var last := |providers| - 1;
      FrameOf(providers[..last], first)[providers[last].key := first + last]
  }

  /** The innermost frame that declares the type decides. */
  function Nearest(frames: seq<Frame>, key: TypeKey): Option<nat> {
    if frames == [] then None
    else if key in frames[|frames| - 1] then Some(frames[|frames| - 1][key])
    else Nearest(frames[..|frames| - 1], key)
  }

  /** Of the frames that declare the type, the last one decides. */
  lemma {:induction false} NearestExactly(frames: seq<Frame>, key: TypeKey)
    ensures match Nearest(frames, key)
            case None => forall k | 0 <= k < |frames| :: key !in frames[k]
            case Some(id) =>
              exists k | 0 <= k < |frames| ::
                key in frames[k] && frames[k][key] == id && forall j | k < j < |frames| :: key !in frames[j]
  {
    if frames != [] {
      NearestExactly(frames[..|frames| - 1], key);
    }
  }

  /** A plugin's frame holds the types it declares, each with the number its declaration gets. */
  lemma {:induction false} FrameExactly(providers: seq<Provider>, first: nat)
    requires Acceptable(providers)
    ensures forall i | 0 <= i < |providers| ::
              providers[i].key in FrameOf(providers, first) && FrameOf(providers, first)[providers[i].key] == first + i
    ensures forall key | key in FrameOf(providers, first) :: exists i | 0 <= i < |providers| :: providers[i].key == key
  {
    if providers != [] {
      var last := |providers| - 1;
      FrameExactly(providers[..last], first);
      assert forall i | 0 <= i < last :: providers[..last][i] == providers[i];
    }
  }

  /** The table holds, for each type, its nearest declaration. */
  ghost predicate Resolves(visible: map<TypeKey, nat>, frames: seq<Frame>) {
    forall key: TypeKey :: (if key in visible then Some(visible[key]) else None) == Nearest(frames, key)
  }

  /** No type twice in one plugin, and no singleton that reads a request. */
  predicate Acceptable(providers: seq<Provider>) {
    && (forall i, j | 0 <= i < j < |providers| :: providers[i].key != providers[j].key)
    && forall i | 0 <= i < |providers| :: providers[i].lifetime.Singleton? ==> providers[i].inputs == []
  }

  function MountOf(plugin: Plugin, around: MountPoint): MountPoint {
    Joined(around, plugin.mountPrefix, plugin.idNamespace)
  }

  /** The plugin by itself, inside a mount: its name, its mount, its providers and its operations' ids. */
  predicate CollectableAlone(plugin: Plugin, around: MountPoint, validId: bytes -> bool) {
    && ValidName(plugin.name) && Nested(around, plugin.mountPrefix, plugin.idNamespace).Ok?
    && Acceptable(plugin.providers)
    && forall i | 0 <= i < |plugin.operations| ::
         Apply(MountOf(plugin, around), plugin.operations[i].descriptor, validId).Ok?
  }

  ghost predicate Collectable(plugin: Plugin, around: MountPoint, validId: bytes -> bool) {
    && CollectableAlone(plugin, around, validId)
    && forall child | child in plugin.children :: Collectable(child, MountOf(plugin, around), validId)
  }

  // ----- the first thing wrong, in the order collected -----

  /** What is wrong with provider `at`: a type its plugin has already declared, before anything else. */
  function ProviderDefect(providers: seq<Provider>, at: nat): Option<CollectError>
    requires at < |providers|
  {
    var provider := providers[at];
    if exists i | 0 <= i < at :: providers[i].key == provider.key then Some(DuplicateProvider(provider.key))
    else if provider.lifetime.Singleton? && provider.inputs != [] then Some(SingletonRequestInputs(provider.key))
    else None
  }

  lemma ProviderWrong(providers: seq<Provider>, at: nat)
    requires at < |providers|
    ensures var provider := providers[at];
            ProviderDefect(providers, at)
            == if exists i | 0 <= i < at :: providers[i].key == provider.key then Some(DuplicateProvider(provider.key))
               else if provider.lifetime.Singleton? && provider.inputs != [] then Some(SingletonRequestInputs(provider.key))
               else None
  {
  }

  function ProvidersDefect(providers: seq<Provider>, at: nat): (defect: Option<CollectError>)
    requires at <= |providers|
    ensures defect.None? <==> forall k | at <= k < |providers| :: ProviderDefect(providers, k).None?
    decreases |providers| - at
  {
    if at == |providers| then None
    else if ProviderDefect(providers, at).Some? then ProviderDefect(providers, at)
    else ProvidersDefect(providers, at + 1)
  }

  lemma AcceptableExactly(providers: seq<Provider>)
    ensures ProvidersDefect(providers, 0).None? <==> Acceptable(providers)
  {
    if ProvidersDefect(providers, 0).None? {
      forall i, j | 0 <= i < j < |providers| ensures providers[i].key != providers[j].key {
        assert ProviderDefect(providers, j).None?;
      }
      forall i | 0 <= i < |providers| ensures providers[i].lifetime.Singleton? ==> providers[i].inputs == [] {
        assert ProviderDefect(providers, i).None?;
      }
    }
  }

  function OperationsDefect(declared: seq<Declared>, mount: MountPoint, validId: bytes -> bool, at: nat)
      : (defect: Option<CollectError>)
    requires at <= |declared|
    ensures defect.None? <==> forall k | at <= k < |declared| :: Apply(mount, declared[k].descriptor, validId).Ok?
    decreases |declared| - at
  {
    if at == |declared| then None
    else
      match Apply(mount, declared[at].descriptor, validId)
      case Err(error) => Some(InvalidMount(error))
      case Ok(_) => OperationsDefect(declared, mount, validId, at + 1)
  }

  /** Name, mount, providers, operations, and then the children, each before the next. */
  function Defect(plugin: Plugin, around: MountPoint, validId: bytes -> bool): Option<CollectError>
    decreases plugin, |plugin.children| + 2
  {
    if !ValidName(plugin.name) then Some(InvalidPluginName(plugin.name))
    else
      match Nested(around, plugin.mountPrefix, plugin.idNamespace)
      case Err(error) => Some(InvalidMount(error))
      case Ok(mount) => DefectBelow(plugin, mount, validId)
  }

  function DefectBelow(plugin: Plugin, mount: MountPoint, validId: bytes -> bool): Option<CollectError>
    decreases plugin, |plugin.children| + 1
  {
    if ProvidersDefect(plugin.providers, 0).Some? then ProvidersDefect(plugin.providers, 0)
    else if OperationsDefect(plugin.operations, mount, validId, 0).Some? then
      OperationsDefect(plugin.operations, mount, validId, 0)
    else ChildrenDefect(plugin, mount, validId, 0)
  }

  function ChildrenDefect(plugin: Plugin, mount: MountPoint, validId: bytes -> bool, n: nat): Option<CollectError>
    requires n <= |plugin.children|
    decreases plugin, |plugin.children| - n
  {
    if n == |plugin.children| then None
    else
      var first := Defect(plugin.children[n], mount, validId);
      if first.Some? then first else ChildrenDefect(plugin, mount, validId, n + 1)
  }

  /** Something is wrong exactly when the tree cannot be collected. */
  lemma {:induction false} DefectExactly(plugin: Plugin, around: MountPoint, validId: bytes -> bool)
    ensures Defect(plugin, around, validId).None? <==> Collectable(plugin, around, validId)
    decreases plugin, |plugin.children| + 1
  {
    hide Acceptable, ValidName, ProvidersDefect, OperationsDefect, ChildrenDefect, Apply;
    AcceptableExactly(plugin.providers);
    ChildrenExactly(plugin, MountOf(plugin, around), validId, 0);
    assert forall child | child in plugin.children :: exists k :: 0 <= k < |plugin.children| && plugin.children[k] == child;
  }

  /** What a plugin gets wrong by itself: its name, its mount, the first bad provider or the first bad id. */
  predicate OwnDefect(plugin: Plugin, around: MountPoint, validId: bytes -> bool, error: CollectError) {
    var providers, operations := plugin.providers, plugin.operations;
    if !ValidName(plugin.name) then error == InvalidPluginName(plugin.name)
    else if plugin.mountPrefix.Some? && !ValidPrefix(plugin.mountPrefix.value) then
      error == InvalidMount(InvalidMountPrefix(plugin.mountPrefix.value))
    else if plugin.idNamespace.Some? && !ValidName(plugin.idNamespace.value) then
      error == InvalidMount(InvalidIdNamespace(plugin.idNamespace.value))
    else if !Acceptable(providers) then
      exists k | 0 <= k < |providers| ::
        && Acceptable(providers[..k])
        && if exists i | 0 <= i < k :: providers[i].key == providers[k].key
           then error == DuplicateProvider(providers[k].key)
           else
             && providers[k].lifetime.Singleton? && providers[k].inputs != []
             && error == SingletonRequestInputs(providers[k].key)
    else
      exists k | 0 <= k < |operations| ::
        && (forall j | 0 <= j < k :: Apply(MountOf(plugin, around), operations[j].descriptor, validId).Ok?)
        && Apply(MountOf(plugin, around), operations[k].descriptor, validId).Err?
        && error == InvalidMount(Apply(MountOf(plugin, around), operations[k].descriptor, validId).error)
  }

  /**
   The plugin at the address is the one to blame: those it is inside of are fine by themselves, and
   everything below their earlier children is fine.
   */
  ghost predicate ToBlame(
      plugin: Plugin, around: MountPoint, validId: bytes -> bool, address: seq<nat>, error: CollectError)
    decreases |address|
  {
    if address == [] then OwnDefect(plugin, around, validId, error)
    else
      && CollectableAlone(plugin, around, validId) && address[0] < |plugin.children|
      && (forall k | 0 <= k < address[0] :: Collectable(plugin.children[k], MountOf(plugin, around), validId))
      && ToBlame(plugin.children[address[0]], MountOf(plugin, around), validId, address[1..], error)
  }

  /** Collection reports what the first plugin to blame got wrong. */
  lemma {:induction false} FirstToBlame(plugin: Plugin, around: MountPoint, validId: bytes -> bool)
      returns (address: seq<nat>)
    requires Defect(plugin, around, validId).Some?
    ensures ToBlame(plugin, around, validId, address, Defect(plugin, around, validId).value)
    decreases plugin, |plugin.children| + 2
  {
    hide ValidName, ValidPrefix, Acceptable, Apply, ProvidersDefect, OperationsDefect, ChildrenDefect, Collectable;
    AcceptableExactly(plugin.providers);
    var mount := MountOf(plugin, around);
    if !ValidName(plugin.name) || Nested(around, plugin.mountPrefix, plugin.idNamespace).Err? {
      return [];
    }
    if !Acceptable(plugin.providers) {
      FirstProvider(plugin.providers, 0);
      return [];
    }
    if OperationsDefect(plugin.operations, mount, validId, 0).Some? {
      FirstOperation(plugin.operations, mount, validId, 0);
      return [];
    }
    var k, below := FirstChild(plugin, mount, validId, 0);
    address := [k] + below;
  }

  lemma {:induction false} FirstProvider(providers: seq<Provider>, at: nat)
    requires at <= |providers| && Acceptable(providers[..at]) && ProvidersDefect(providers, at).Some?
    ensures exists k | at <= k < |providers| ::
              Acceptable(providers[..k]) && ProviderDefect(providers, k) == ProvidersDefect(providers, at)
    decreases |providers| - at
  {
    if ProviderDefect(providers, at).None? {
      assert providers[..at + 1] == providers[..at] + [providers[at]];
      FirstProvider(providers, at + 1);
    }
  }

  lemma {:induction false} FirstOperation(declared: seq<Declared>, mount: MountPoint, validId: bytes -> bool, at: nat)
    requires at <= |declared| && OperationsDefect(declared, mount, validId, at).Some?
    ensures exists k | at <= k < |declared| ::
              && (forall j | at <= j < k :: Apply(mount, declared[j].descriptor, validId).Ok?)
              && Apply(mount, declared[k].descriptor, validId).Err?
              && OperationsDefect(declared, mount, validId, at)
                 == Some(InvalidMount(Apply(mount, declared[k].descriptor, validId).error))
    decreases |declared| - at
  {
    hide Apply;
    if Apply(mount, declared[at].descriptor, validId).Ok? {
      FirstOperation(declared, mount, validId, at + 1);
    }
  }

  lemma {:induction false} FirstChild(plugin: Plugin, mount: MountPoint, validId: bytes -> bool, n: nat)
      returns (k: nat, below: seq<nat>)
    requires n <= |plugin.children| && ChildrenDefect(plugin, mount, validId, n).Some?
    ensures n <= k < |plugin.children|
    ensures forall j | n <= j < k :: Collectable(plugin.children[j], mount, validId)
    ensures ToBlame(plugin.children[k], mount, validId, below, ChildrenDefect(plugin, mount, validId, n).value)
    decreases plugin, |plugin.children| - n
  {
    hide Collectable, Defect, ToBlame;
    if Defect(plugin.children[n], mount, validId).Some? {
      k := n;
      below := FirstToBlame(plugin.children[n], mount, validId);
    } else {
      DefectExactly(plugin.children[n], mount, validId);
      k, below := FirstChild(plugin, mount, validId, n + 1);
    }
  }

  lemma {:induction false} ChildrenExactly(plugin: Plugin, mount: MountPoint, validId: bytes -> bool, n: nat)
    requires n <= |plugin.children|
    ensures ChildrenDefect(plugin, mount, validId, n).None? <==>
              forall k | n <= k < |plugin.children| :: Collectable(plugin.children[k], mount, validId)
    decreases plugin, |plugin.children| - n
  {
    hide Collectable, Defect;
    if n < |plugin.children| {
      DefectExactly(plugin.children[n], mount, validId);
      ChildrenExactly(plugin, mount, validId, n + 1);
    }
  }

  function Size(plugin: Plugin): nat {
    |plugin.providers| + Sizes(plugin, |plugin.children|)
  }

  /** Registrations of the first `n` children. */
  function Sizes(plugin: Plugin, n: nat): nat
    requires n <= |plugin.children|
    decreases plugin, n
  {
    if n == 0 then 0 else Sizes(plugin, n - 1) + Size(plugin.children[n - 1])
  }

  // ----- the outcome, plugin by plugin -----

  /** Registration `provider`, seeing `frames`. */
  ghost predicate Registered(reg: Registration, provider: Provider, frames: seq<Frame>) {
    && reg.key == provider.key && reg.lifetime == provider.lifetime
    && reg.dependencies == provider.dependencies && reg.inputs == provider.inputs
    && Resolves(reg.visible, frames)
  }

  ghost predicate RegisteredAt(regs: seq<Registration>, id: nat, provider: Provider, frames: seq<Frame>) {
    id < |regs| && Registered(regs[id], provider, frames)
  }

  /**
   The registrations from `first` on are the plugin's own, each seeing the frames of its ancestors
   and its own, and then its children's, each child inside one frame more.
   */
  ghost predicate RegisteredTree(plugin: Plugin, outer: seq<Frame>, first: nat, regs: seq<Registration>)
    decreases plugin, |plugin.children| + 1
  {
    var frames := outer + [FrameOf(plugin.providers, first)];
    && first + Size(plugin) <= |regs|
    && (forall i | 0 <= i < |plugin.providers| :: RegisteredAt(regs, first + i, plugin.providers[i], frames))
    && RegisteredChildren(plugin, |plugin.children|, frames, first + |plugin.providers|, regs)
  }

  ghost predicate RegisteredChildren(plugin: Plugin, n: nat, frames: seq<Frame>, first: nat, regs: seq<Registration>)
    requires n <= |plugin.children|
    decreases plugin, n
  {
    n > 0 ==>
      && RegisteredChildren(plugin, n - 1, frames, first, regs)
      && RegisteredTree(plugin.children[n - 1], frames, first + Sizes(plugin, n - 1), regs)
  }

  /** Operations of a plugin and its children. */
  function OperationCount(plugin: Plugin): nat {
    |plugin.operations| + OperationCounts(plugin, |plugin.children|)
  }

  function OperationCounts(plugin: Plugin, n: nat): nat
    requires n <= |plugin.children|
    decreases plugin, n
  {
    if n == 0 then 0 else OperationCounts(plugin, n - 1) + OperationCount(plugin.children[n - 1])
  }

  /** What encloses a plugin: the frames of its ancestors, the mount and the hooks they leave it in. */
  datatype Surroundings = Surroundings(frames: seq<Frame>, mount: MountPoint, hooks: HookScope)

  function Inside(plugin: Plugin, outer: Surroundings, first: nat): Surroundings {
    Surroundings(
      outer.frames + [FrameOf(plugin.providers, first)], MountOf(plugin, outer.mount), outer.hooks.Inherited(plugin.hooks))
  }

  ghost predicate ScopedAt(operations: seq<ScopedOperation>, at: nat, declared: Declared, inner: Surroundings) {
    && at < |operations|
    && operations[at].requests == declared.requests
    && operations[at].descriptor == Mounted(inner.mount, declared.descriptor)
    && operations[at].hooks == inner.hooks
    && Resolves(operations[at].visible, inner.frames)
  }

  /** The same for operations: from position `at` on, the plugin's own and then its children's. */
  ghost predicate ScopedTree(plugin: Plugin, outer: Surroundings, first: nat, at: nat, operations: seq<ScopedOperation>)
    decreases plugin, |plugin.children| + 1
  {
    var inner := Inside(plugin, outer, first);
    && at + OperationCount(plugin) <= |operations|
    && (forall i | 0 <= i < |plugin.operations| :: ScopedAt(operations, at + i, plugin.operations[i], inner))
    && ScopedChildren(plugin, |plugin.children|, inner, first + |plugin.providers|, at + |plugin.operations|, operations)
  }

  ghost predicate ScopedChildren(
      plugin: Plugin, n: nat, inner: Surroundings, first: nat, at: nat, operations: seq<ScopedOperation>)
    requires n <= |plugin.children|
    decreases plugin, n
  {
    n > 0 ==>
      && ScopedChildren(plugin, n - 1, inner, first, at, operations)
      && ScopedTree(plugin.children[n - 1], inner, first + Sizes(plugin, n - 1),
                    at + OperationCounts(plugin, n - 1), operations)
  }

  // ----- lifecycle hooks -----

  datatype Phase = StartingUp | ShuttingDown

  function HooksOf(plugin: Plugin, phase: Phase): seq<Hook> {
    if phase.StartingUp? then plugin.startup else plugin.shutdown
  }

  /** A plugin's hooks, then those of its children. */
  function Lifecycle(plugin: Plugin, phase: Phase): seq<Hook>
    decreases plugin, |plugin.children| + 1
  {
    HooksOf(plugin, phase) + Lifecycles(plugin, |plugin.children|, phase)
  }

  function Lifecycles(plugin: Plugin, n: nat, phase: Phase): seq<Hook>
    requires n <= |plugin.children|
    decreases plugin, n
  {
    if n == 0 then [] else Lifecycles(plugin, n - 1, phase) + Lifecycle(plugin.children[n - 1], phase)
  }

  // ----- what is collected later changes nothing -----

  lemma {:induction false} TreeKept(
      plugin: Plugin, outer: seq<Frame>, first: nat, regs: seq<Registration>, more: seq<Registration>)
    requires RegisteredTree(plugin, outer, first, regs) && regs <= more
    ensures RegisteredTree(plugin, outer, first, more)
    decreases plugin, |plugin.children| + 1
  {
    hide FrameOf, Resolves;
    var frames := outer + [FrameOf(plugin.providers, first)];
    forall i | 0 <= i < |plugin.providers| ensures RegisteredAt(more, first + i, plugin.providers[i], frames) {
      assert RegisteredAt(regs, first + i, plugin.providers[i], frames);
    }
    ChildrenKept(plugin, |plugin.children|, frames, first + |plugin.providers|, regs, more);
  }

  lemma {:induction false} ChildrenKept(
      plugin: Plugin, n: nat, frames: seq<Frame>, first: nat, regs: seq<Registration>, more: seq<Registration>)
    requires n <= |plugin.children| && RegisteredChildren(plugin, n, frames, first, regs) && regs <= more
    ensures RegisteredChildren(plugin, n, frames, first, more)
    decreases plugin, n
  {
    if n > 0 {
      ChildrenKept(plugin, n - 1, frames, first, regs, more);
      TreeKept(plugin.children[n - 1], frames, first + Sizes(plugin, n - 1), regs, more);
    }
  }

  lemma {:induction false} ScopedTreeKept(
      plugin: Plugin, outer: Surroundings, first: nat, at: nat,
      operations: seq<ScopedOperation>, more: seq<ScopedOperation>)
    requires ScopedTree(plugin, outer, first, at, operations) && operations <= more
    ensures ScopedTree(plugin, outer, first, at, more)
    decreases plugin, |plugin.children| + 1
  {
    hide Inside, Resolves;
    var inner := Inside(plugin, outer, first);
    forall i | 0 <= i < |plugin.operations| ensures ScopedAt(more, at + i, plugin.operations[i], inner) {
      assert ScopedAt(operations, at + i, plugin.operations[i], inner);
    }
    ScopedChildrenKept(plugin, |plugin.children|, inner, first + |plugin.providers|, at + |plugin.operations|,
                       operations, more);
  }

  lemma {:induction false} ScopedChildrenKept(
      plugin: Plugin, n: nat, inner: Surroundings, first: nat, at: nat,
      operations: seq<ScopedOperation>, more: seq<ScopedOperation>)
    requires n <= |plugin.children| && ScopedChildren(plugin, n, inner, first, at, operations) && operations <= more
    ensures ScopedChildren(plugin, n, inner, first, at, more)
    decreases plugin, n
  {
    hide ScopedTree, Sizes, OperationCounts;
    if n > 0 {
      ScopedChildrenKept(plugin, n - 1, inner, first, at, operations, more);
      ScopedTreeKept(plugin.children[n - 1], inner, first + Sizes(plugin, n - 1),
                     at + OperationCounts(plugin, n - 1), operations, more);
    }
  }

  /** One plugin's declarations over the inherited table. */
  ghost predicate Overlaid(inherited: map<TypeKey, nat>, frame: Frame, visible: map<TypeKey, nat>) {
    && (forall key: TypeKey :: key in visible <==> key in inherited || key in frame)
    && forall key | key in visible :: visible[key] == if key in frame then frame[key] else inherited[key]
  }

  lemma OverlayStart(inherited: map<TypeKey, nat>, first: nat)
    ensures Overlaid(inherited, FrameOf([], first), inherited)
  {
  }

  lemma OverlayNext(
      inherited: map<TypeKey, nat>, providers: seq<Provider>, at: nat, first: nat, visible: map<TypeKey, nat>)
    requires at < |providers| && Overlaid(inherited, FrameOf(providers[..at], first), visible)
    ensures Overlaid(inherited, FrameOf(providers[..at + 1], first), visible[providers[at].key := first + at])
  {
    assert providers[..at + 1][..at] == providers[..at];
  }

  lemma OverlayResolves(
      inherited: map<TypeKey, nat>, outer: seq<Frame>, frame: Frame, visible: map<TypeKey, nat>)
    requires Resolves(inherited, outer) && Overlaid(inherited, frame, visible)
    ensures Resolves(visible, outer + [frame])
  {
    var frames := outer + [frame];
    assert frames[..|frames| - 1] == outer;
  }

  // ----- the code -----

  class PluginCollector {
    var registrations: seq<Registration>
    var operations: seq<ScopedOperation>
    var startup: seq<Hook>
    var shutdown: seq<Hook>
    /** Which operation ids are well-formed. */
    const validId: bytes -> bool

    constructor (validId: bytes -> bool)
      ensures this.validId == validId && registrations == [] && operations == [] && startup == [] && shutdown == []
    {
      this.validId := validId;
      registrations, operations, startup, shutdown := [], [], [], [];
    }

    /** One plugin's providers: registered in order, then given the finished table. */
    method CollectProviders(providers: seq<Provider>, inherited: map<TypeKey, nat>, ghost outer: seq<Frame>)
        returns (error: Option<CollectError>, visible: map<TypeKey, nat>)
      requires Resolves(inherited, outer)
      modifies this`registrations
      ensures old(registrations) <= registrations
      ensures error == ProvidersDefect(providers, 0)
      ensures error.None? ==>
                var frames := outer + [FrameOf(providers, |old(registrations)|)];
                && |registrations| == |old(registrations)| + |providers| && Resolves(visible, frames)
                && forall i | 0 <= i < |providers| ::
                     RegisteredAt(registrations, |old(registrations)| + i, providers[i], frames)
    {
      hide Overlaid, FrameOf, Resolves, ProviderDefect;
      visible := inherited;
      ghost var first := |registrations|;
      OverlayStart(inherited, first);
      assert providers[..0] == [];
      var local: set<TypeKey> := {};
      var at := 0;
      while at < |providers|
        invariant 0 <= at <= |providers| && |registrations| == first + at && old(registrations) <= registrations
        invariant ProvidersDefect(providers, 0) == ProvidersDefect(providers, at)
        invariant forall key :: key in local <==> exists i | 0 <= i < at :: providers[i].key == key
        invariant Overlaid(inherited, FrameOf(providers[..at], first), visible)
        invariant forall i | 0 <= i < at :: Unscoped(registrations, first + i, providers[i])
      {
        var provider := providers[at];
        assert providers[..at + 1][..at] == providers[..at];
        ProviderWrong(providers, at);
        if provider.key in local {
          return Some(DuplicateProvider(provider.key)), visible;
        }
        local := local + {provider.key};
        if provider.lifetime.Singleton? && provider.inputs != [] {
          return Some(SingletonRequestInputs(provider.key)), visible;
        }
        var id := |registrations|;
        registrations := registrations
                         + [Registration(provider.key, provider.lifetime, provider.dependencies, provider.inputs, map[])];
        OverlayNext(inherited, providers, at, first, visible);
        visible := visible[provider.key := id];
        at := at + 1;
      }
      assert providers[..at] == providers;
      OverlayResolves(inherited, outer, FrameOf(providers, first), visible);
      ghost var frames := outer + [FrameOf(providers, first)];
      ghost var unscoped := registrations;
      GiveTable(first, providers, visible);
      forall i | 0 <= i < |providers| ensures RegisteredAt(registrations, first + i, providers[i], frames) {
        assert Unscoped(unscoped, first + i, providers[i]);
      }
      return None, visible;
    }

    method GiveTable(ghost first: nat, providers: seq<Provider>, visible: map<TypeKey, nat>)
      requires |registrations| == first + |providers|
      requires forall i | 0 <= i < |providers| :: Unscoped(registrations, first + i, providers[i])
      modifies this`registrations
      ensures |registrations| == |old(registrations)|
      ensures forall i | 0 <= i < first :: registrations[i] == old(registrations)[i]
      ensures forall i | first <= i < |registrations| ::
                registrations[i] == old(registrations)[i].(visible := visible)
    {
      var id := |registrations| - |providers|;
      while id < |registrations|
        invariant first <= id <= |registrations| == |old(registrations)|
        invariant forall i | 0 <= i < first :: registrations[i] == old(registrations)[i]
        invariant forall i | first <= i < id :: registrations[i] == old(registrations)[i].(visible := visible)
        invariant forall i | id <= i < |registrations| :: registrations[i] == old(registrations)[i]
      {
        registrations := registrations[id := registrations[id].(visible := visible)];
        id := id + 1;
      }
    }

    /**
     `collect_plugin`: reports the first thing wrong in the order collected, and fails exactly when the
     tree has something wrong; otherwise every provider and operation sees its nearest declarations,
     and nothing collected for a child touches what was collected before.
     */
    method Collect(plugin: Plugin, inherited: map<TypeKey, nat>, around: MountPoint, hooks: HookScope,
                   ghost outer: Surroundings)
        returns (error: Option<CollectError>)
      requires Resolves(inherited, outer.frames) && outer.mount == around && outer.hooks == hooks
      modifies this
      ensures old(registrations) <= registrations && old(operations) <= operations
      ensures error == Defect(plugin, around, validId) && (error.None? <==> Collectable(plugin, around, validId))
      ensures error.None? ==>
                && |registrations| == |old(registrations)| + Size(plugin)
                && |operations| == |old(operations)| + OperationCount(plugin)
                && startup == old(startup) + Lifecycle(plugin, StartingUp)
                && shutdown == old(shutdown) + Lifecycle(plugin, ShuttingDown)
                && RegisteredTree(plugin, outer.frames, |old(registrations)|, registrations)
                && ScopedTree(plugin, outer, |old(registrations)|, |old(operations)|, operations)
      decreases plugin, 2
    {
      hide Resolves, FrameOf, Collectable, ValidName, ValidPrefix, Mounted, Joined, DefectBelow;
      DefectExactly(plugin, around, validId);
      if !ValidName(plugin.name) {
        return Some(InvalidPluginName(plugin.name));
      }
      var nested := Nested(around, plugin.mountPrefix, plugin.idNamespace);
      if nested.Err? {
        return Some(InvalidMount(nested.error));
      }
      startup, shutdown := startup + plugin.startup, shutdown + plugin.shutdown;
      error := CollectBelow(plugin, inherited, nested.value, hooks.Inherited(plugin.hooks), outer);
      if error.None? {
        LifecycleStep(old(startup), plugin, StartingUp);
        LifecycleStep(old(shutdown), plugin, ShuttingDown);
      }
    }

    /** A plugin's declarations, then its children. */
    method CollectBelow(plugin: Plugin, inherited: map<TypeKey, nat>, mount: MountPoint, hooks: HookScope,
                        ghost outer: Surroundings)
        returns (error: Option<CollectError>)
      requires Resolves(inherited, outer.frames)
      requires MountOf(plugin, outer.mount) == mount && outer.hooks.Inherited(plugin.hooks) == hooks
      modifies this
      ensures old(registrations) <= registrations && old(operations) <= operations
      ensures error == DefectBelow(plugin, mount, validId)
      ensures error.None? ==>
                && |registrations| == |old(registrations)| + Size(plugin)
                && |operations| == |old(operations)| + OperationCount(plugin)
                && startup == old(startup) + Lifecycles(plugin, |plugin.children|, StartingUp)
                && shutdown == old(shutdown) + Lifecycles(plugin, |plugin.children|, ShuttingDown)
                && RegisteredTree(plugin, outer.frames, |old(registrations)|, registrations)
                && ScopedTree(plugin, outer, |old(registrations)|, |old(operations)|, operations)
      decreases plugin, 1
    {
      hide Resolves, FrameOf, ProvidersDefect, OperationsDefect, ChildrenDefect, Apply, Mounted, Joined;
      ghost var first, from := |registrations|, |operations|;
      ghost var inner := Inside(plugin, outer, first);
      var visible;
      error, visible := CollectProviders(plugin.providers, inherited, outer.frames);
      if error.Some? {
        return;
      }
      error := CollectOperations(plugin.operations, visible, mount, hooks, inner);
      if error.Some? {
        return;
      }
      ghost var own, scoped := registrations, operations;
      error := CollectChildren(plugin, visible, mount, hooks, inner);
      if error.None? {
        forall i | 0 <= i < |plugin.providers| ensures RegisteredAt(registrations, first + i, plugin.providers[i], inner.frames) {
          assert RegisteredAt(own, first + i, plugin.providers[i], inner.frames);
        }
        forall i | 0 <= i < |plugin.operations| ensures ScopedAt(operations, from + i, plugin.operations[i], inner) {
          assert ScopedAt(scoped, from + i, plugin.operations[i], inner);
        }
      }
    }

    method CollectOperations(declared: seq<Declared>, visible: map<TypeKey, nat>, mount: MountPoint, hooks: HookScope,
                             ghost inner: Surroundings)
        returns (error: Option<CollectError>)
      requires Resolves(visible, inner.frames) && inner.mount == mount && inner.hooks == hooks
      modifies this`operations
      ensures old(operations) <= operations
      ensures error == OperationsDefect(declared, mount, validId, 0)
      ensures error.None? ==>
                && |operations| == |old(operations)| + |declared|
                && forall i | 0 <= i < |declared| :: ScopedAt(operations, |old(operations)| + i, declared[i], inner)
    {
      hide Resolves, Mounted;
      var at := 0;
      while at < |declared|
        invariant 0 <= at <= |declared| && |operations| == |old(operations)| + at && old(operations) <= operations
        invariant OperationsDefect(declared, mount, validId, 0) == OperationsDefect(declared, mount, validId, at)
        invariant forall i | 0 <= i < at :: ScopedAt(operations, |old(operations)| + i, declared[i], inner)
      {
        var mounted := Apply(mount, declared[at].descriptor, validId);
        if mounted.Err? {
          return Some(InvalidMount(mounted.error));
        }
        operations := operations + [ScopedOperation(mounted.value, declared[at].requests, visible, hooks)];
        at := at + 1;
      }
      error := None;
    }

    method CollectChildren(plugin: Plugin, visible: map<TypeKey, nat>, mount: MountPoint, hooks: HookScope,
                           ghost inner: Surroundings)
        returns (error: Option<CollectError>)
      requires Resolves(visible, inner.frames) && inner.mount == mount && inner.hooks == hooks
      modifies this
      ensures old(registrations) <= registrations && old(operations) <= operations
      ensures error == ChildrenDefect(plugin, mount, validId, 0)
      ensures error.None? ==>
                var n := |plugin.children|;
                && |registrations| == |old(registrations)| + Sizes(plugin, n)
                && |operations| == |old(operations)| + OperationCounts(plugin, n)
                && startup == old(startup) + Lifecycles(plugin, n, StartingUp)
                && shutdown == old(shutdown) + Lifecycles(plugin, n, ShuttingDown)
                && RegisteredChildren(plugin, n, inner.frames, |old(registrations)|, registrations)
                && ScopedChildren(plugin, n, inner, |old(registrations)|, |old(operations)|, operations)
      decreases plugin, 0
    {
      hide Resolves, FrameOf, Collectable, Defect, RegisteredTree, ScopedTree, Lifecycle;
      var n := 0;
      while n < |plugin.children|
        invariant 0 <= n <= |plugin.children|
        invariant old(registrations) <= registrations && old(operations) <= operations
        invariant ChildrenDefect(plugin, mount, validId, 0) == ChildrenDefect(plugin, mount, validId, n)
        invariant |registrations| == |old(registrations)| + Sizes(plugin, n)
        invariant |operations| == |old(operations)| + OperationCounts(plugin, n)
        invariant startup == old(startup) + Lifecycles(plugin, n, StartingUp)
        invariant shutdown == old(shutdown) + Lifecycles(plugin, n, ShuttingDown)
        invariant RegisteredChildren(plugin, n, inner.frames, |old(registrations)|, registrations)
        invariant ScopedChildren(plugin, n, inner, |old(registrations)|, |old(operations)|, operations)
      {
        ghost var regs, ops := registrations, operations;
        error := Collect(plugin.children[n], visible, mount, hooks, inner);
        if error.Some? {
          return;
        }
        ChildrenKept(plugin, n, inner.frames, |old(registrations)|, regs, registrations);
        ScopedChildrenKept(plugin, n, inner, |old(registrations)|, |old(operations)|, ops, operations);
        LifecyclesStep(old(startup), plugin, n, StartingUp);
        LifecyclesStep(old(shutdown), plugin, n, ShuttingDown);
        n := n + 1;
      }
      error := None;
    }
  }

  lemma LifecycleStep(before: seq<Hook>, plugin: Plugin, phase: Phase)
    ensures before + HooksOf(plugin, phase) + Lifecycles(plugin, |plugin.children|, phase)
            == before + Lifecycle(plugin, phase)
  {
  }

  lemma LifecyclesStep(before: seq<Hook>, plugin: Plugin, n: nat, phase: Phase)
    requires n < |plugin.children|
    ensures before + Lifecycles(plugin, n, phase) + Lifecycle(plugin.children[n], phase)
            == before + Lifecycles(plugin, n + 1, phase)
  {
    hide Lifecycle;
  }

  /** A registration that has not been given its table yet. */
  predicate Unscoped(regs: seq<Registration>, id: nat, provider: Provider) {
    id < |regs| && regs[id] == Registration(provider.key, provider.lifetime, provider.dependencies, provider.inputs, map[])
  }

  // ----- what a reader of the tree sees -----

  /** The plugin at an address: which child, which of its children, and so on. */
  predicate Present(plugin: Plugin, address: seq<nat>)
    decreases |address|
  {
    address != [] ==> address[0] < |plugin.children| && Present(plugin.children[address[0]], address[1..])
  }

  function PluginAt(plugin: Plugin, address: seq<nat>): Plugin
    requires Present(plugin, address)
    decreases |address|
  {
    if address == [] then plugin else PluginAt(plugin.children[address[0]], address[1..])
  }

  /** The id of the first registration of the plugin at an address. */
  function FirstAt(plugin: Plugin, first: nat, address: seq<nat>): nat
    requires Present(plugin, address)
    decreases |address|
  {
    if address == [] then first
    else FirstAt(plugin.children[address[0]], first + |plugin.providers| + Sizes(plugin, address[0]), address[1..])
  }

  /** The frames of a plugin's ancestors, outermost first, then its own. */
  function FramesAt(plugin: Plugin, outer: seq<Frame>, first: nat, address: seq<nat>): seq<Frame>
    requires Present(plugin, address)
    decreases |address|
  {
    var frames := outer + [FrameOf(plugin.providers, first)];
    if address == [] then frames
    else
      FramesAt(plugin.children[address[0]], frames, first + |plugin.providers| + Sizes(plugin, address[0]), address[1..])
  }

  lemma {:induction false} ChildTree(plugin: Plugin, n: nat, k: nat, frames: seq<Frame>, first: nat, regs: seq<Registration>)
    requires k < n <= |plugin.children| && RegisteredChildren(plugin, n, frames, first, regs)
    ensures RegisteredTree(plugin.children[k], frames, first + Sizes(plugin, k), regs)
    decreases n
  {
    hide RegisteredTree, Sizes;
    if k < n - 1 {
      ChildTree(plugin, n - 1, k, frames, first, regs);
    }
  }

  /**
   Wherever a plugin sits in the tree, each of its providers resolves a type to the declaration in
   the nearest plugin that encloses it; no other plugin, below or beside it, has a say.
   */
  lemma {:induction false} NearestEnclosing(
      plugin: Plugin, outer: seq<Frame>, first: nat, regs: seq<Registration>, address: seq<nat>, i: nat)
    requires RegisteredTree(plugin, outer, first, regs) && Present(plugin, address)
    requires i < |PluginAt(plugin, address).providers|
    ensures RegisteredAt(regs, FirstAt(plugin, first, address) + i, PluginAt(plugin, address).providers[i],
                         FramesAt(plugin, outer, first, address))
    decreases |address|
  {
    hide FrameOf, RegisteredAt, Sizes, Size;
    if address != [] {
      var frames := outer + [FrameOf(plugin.providers, first)];
      ChildTree(plugin, |plugin.children|, address[0], frames, first + |plugin.providers|, regs);
      NearestEnclosing(plugin.children[address[0]], frames, first + |plugin.providers| + Sizes(plugin, address[0]),
                       regs, address[1..], i);
    }
  }

  ghost predicate FramesBelow(frames: seq<Frame>, bound: nat) {
    forall k, key | 0 <= k < |frames| && key in frames[k] :: frames[k][key] < bound
  }

  lemma {:induction false} NearestBelow(frames: seq<Frame>, key: TypeKey, bound: nat)
    requires FramesBelow(frames, bound)
    ensures Nearest(frames, key).Some? ==> Nearest(frames, key).value < bound
    decreases |frames|
  {
    if frames != [] {
      NearestBelow(frames[..|frames| - 1], key, bound);
    }
  }

  /** A registration the dependency compilers can work with. */
  ghost predicate Usable(reg: Registration, bound: nat) {
    && (forall key | key in reg.visible :: reg.visible[key] < bound)
    && (reg.lifetime.Singleton? ==> reg.inputs == [])
  }

  lemma ResolvedUsable(reg: Registration, provider: Provider, frames: seq<Frame>, bound: nat)
    requires Registered(reg, provider, frames) && FramesBelow(frames, bound)
    requires provider.lifetime.Singleton? ==> provider.inputs == []
    ensures Usable(reg, bound)
  {
    forall key | key in reg.visible ensures reg.visible[key] < bound {
      NearestBelow(frames, key, bound);
    }
  }

  lemma {:induction false} TreeUsable(
      plugin: Plugin, outer: seq<Frame>, first: nat, regs: seq<Registration>, around: MountPoint, validId: bytes -> bool)
    requires RegisteredTree(plugin, outer, first, regs) && FramesBelow(outer, |regs|)
    requires Collectable(plugin, around, validId)
    ensures forall id | first <= id < first + Size(plugin) :: Usable(regs[id], |regs|)
    decreases plugin, |plugin.children| + 1
  {
    hide Usable, Registered, Nested, Apply, ValidName;
    var own := FrameOf(plugin.providers, first);
    var frames := outer + [own];
    assert FramesBelow(frames, |regs|) by {
      assert forall key | key in own :: own[key] < first + |plugin.providers|;
    }
    forall id | first <= id < first + |plugin.providers| ensures Usable(regs[id], |regs|) {
      var i := id - first;
      assert RegisteredAt(regs, first + i, plugin.providers[i], frames);
      ResolvedUsable(regs[id], plugin.providers[i], frames, |regs|);
    }
    ChildrenUsable(plugin, |plugin.children|, frames, first + |plugin.providers|, regs, MountOf(plugin, around), validId);
  }

  lemma {:induction false} ChildrenUsable(
      plugin: Plugin, n: nat, frames: seq<Frame>, first: nat, regs: seq<Registration>, mount: MountPoint,
      validId: bytes -> bool)
    requires n <= |plugin.children| && RegisteredChildren(plugin, n, frames, first, regs)
    requires FramesBelow(frames, |regs|) && first + Sizes(plugin, n) <= |regs|
    requires forall child | child in plugin.children :: Collectable(child, mount, validId)
    ensures forall id | first <= id < first + Sizes(plugin, n) :: Usable(regs[id], |regs|)
    decreases plugin, n
  {
    hide Usable, Registered, FramesBelow, Collectable;
    if n > 0 {
      ChildrenUsable(plugin, n - 1, frames, first, regs, mount, validId);
      assert plugin.children[n - 1] in plugin.children;
      TreeUsable(plugin.children[n - 1], frames, first + Sizes(plugin, n - 1), regs, mount, validId);
    }
  }

  /** Operations only see registrations there are. */
  ghost predicate Bounded(visible: map<TypeKey, nat>, bound: nat) {
    forall key | key in visible :: visible[key] < bound
  }

  lemma ResolvedBounded(visible: map<TypeKey, nat>, frames: seq<Frame>, bound: nat)
    requires Resolves(visible, frames) && FramesBelow(frames, bound)
    ensures Bounded(visible, bound)
  {
    forall key | key in visible ensures visible[key] < bound {
      NearestBelow(frames, key, bound);
    }
  }

  lemma {:induction false} ScopedBounded(
      plugin: Plugin, outer: Surroundings, first: nat, at: nat, operations: seq<ScopedOperation>, bound: nat)
    requires ScopedTree(plugin, outer, first, at, operations)
    requires FramesBelow(outer.frames, bound) && first + Size(plugin) <= bound
    ensures forall k | at <= k < at + OperationCount(plugin) :: Bounded(operations[k].visible, bound)
    decreases plugin, |plugin.children| + 1
  {
    hide Bounded, Resolves, MountOf;
    var own, inner := FrameOf(plugin.providers, first), Inside(plugin, outer, first);
    assert FramesBelow(inner.frames, bound) by {
      assert forall key | key in own :: own[key] < first + |plugin.providers|;
    }
    forall k | at <= k < at + |plugin.operations| ensures Bounded(operations[k].visible, bound) {
      assert ScopedAt(operations, at + (k - at), plugin.operations[k - at], inner);
      ResolvedBounded(operations[k].visible, inner.frames, bound);
    }
    ChildrenBounded(plugin, |plugin.children|, inner, first + |plugin.providers|, at + |plugin.operations|, operations, bound);
  }

  lemma {:induction false} ChildrenBounded(
      plugin: Plugin, n: nat, inner: Surroundings, first: nat, at: nat, operations: seq<ScopedOperation>, bound: nat)
    requires n <= |plugin.children| && ScopedChildren(plugin, n, inner, first, at, operations)
    requires FramesBelow(inner.frames, bound) && first + Sizes(plugin, n) <= bound
    requires at + OperationCounts(plugin, n) <= |operations|
    ensures forall k | at <= k < at + OperationCounts(plugin, n) :: Bounded(operations[k].visible, bound)
    decreases plugin, n
  {
    hide Bounded, FramesBelow, ScopedTree;
    if n > 0 {
      ChildrenBounded(plugin, n - 1, inner, first, at, operations, bound);
      ScopedBounded(plugin.children[n - 1], inner, first + Sizes(plugin, n - 1), at + OperationCounts(plugin, n - 1),
                    operations, bound);
    }
  }

  /** What collecting a whole application leaves behind. */
  datatype Collected = Collected(
    registrations: seq<Registration>,
    operations: seq<ScopedOperation>,
    startup: seq<Hook>,
    shutdown: seq<Hook>)

  const NOTHING_AROUND := Surroundings([], UNMOUNTED, NO_HOOKS)

  /** The tree in the order collected, in the form the graph validation and the compilers rely on. */
  ghost predicate CollectedFrom(root: Plugin, app: Collected) {
    var regs := app.registrations;
    && |regs| == Size(root) && RegisteredTree(root, [], 0, regs)
    && ScopedTree(root, NOTHING_AROUND, 0, 0, app.operations) && |app.operations| == OperationCount(root)
    && app.startup == Lifecycle(root, StartingUp) && app.shutdown == Lifecycle(root, ShuttingDown)
    && Scoped(regs)
    && (forall id | 0 <= id < |regs| && regs[id].lifetime.Singleton? :: regs[id].inputs == [])
    && forall k | 0 <= k < |app.operations| :: Bounded(app.operations[k].visible, |regs|)
  }

  /**
   The first half of `from_plugin`: it fails exactly when some plugin cannot be collected, and leaves
   registrations in the form every later compiler relies on.
   */
  method CollectApplication(root: Plugin, validId: bytes -> bool) returns (result: Result<Collected, CollectError>)
    ensures result.Ok? <==> Collectable(root, UNMOUNTED, validId)
    ensures result.Err? ==> Some(result.error) == Defect(root, UNMOUNTED, validId)
    ensures result.Ok? ==> CollectedFrom(root, result.value)
  {
    hide RegisteredTree, ScopedTree, Collectable, Lifecycle;
    var collector := new PluginCollector(validId);
    var error := collector.Collect(root, map[], UNMOUNTED, NO_HOOKS, NOTHING_AROUND);
    if error.Some? {
      return Err(error.value);
    }
    TreeUsable(root, [], 0, collector.registrations, UNMOUNTED, validId);
    ScopedBounded(root, NOTHING_AROUND, 0, 0, collector.operations, |collector.registrations|);
    forall id | 0 <= id < |collector.registrations| ensures Usable(collector.registrations[id], |collector.registrations|) {
    }
    assert [] + Lifecycle(root, StartingUp) == Lifecycle(root, StartingUp);
    assert [] + Lifecycle(root, ShuttingDown) == Lifecycle(root, ShuttingDown);
    return Ok(Collected(collector.registrations, collector.operations, collector.startup, collector.shutdown));
  }

  // ----- operations by address -----

  /** The position of the first operation of the plugin at an address. */
  function OperationsFrom(plugin: Plugin, at: nat, address: seq<nat>): nat
    requires Present(plugin, address)
    decreases |address|
  {
    if address == [] then at
    else
      OperationsFrom(plugin.children[address[0]], at + |plugin.operations| + OperationCounts(plugin, address[0]), address[1..])
  }

  /** What the plugin at an address, and everything around it, makes an operation see. */
  function SurroundingsAt(plugin: Plugin, outer: Surroundings, first: nat, address: seq<nat>): Surroundings
    requires Present(plugin, address)
    decreases |address|
  {
    var inner := Inside(plugin, outer, first);
    if address == [] then inner
    else
      SurroundingsAt(plugin.children[address[0]], inner, first + |plugin.providers| + Sizes(plugin, address[0]), address[1..])
  }

  lemma {:induction false} ChildScope(
      plugin: Plugin, n: nat, k: nat, inner: Surroundings, first: nat, at: nat, operations: seq<ScopedOperation>)
    requires k < n <= |plugin.children| && ScopedChildren(plugin, n, inner, first, at, operations)
    ensures ScopedTree(plugin.children[k], inner, first + Sizes(plugin, k), at + OperationCounts(plugin, k), operations)
    decreases n
  {
    hide ScopedTree, Sizes, OperationCounts;
    if k < n - 1 {
      ChildScope(plugin, n - 1, k, inner, first, at, operations);
    }
  }

  /** An operation sees what its own address says, wherever its plugin sits in the tree. */
  lemma {:induction false} OperationScope(
      plugin: Plugin, outer: Surroundings, first: nat, at: nat, operations: seq<ScopedOperation>, address: seq<nat>, i: nat)
    requires ScopedTree(plugin, outer, first, at, operations) && Present(plugin, address)
    requires i < |PluginAt(plugin, address).operations|
    ensures ScopedAt(operations, OperationsFrom(plugin, at, address) + i, PluginAt(plugin, address).operations[i],
                     SurroundingsAt(plugin, outer, first, address))
    decreases |address|
  {
    hide Inside, ScopedAt, Sizes, OperationCount, OperationCounts;
    if address != [] {
      var inner := Inside(plugin, outer, first);
      ChildScope(plugin, |plugin.children|, address[0], inner, first + |plugin.providers|, at + |plugin.operations|, operations);
      OperationScope(plugin.children[address[0]], inner, first + |plugin.providers| + Sizes(plugin, address[0]),
                     at + |plugin.operations| + OperationCounts(plugin, address[0]), operations, address[1..], i);
    }
  }

  /** A provider and an operation of one plugin are resolved in the same frames. */
  lemma {:induction false} SameFrames(plugin: Plugin, outer: Surroundings, first: nat, address: seq<nat>)
    requires Present(plugin, address)
    ensures SurroundingsAt(plugin, outer, first, address).frames == FramesAt(plugin, outer.frames, first, address)
    decreases |address|
  {
    hide FrameOf, MountOf;
    if address != [] {
      SameFrames(plugin.children[address[0]], Inside(plugin, outer, first),
                 first + |plugin.providers| + Sizes(plugin, address[0]), address[1..]);
    }
  }

  // ----- mounts and hooks by address -----

  /** The plugins from the root to an address. */
  function Enclosing(plugin: Plugin, address: seq<nat>): (plugins: seq<Plugin>)
    requires Present(plugin, address)
    ensures plugins != []
    decreases |address|
  {
    [plugin] + if address == [] then [] else Enclosing(plugin.children[address[0]], address[1..])
  }

  function Prefixes(plugins: seq<Plugin>): bytes {
    if plugins == [] then []
    else
      var last := plugins[|plugins| - 1];
      Prefixes(plugins[..|plugins| - 1]) + if last.mountPrefix.Some? then last.mountPrefix.value else []
  }

  function Namespaces(plugins: seq<Plugin>): seq<bytes> {
    if plugins == [] then []
    else
      var last := plugins[|plugins| - 1];
      Namespaces(plugins[..|plugins| - 1]) + if last.idNamespace.Some? then [last.idNamespace.value] else []
  }

  function Dotted(names: seq<bytes>): bytes {
    if names == [] then []
    else if |names| == 1 then names[0]
    else Dotted(names[..|names| - 1]) + [DOT] + names[|names| - 1]
  }

  function HooksAround(plugins: seq<Plugin>): HookScope {
    if plugins == [] then NO_HOOKS else HooksAround(plugins[..|plugins| - 1]).Inherited(plugins[|plugins| - 1].hooks)
  }

  /** At every stage, plugin `k`'s hooks follow those of the plugins around it, in its own order. */
  lemma {:induction false} HookAround(plugins: seq<Plugin>, k: nat, i: nat, stage: Stage)
    requires k < |plugins| && i < |plugins[k].hooks.At(stage)|
    ensures var all, from := HooksAround(plugins).At(stage), |HooksAround(plugins[..k]).At(stage)|;
            from + i < |all| && all[from + i] == plugins[k].hooks.At(stage)[i]
    decreases |plugins|
  {
    hide HookScope.At, HookScope.Inherited;
    var init := plugins[..|plugins| - 1];
    InheritedAt(HooksAround(init), plugins[|plugins| - 1].hooks, stage);
    if k < |init| {
      assert init[..k] == plugins[..k];
      HookAround(init, k, i, stage);
    }
  }

  /** The plugins around one contribute fewer hooks than those around a plugin inside it. */
  lemma {:induction false} HooksAroundGrow(plugins: seq<Plugin>, k: nat, m: nat, stage: Stage)
    requires k < m <= |plugins|
    ensures |HooksAround(plugins[..k]).At(stage)| + |plugins[k].hooks.At(stage)| <= |HooksAround(plugins[..m]).At(stage)|
    decreases m
  {
    hide HookScope.At, HookScope.Inherited;
    assert plugins[..m][..m - 1] == plugins[..m - 1];
    InheritedAt(HooksAround(plugins[..m - 1]), plugins[m - 1].hooks, stage);
    if k < m - 1 {
      HooksAroundGrow(plugins, k, m - 1, stage);
    }
  }

  /**
   After an answer hooks run from the inside out: of two plugins around an operation, every error or
   response hook of the inner one comes before every one of the outer.
   */
  lemma InnerHooksFirst(plugins: seq<Plugin>, k: nat, m: nat, i: nat, j: nat, stage: Stage) returns (early: nat, late: nat)
    requires k < m < |plugins| && i < |plugins[k].hooks.At(stage)| && j < |plugins[m].hooks.At(stage)|
    ensures var ran := Backwards(HooksAround(plugins).At(stage));
            && early < late < |ran|
            && ran[early] == plugins[m].hooks.At(stage)[j] && ran[late] == plugins[k].hooks.At(stage)[i]
  {
    hide HookScope.At;
    HookAround(plugins, k, i, stage);
    HookAround(plugins, m, j, stage);
    HooksAroundGrow(plugins, k, m, stage);
    var all := HooksAround(plugins).At(stage);
    early := |all| - 1 - (|HooksAround(plugins[..m]).At(stage)| + j);
    late := |all| - 1 - (|HooksAround(plugins[..k]).At(stage)| + i);
  }

  /** Mounts and hooks as the plugins passed so far leave them. */
  ghost predicate Gathered(plugins: seq<Plugin>, scope: Surroundings) {
    && scope.mount == MountPoint(Prefixes(plugins), Dotted(Namespaces(plugins)))
    && scope.hooks == HooksAround(plugins)
    && MountPrefix(scope.mount.prefix)
    && forall k | 0 <= k < |Namespaces(plugins)| :: Namespaces(plugins)[k] != []
  }

  lemma GatherOne(plugins: seq<Plugin>, plugin: Plugin, scope: Surroundings, first: nat)
    requires Gathered(plugins, scope) && Nested(scope.mount, plugin.mountPrefix, plugin.idNamespace).Ok?
    ensures Gathered(plugins + [plugin], Inside(plugin, scope, first))
  {
    JoinedPrefix(scope.mount, plugin.mountPrefix, plugin.idNamespace);
    NamespacesNext(plugins, plugin, scope.mount);
    OneMore(plugins, plugin);
    hide Nested, FrameOf, ValidPrefix, ValidName, Prefixes, Namespaces, HooksAround, Dotted, MountPrefix;
  }

  lemma OneMore(plugins: seq<Plugin>, plugin: Plugin)
    ensures HooksAround(plugins + [plugin]) == HooksAround(plugins).Inherited(plugin.hooks)
    ensures Prefixes(plugins + [plugin])
            == if plugin.mountPrefix.Some? then Prefixes(plugins) + plugin.mountPrefix.value else Prefixes(plugins)
  {
    hide HookScope.Inherited;
    var more := plugins + [plugin];
    assert more[..|more| - 1] == plugins;
    assert Prefixes(plugins) + [] == Prefixes(plugins);
  }

  lemma NamespacesNext(plugins: seq<Plugin>, plugin: Plugin, around: MountPoint)
    requires around.namespace == Dotted(Namespaces(plugins))
    requires plugin.idNamespace.Some? ==> ValidName(plugin.idNamespace.value)
    requires forall k | 0 <= k < |Namespaces(plugins)| :: Namespaces(plugins)[k] != []
    ensures Dotted(Namespaces(plugins + [plugin])) == MountOf(plugin, around).namespace
    ensures var names := Namespaces(plugins + [plugin]);
            forall k | 0 <= k < |names| :: names[k] != []
  {
    hide *;
    NamespacesOneMore(plugins, plugin);
    var names := Namespaces(plugins);
    if plugin.idNamespace.Some? {
      DottedOneMore(names, plugin.idNamespace.value);
      NamedIsNonempty(plugin.idNamespace.value);
    } else {
      assert names + [] == names;
    }
    MountOfNamespace(plugin, around);
  }

  lemma MountOfNamespace(plugin: Plugin, around: MountPoint)
    ensures MountOf(plugin, around).namespace
            == if plugin.idNamespace.None? then around.namespace
               else if around.namespace == [] then plugin.idNamespace.value
               else around.namespace + [DOT] + plugin.idNamespace.value
  {
  }

  lemma NamedIsNonempty(name: bytes)
    requires ValidName(name)
    ensures name != []
  {
  }

  lemma NamespacesOneMore(plugins: seq<Plugin>, plugin: Plugin)
    ensures Namespaces(plugins + [plugin])
            == Namespaces(plugins) + if plugin.idNamespace.Some? then [plugin.idNamespace.value] else []
  {
    assert (plugins + [plugin])[..|plugins|] == plugins;
  }

  lemma DottedOneMore(names: seq<bytes>, name: bytes)
    requires forall k | 0 <= k < |names| :: names[k] != []
    ensures Dotted(names + [name]) == if Dotted(names) == [] then name else Dotted(names) + [DOT] + name
  {
    DottedEmpty(names);
    assert (names + [name])[..|names|] == names;
  }

  lemma DottedEmpty(names: seq<bytes>)
    requires forall k | 0 <= k < |names| :: names[k] != []
    ensures Dotted(names) == [] <==> names == []
  {
  }

  /**
   At an address, prefixes have been strung together, namespaces joined with dots and hooks appended,
   from the root inwards; and the prefix is one that routes can be mounted under.
   */
  lemma {:induction false} MountsJoin(
      passed: seq<Plugin>, plugin: Plugin, outer: Surroundings, first: nat, address: seq<nat>, validId: bytes -> bool)
    requires Present(plugin, address) && Collectable(plugin, outer.mount, validId) && Gathered(passed, outer)
    ensures Gathered(passed + Enclosing(plugin, address), SurroundingsAt(plugin, outer, first, address))
    decreases |address|
  {
    hide Gathered, Nested, Apply, ValidName, Acceptable;
    var inner := Inside(plugin, outer, first);
    GatherOne(passed, plugin, outer, first);
    if address == [] {
      assert Enclosing(plugin, address) == [plugin];
    } else {
      var child := plugin.children[address[0]];
      assert child in plugin.children;
      MountsJoin(passed + [plugin], child, inner, first + |plugin.providers| + Sizes(plugin, address[0]), address[1..], validId);
      assert passed + [plugin] + Enclosing(child, address[1..]) == passed + Enclosing(plugin, address);
    }
  }

  /**
   What an operation of a collected application is and serves: its id under the dotted namespaces of
   the plugins around it, its hooks theirs from the outside in, and its requests those that, with all
   their prefixes taken off the front, its declared pattern matches.
   */
  lemma OperationServes(
      root: Plugin, validId: bytes -> bool, operations: seq<ScopedOperation>, address: seq<nat>, i: nat, request: bytes)
    requires Collectable(root, UNMOUNTED, validId) && ScopedTree(root, NOTHING_AROUND, 0, 0, operations)
    requires Present(root, address) && i < |PluginAt(root, address).operations|
    requires Slashed(PluginAt(root, address).operations[i].descriptor.route.path) && Slashed(request)
    ensures OperationsFrom(root, 0, address) + i < |operations|
    ensures var around := Enclosing(root, address);
            var declared := PluginAt(root, address).operations[i].descriptor;
            var operation := operations[OperationsFrom(root, 0, address) + i];
            var prefix := Prefixes(around);
            && operation.descriptor.id == MountedId(Dotted(Namespaces(around)), declared.id)
            && operation.hooks == HooksAround(around)
            && (Matches(operation.descriptor.route, request) <==>
                  if prefix == [] then Matches(declared.route, request)
                  else if declared.route.path == [SLASH] then request == prefix
                  else
                    prefix <= request && Slashed(request[|prefix|..]) && Matches(declared.route, request[|prefix|..]))
  {
    hide *;
    NothingGathered();
    OperationScope(root, NOTHING_AROUND, 0, 0, operations, address, i);
    MountsJoin([], root, NOTHING_AROUND, 0, address, validId);
    assert [] + Enclosing(root, address) == Enclosing(root, address);
    var scope := SurroundingsAt(root, NOTHING_AROUND, 0, address);
    GatheredMeans(Enclosing(root, address), scope);
    ScopedMeans(operations, OperationsFrom(root, 0, address) + i, PluginAt(root, address).operations[i], scope);
    MountedServes(scope.mount, PluginAt(root, address).operations[i].descriptor, request);
  }

  lemma NothingGathered()
    ensures Gathered([], NOTHING_AROUND) && NOTHING_AROUND.mount == UNMOUNTED
  {
  }

  lemma GatheredMeans(plugins: seq<Plugin>, scope: Surroundings)
    requires Gathered(plugins, scope)
    ensures scope.mount == MountPoint(Prefixes(plugins), Dotted(Namespaces(plugins)))
    ensures scope.hooks == HooksAround(plugins) && MountPrefix(Prefixes(plugins))
  {
  }

  lemma ScopedMeans(operations: seq<ScopedOperation>, k: nat, declared: Declared, scope: Surroundings)
    requires ScopedAt(operations, k, declared, scope)
    ensures k < |operations| && operations[k].descriptor == Mounted(scope.mount, declared.descriptor)
    ensures operations[k].hooks == scope.hooks
    ensures operations[k].descriptor.id == MountedId(scope.mount.namespace, declared.descriptor.id)
  {
  }

  // ----- lifecycle hooks by address -----

  /** Where the hooks of the plugin at an address begin. */
  function HooksFrom(plugin: Plugin, at: nat, address: seq<nat>, phase: Phase): nat
    requires Present(plugin, address)
    decreases |address|
  {
    if address == [] then at
    else
      HooksFrom(plugin.children[address[0]],
                at + |HooksOf(plugin, phase)| + |Lifecycles(plugin, address[0], phase)|, address[1..], phase)
  }

  lemma {:induction false} ChildHook(plugin: Plugin, n: nat, k: nat, x: nat, phase: Phase)
    requires k < n <= |plugin.children| && x < |Lifecycle(plugin.children[k], phase)|
    ensures |Lifecycles(plugin, k, phase)| + x < |Lifecycles(plugin, n, phase)|
    ensures Lifecycles(plugin, n, phase)[|Lifecycles(plugin, k, phase)| + x] == Lifecycle(plugin.children[k], phase)[x]
    decreases n
  {
    hide Lifecycle;
    if k < n - 1 {
      ChildHook(plugin, n - 1, k, x, phase);
    }
  }

  lemma BelowOwn(plugin: Plugin, k: nat, x: nat, phase: Phase)
    requires k < |plugin.children| && x < |Lifecycle(plugin.children[k], phase)|
    ensures var y := |HooksOf(plugin, phase)| + |Lifecycles(plugin, k, phase)| + x;
            y < |Lifecycle(plugin, phase)| && Lifecycle(plugin, phase)[y] == Lifecycle(plugin.children[k], phase)[x]
  {
    ChildHook(plugin, |plugin.children|, k, x, phase);
    hide Lifecycles, HooksOf;
  }

  /** Every hook is there, in its plugin's order, from its address's position on. */
  lemma {:induction false} HookAt(plugin: Plugin, at: nat, address: seq<nat>, i: nat, phase: Phase)
    requires Present(plugin, address) && i < |HooksOf(PluginAt(plugin, address), phase)|
    ensures var x := HooksFrom(plugin, at, address, phase) + i - at;
            0 <= x < |Lifecycle(plugin, phase)|
            && Lifecycle(plugin, phase)[x] == HooksOf(PluginAt(plugin, address), phase)[i]
    decreases |address|
  {
    if address != [] {
      hide Lifecycle, Lifecycles, HooksOf;
      var k := address[0];
      var from := at + |HooksOf(plugin, phase)| + |Lifecycles(plugin, k, phase)|;
      HookAt(plugin.children[k], from, address[1..], i, phase);
      BelowOwn(plugin, k, HooksFrom(plugin, at, address, phase) + i - from, phase);
    }
  }

  /** A plugin's hooks come before those of every plugin below it. */
  lemma {:induction false} ParentsFirst(plugin: Plugin, at: nat, address: seq<nat>, below: seq<nat>, phase: Phase)
    requires below != [] && Present(plugin, address + below)
    ensures Present(plugin, address)
    ensures HooksFrom(plugin, at, address, phase) + |HooksOf(PluginAt(plugin, address), phase)|
            <= HooksFrom(plugin, at, address + below, phase)
    decreases |address|
  {
    hide Lifecycle, Lifecycles, HooksOf;
    var deep := address + below;
    if address == [] {
      assert deep == below;
      HooksFromGrows(plugin.children[below[0]],
                     at + |HooksOf(plugin, phase)| + |Lifecycles(plugin, below[0], phase)|, below[1..], phase);
    } else {
      assert deep[1..] == address[1..] + below && deep[0] == address[0];
      ParentsFirst(plugin.children[address[0]],
                   at + |HooksOf(plugin, phase)| + |Lifecycles(plugin, address[0], phase)|, address[1..], below, phase);
    }
  }

  /** Of two children of a plugin, the hooks of the earlier one and everything below it come first. */
  lemma SiblingsInOrder(plugin: Plugin, at: nat, k: nat, m: nat, x: seq<nat>, y: seq<nat>, i: nat, phase: Phase)
    requires k < m && Present(plugin, [k] + x) && Present(plugin, [m] + y)
    requires i < |HooksOf(PluginAt(plugin, [k] + x), phase)|
    ensures HooksFrom(plugin, at, [k] + x, phase) + i < HooksFrom(plugin, at, [m] + y, phase)
  {
    hide Lifecycle, HooksOf;
    var own := at + |HooksOf(plugin, phase)|;
    assert ([k] + x)[1..] == x && ([m] + y)[1..] == y;
    assert Present(plugin.children[k], x) && Present(plugin.children[m], y);
    HookAt(plugin.children[k], own + |Lifecycles(plugin, k, phase)|, x, i, phase);
    HooksFromGrows(plugin.children[m], own + |Lifecycles(plugin, m, phase)|, y, phase);
    LifecyclesGrow(plugin, k, m, phase);
  }

  lemma {:induction false} LifecyclesGrow(plugin: Plugin, k: nat, m: nat, phase: Phase)
    requires k < m <= |plugin.children|
    ensures |Lifecycles(plugin, k, phase)| + |Lifecycle(plugin.children[k], phase)| <= |Lifecycles(plugin, m, phase)|
    decreases m
  {
    hide Lifecycle;
    if k < m - 1 {
      LifecyclesGrow(plugin, k, m - 1, phase);
    }
  }

  lemma {:induction false} HooksFromGrows(plugin: Plugin, at: nat, address: seq<nat>, phase: Phase)
    requires Present(plugin, address)
    ensures at <= HooksFrom(plugin, at, address, phase)
    decreases |address|
  {
    hide Lifecycle, Lifecycles, HooksOf;
    if address != [] {
      HooksFromGrows(plugin.children[address[0]],
                     at + |HooksOf(plugin, phase)| + |Lifecycles(plugin, address[0], phase)|, address[1..], phase);
    }
  }

  // ----- running the hooks -----

  /** `startup`: in order, up to and including the first hook that fails. */
  method Startup(app: Collected, run: Hook -> Option<DependencyError>) returns (error: Option<DependencyError>, ran: seq<Hook>)
    ensures ran <= app.startup && error == FirstError(app.startup, run)
    ensures error.None? ==> ran == app.startup
    ensures error.Some? ==>
              && ran != [] && run(ran[|ran| - 1]) == error
              && forall k | 0 <= k < |ran| - 1 :: run(ran[k]).None?
  {
    error, ran := RunForwards(app.startup, run);
  }

  /** `shutdown`: every hook, last registered first, whatever fails; the first failure is reported. */
  method Shutdown(app: Collected, run: Hook -> Option<DependencyError>) returns (error: Option<DependencyError>, ran: seq<Hook>)
    ensures ran == Backwards(app.shutdown) && error == FirstError(ran, run)
  {
    error, ran := RunBackwards(app.shutdown, run);
  }

  /** Startup runs parents before children: hook `i` of a plugin before hook `j` of one below it. */
  lemma ParentsStartFirst(root: Plugin, address: seq<nat>, below: seq<nat>, i: nat, j: nat) returns (early: nat, late: nat)
    requires below != [] && Present(root, address + below) && Present(root, address)
    requires i < |PluginAt(root, address).startup| && j < |PluginAt(root, address + below).startup|
    ensures var hooks := Lifecycle(root, StartingUp);
            && early < late < |hooks|
            && hooks[early] == PluginAt(root, address).startup[i]
            && hooks[late] == PluginAt(root, address + below).startup[j]
  {
    HookAt(root, 0, address, i, StartingUp);
    HookAt(root, 0, address + below, j, StartingUp);
    ParentsFirst(root, 0, address, below, StartingUp);
    hide Lifecycle;
    early := HooksFrom(root, 0, address, StartingUp) + i;
    late := HooksFrom(root, 0, address + below, StartingUp) + j;
  }

  /**
   Shutdown runs children before parents: hook `j` of a plugin below `address` is run before hook `i`
   of the plugin there.
   */
  lemma ChildrenShutFirst(root: Plugin, address: seq<nat>, below: seq<nat>, i: nat, j: nat) returns (early: nat, late: nat)
    requires below != [] && Present(root, address + below) && Present(root, address)
    requires i < |PluginAt(root, address).shutdown| && j < |PluginAt(root, address + below).shutdown|
    ensures var ran := Backwards(Lifecycle(root, ShuttingDown));
            && early < late < |ran|
            && ran[early] == PluginAt(root, address + below).shutdown[j]
            && ran[late] == PluginAt(root, address).shutdown[i]
  {
    var hooks := Lifecycle(root, ShuttingDown);
    HookAt(root, 0, address, i, ShuttingDown);
    HookAt(root, 0, address + below, j, ShuttingDown);
    ParentsFirst(root, 0, address, below, ShuttingDown);
    hide Lifecycle;
    early := |hooks| - 1 - (HooksFrom(root, 0, address + below, ShuttingDown) + j);
    late := |hooks| - 1 - (HooksFrom(root, 0, address, ShuttingDown) + i);
  }
}
