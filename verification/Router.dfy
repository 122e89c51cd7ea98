/** The compiled router: a rejection filter, a table of static paths, and the parameter trie. */
module CompiledRouter {
  import opened Wrappers
  import opened Bytes
  import opened RouteShapes
  import opened CaptureStack
  import opened RouteTrie

  /** Every verb in declaration order. */
  const METHODS: seq<HttpMethod> := [Get, Head, Post, Put, Patch, Delete, Options, Trace, Connect]

  function MethodIndex(verb: HttpMethod): (index: nat)
    ensures index < |METHODS| && METHODS[index] == verb
  {
    match verb
    case Get => 0
    case Head => 1
    case Post => 2
    case Put => 3
    case Patch => 4
    case Delete => 5
    case Options => 6
    case Trace => 7
    case Connect => 8
  }

  datatype RouteError = NotFound | MethodNotAllowed(allowed: seq<HttpMethod>)

  datatype Endpoint = Endpoint(parameterNames: seq<bytes>)

  // ----- the rejection filter: 128 bits in two words -----

  function SecondByte(path: bytes): byte {
    if |path| > 1 then path[1] else 0
  }

  /** Word and bit of a seven-bit slot. */
  function SlotBits(slot: bv64): (bits: (bv64, bv64))
    ensures bits.1 != 0
  {
    (slot >> 6, 1 << (slot & 63))
  }

  /** The low seven bits of three times the second byte, exclusive-or the length: one of 128 bits in two words. */
  function StaticFilterSlot(path: bytes): (bits: (bv64, bv64))
    ensures bits.0 < 2 && bits.1 != 0
  {
    SlotBits((((3 * SecondByte(path) % 128) as bv64) ^ ((|path| % 128) as bv64)) & 127)
  }

  predicate Hit(word: bv64, bit: bv64) {
    word & bit != 0
  }

  function Mark(word: bv64, bit: bv64): bv64 {
    word | bit
  }

  predicate FilterBit(filter: (bv64, bv64), slot: (bv64, bv64)) {
    Hit(if slot.0 == 0 then filter.0 else filter.1, slot.1)
  }

  function SetBit(filter: (bv64, bv64), slot: (bv64, bv64)): (bv64, bv64) {
    if slot.0 == 0 then (Mark(filter.0, slot.1), filter.1) else (filter.0, Mark(filter.1, slot.1))
  }

  lemma MarkHits(word: bv64, bit: bv64)
    requires bit != 0
    ensures Hit(Mark(word, bit), bit)
  {
  }

  lemma MarkKeeps(word: bv64, added: bv64, bit: bv64)
    requires Hit(word, bit)
    ensures Hit(Mark(word, added), bit)
  {
  }

  lemma SetBitKeeps(filter: (bv64, bv64), slot: (bv64, bv64), probe: (bv64, bv64))
    requires slot.1 != 0
    ensures FilterBit(SetBit(filter, slot), slot)
    ensures FilterBit(filter, probe) ==> FilterBit(SetBit(filter, slot), probe)
  {
    hide Hit, Mark;
    MarkHits(filter.0, slot.1);
    MarkHits(filter.1, slot.1);
    if Hit(filter.0, probe.1) {
      MarkKeeps(filter.0, slot.1, probe.1);
    }
    if Hit(filter.1, probe.1) {
      MarkKeeps(filter.1, slot.1, probe.1);
    }
  }

  /** A set bit is never missed. */
  lemma FilterNeverMisses(filter: (bv64, bv64), path: bytes, other: bytes)
    ensures FilterBit(SetBit(filter, StaticFilterSlot(path)), StaticFilterSlot(path))
    ensures FilterBit(filter, StaticFilterSlot(other)) ==>
              FilterBit(SetBit(filter, StaticFilterSlot(path)), StaticFilterSlot(other))
  {
    hide StaticFilterSlot;
    SetBitKeeps(filter, StaticFilterSlot(path), StaticFilterSlot(other));
  }

  // ----- which endpoint is where -----

  /** Trie endpoints are routes with parameters, each at the node of its shape. */
  ghost predicate TrieSound(nodes: seq<RouteNode>, shapes: seq<seq<Segment>>, routes: seq<Route>)
    requires |nodes| == |shapes|
  {
    forall n, verb | 0 <= n < |nodes| && verb in nodes[n].endpoints ::
      var e := nodes[n].endpoints[verb];
      e < |routes| && routes[e].verb == verb && HasParameters(routes[e].path) && Shape(routes[e].path) == shapes[n]
  }

  /** The trie holds exactly the routes with parameters. */
  ghost predicate BoundInTrie(nodes: seq<RouteNode>, shapes: seq<seq<Segment>>, routes: seq<Route>) {
    && |nodes| == |shapes| && TrieSound(nodes, shapes, routes)
    && (forall e | 0 <= e < |routes| && HasParameters(routes[e].path) :: HasNode(nodes, shapes, routes, e))
  }

  ghost predicate HasNode(nodes: seq<RouteNode>, shapes: seq<seq<Segment>>, routes: seq<Route>, e: nat)
    requires e < |routes| && |nodes| == |shapes|
  {
    exists n | 0 <= n < |nodes| ::
      && shapes[n] == Shape(routes[e].path) && routes[e].verb in nodes[n].endpoints
      && nodes[n].endpoints[routes[e].verb] == e
  }

  type Table = map<bytes, map<HttpMethod, nat>>

  /** Table entries are routes without parameters. */
  ghost predicate TableSound(table: Table, routes: seq<Route>) {
    forall path, verb | path in table && verb in table[path] ::
      && table[path][verb] < |routes| && routes[table[path][verb]] == Route(verb, path)
      && !HasParameters(path)
  }

  ghost predicate InTable(table: Table, routes: seq<Route>, e: nat)
    requires e < |routes|
  {
    && routes[e].path in table && routes[e].verb in table[routes[e].path]
    && table[routes[e].path][routes[e].verb] == e
  }

  /** The filter knows every path of the table, and no row is empty. */
  ghost predicate TableFiltered(table: Table, filter: (bv64, bv64)) {
    forall path | path in table :: table[path] != map[] && FilterBit(filter, StaticFilterSlot(path))
  }

  /** The table holds exactly the routes without parameters. */
  ghost predicate BoundInTable(table: Table, filter: (bv64, bv64), routes: seq<Route>) {
    && TableSound(table, routes)
    && (forall e | 0 <= e < |routes| && !HasParameters(routes[e].path) :: InTable(table, routes, e))
    && TableFiltered(table, filter)
  }

  /** Nodes may have been added, without endpoints. */
  predicate SameEndpoints(before: seq<RouteNode>, after: seq<RouteNode>) {
    && |before| <= |after|
    && (forall n | 0 <= n < |before| :: after[n].endpoints == before[n].endpoints)
    && forall n | |before| <= n < |after| :: after[n].endpoints == map[]
  }

  lemma BoundAfterGrowth(
      before: seq<RouteNode>, after: seq<RouteNode>, shapes: seq<seq<Segment>>, longer: seq<seq<Segment>>,
      routes: seq<Route>)
    requires BoundInTrie(before, shapes, routes) && SameEndpoints(before, after)
    requires shapes <= longer && |longer| == |after|
    ensures BoundInTrie(after, longer, routes)
  {
    hide Shape, HasParameters;
    forall e | 0 <= e < |routes| && HasParameters(routes[e].path) ensures HasNode(after, longer, routes, e) {
      assert HasNode(before, shapes, routes, e);
    }
  }

  function Bind(node: RouteNode, verb: HttpMethod, e: nat): RouteNode {
    node.(endpoints := node.endpoints[verb := e])
  }

  lemma BindInTrie(
      nodes: seq<RouteNode>, shapes: seq<seq<Segment>>, routes: seq<Route>, route: Route, at: nat)
    requires TrieValid(nodes, shapes) && BoundInTrie(nodes, shapes, routes) && Unambiguous(routes + [route])
    requires at < |nodes| && HasParameters(route.path) && shapes[at] == Shape(route.path)
    ensures var after := nodes[at := Bind(nodes[at], route.verb, |routes|)];
            TrieValid(after, shapes) && BoundInTrie(after, shapes, routes + [route])
  {
    var more := routes + [route];
    var after := nodes[at := Bind(nodes[at], route.verb, |routes|)];
    EndpointsAside(nodes, after, shapes);
    hide Shape, HasParameters, TrieValid;
    assert TrieSound(after, shapes, more);
    forall e | 0 <= e < |more| && HasParameters(more[e].path) ensures HasNode(after, shapes, more, e) {
      BoundNode(nodes, shapes, routes, route, at, e);
    }
  }

  lemma BoundNode(
      nodes: seq<RouteNode>, shapes: seq<seq<Segment>>, routes: seq<Route>, route: Route, at: nat, e: nat)
    requires BoundInTrie(nodes, shapes, routes) && Unambiguous(routes + [route]) && e <= |routes|
    requires at < |nodes| && HasParameters(route.path) && shapes[at] == Shape(route.path)
    requires HasParameters((routes + [route])[e].path)
    ensures HasNode(nodes[at := Bind(nodes[at], route.verb, |routes|)], shapes, routes + [route], e)
  {
    hide Shape, HasParameters, TrieSound;
    var more := routes + [route];
    var after := nodes[at := Bind(nodes[at], route.verb, |routes|)];
    if e == |routes| {
      assert after[at].endpoints[route.verb] == e;
    } else {
      assert more[e] == routes[e] && HasNode(nodes, shapes, routes, e);
      var n :| 0 <= n < |nodes| && shapes[n] == Shape(routes[e].path) && routes[e].verb in nodes[n].endpoints
               && nodes[n].endpoints[routes[e].verb] == e;
      assert !Clash(more[e], more[|routes|]);
      assert after[n].endpoints[routes[e].verb] == e;
    }
  }

  /** The table with one more entry. */
  function Row(table: Table, path: bytes): map<HttpMethod, nat> {
    if path in table then table[path] else map[]
  }

  function Enter(table: Table, route: Route, e: nat): Table {
    table[route.path := Row(table, route.path)[route.verb := e]]
  }

  lemma BindInTable(table: Table, filter: (bv64, bv64), routes: seq<Route>, route: Route)
    requires BoundInTable(table, filter, routes) && Unambiguous(routes + [route]) && !HasParameters(route.path)
    ensures BoundInTable(Enter(table, route, |routes|), SetBit(filter, StaticFilterSlot(route.path)), routes + [route])
  {
    hide HasParameters, StaticFilterSlot, SetBit, FilterBit;
    var more, after := routes + [route], Enter(table, route, |routes|);
    forall e | 0 <= e < |more| && !HasParameters(more[e].path) ensures InTable(after, more, e) {
      if e < |routes| {
        assert InTable(table, routes, e) && more[e] == routes[e];
        assert !Clash(more[e], more[|routes|]);
      }
    }
    assert TableSound(after, more) by {
      EnterSound(table, routes, route);
    }
    EnterFiltered(table, filter, route, |routes|);
  }

  lemma EnterSound(table: Table, routes: seq<Route>, route: Route)
    requires TableSound(table, routes) && !HasParameters(route.path)
    ensures TableSound(Enter(table, route, |routes|), routes + [route])
  {
    hide HasParameters;
    var more, after := routes + [route], Enter(table, route, |routes|);
    forall path, verb | path in after && verb in after[path]
      ensures after[path][verb] < |more| && more[after[path][verb]] == Route(verb, path) && !HasParameters(path)
    {
      if path != route.path || verb != route.verb {
        assert path in table && verb in table[path] && after[path][verb] == table[path][verb];
        assert more[table[path][verb]] == routes[table[path][verb]];
      }
    }
  }

  lemma EnterFiltered(table: Table, filter: (bv64, bv64), route: Route, e: nat)
    requires TableFiltered(table, filter)
    ensures TableFiltered(Enter(table, route, e), SetBit(filter, StaticFilterSlot(route.path)))
  {
    hide StaticFilterSlot, SetBit, FilterBit;
    var after := Enter(table, route, e);
    forall path | path in after
      ensures after[path] != map[] && FilterBit(SetBit(filter, StaticFilterSlot(route.path)), StaticFilterSlot(path))
    {
      FilterNeverMisses(filter, route.path, path);
      assert path == route.path ==> route.verb in after[path];
    }
  }

  lemma TrieKeepsStaticRoute(nodes: seq<RouteNode>, shapes: seq<seq<Segment>>, routes: seq<Route>, route: Route)
    requires BoundInTrie(nodes, shapes, routes) && !HasParameters(route.path)
    ensures BoundInTrie(nodes, shapes, routes + [route])
  {
    hide Shape, HasParameters;
    var more := routes + [route];
    forall e | 0 <= e < |more| && HasParameters(more[e].path) ensures HasNode(nodes, shapes, more, e) {
      assert HasNode(nodes, shapes, routes, e);
    }
  }

  lemma TableKeepsParameterRoute(table: Table, filter: (bv64, bv64), routes: seq<Route>, route: Route)
    requires BoundInTable(table, filter, routes) && HasParameters(route.path)
    ensures BoundInTable(table, filter, routes + [route])
  {
    hide HasParameters, StaticFilterSlot, FilterBit;
  }

  // ----- walking the trie -----

  /** What is left of a path during a walk, as segments. */
  function Left(rest: Option<bytes>): seq<bytes> {
    match rest
    case None => []
    case Some(text) => Split(text)
  }

  /** `split_segment`. */
  method SplitSegment(rest: bytes) returns (segment: bytes, tail: Option<bytes>)
    ensures Left(Some(rest)) == [segment] + Left(tail)
    ensures tail.Some? ==> |tail.value| < |rest|
  {
    hide Split;
    var at := 0;
    while at < |rest| && rest[at] != SLASH
      invariant 0 <= at <= |rest|
      invariant SlashAt(rest) == at + SlashAt(rest[at..])
    {
      assert rest[at..][1..] == rest[at + 1..];
      at := at + 1;
    }
    SplitFront(rest);
    if at == |rest| {
      return rest, None;
    }
    return rest[..at], Some(rest[at + 1..]);
  }

  /** `m` answers `verb` for what is left. */
  ghost predicate Answers(
      nodes: seq<RouteNode>, shapes: seq<seq<Segment>>, n: nat, segments: seq<bytes>, verb: HttpMethod, m: nat)
    requires |nodes| == |shapes|
  {
    Fitting(shapes, n, segments, m) && verb in nodes[m].endpoints
  }

  /** `m` answers, and is preferred to whatever else does. */
  ghost predicate Best(
      nodes: seq<RouteNode>, shapes: seq<seq<Segment>>, n: nat, segments: seq<bytes>, verb: HttpMethod, m: nat)
    requires |nodes| == |shapes|
  {
    && Answers(nodes, shapes, n, segments, verb, m)
    && forall other: nat | Answers(nodes, shapes, n, segments, verb, other) && other != m ::
         Better(shapes[m], shapes[other])
  }

  ghost predicate Nothing(
      nodes: seq<RouteNode>, shapes: seq<seq<Segment>>, n: nat, segments: seq<bytes>, verb: HttpMethod)
    requires |nodes| == |shapes|
  {
    forall m: nat :: !Answers(nodes, shapes, n, segments, verb, m)
  }

  /** Some node that fits has endpoints, for whatever verb. */
  ghost predicate Exists(nodes: seq<RouteNode>, shapes: seq<seq<Segment>>, n: nat, segments: seq<bytes>)
    requires |nodes| == |shapes|
  {
    exists m | 0 <= m < |nodes| :: Fitting(shapes, n, segments, m) && nodes[m].endpoints != map[]
  }

  lemma LeafBest(nodes: seq<RouteNode>, shapes: seq<seq<Segment>>, n: nat, verb: HttpMethod)
    requires TrieValid(nodes, shapes) && n < |nodes|
    ensures if verb in nodes[n].endpoints then Best(nodes, shapes, n, [], verb, n)
            else Nothing(nodes, shapes, n, [], verb)
    ensures Exists(nodes, shapes, n, []) <==> nodes[n].endpoints != map[]
    ensures Fitting(shapes, n, [], n) && CapturedFrom(shapes, n, [], n) == []
  {
    forall m: nat ensures Fitting(shapes, n, [], m) <==> m == n {
      FittingHere(nodes, shapes, n, m);
    }
    hide TrieValid, Better;
  }

  /** The children a walk tries at node `n`. */
  function StaticChildOf(nodes: seq<RouteNode>, n: nat, segments: seq<bytes>): Option<nat>
    requires n < |nodes| && segments != []
  {
    FindChild(nodes[n].staticChildren, segments[0])
  }

  lemma FittingSplit(nodes: seq<RouteNode>, shapes: seq<seq<Segment>>, n: nat, segments: seq<bytes>, m: nat)
    requires TrieValid(nodes, shapes) && n < |nodes| && segments != []
    ensures var c := StaticChildOf(nodes, n, segments);
            var p := nodes[n].parameterChild;
            && (Fitting(shapes, n, segments, m) <==>
                  || (c.Some? && Fitting(shapes, c.value, segments[1..], m))
                  || (p.Some? && Fitting(shapes, p.value, segments[1..], m)))
            && (c.Some? && Fitting(shapes, c.value, segments[1..], m) ==> shapes[m][|shapes[n]|].Static?)
            && (p.Some? && Fitting(shapes, p.value, segments[1..], m) ==> shapes[m][|shapes[n]|].Parameter?)
  {
    FoundIsChild(nodes, shapes, n, segments[0]);
    var c, p := StaticChildOf(nodes, n, segments), nodes[n].parameterChild;
    if Fitting(shapes, n, segments, m) {
      FittingSplits(nodes, shapes, n, segments, m);
    }
    if c.Some? && Fitting(shapes, c.value, segments[1..], m) {
      FittingThrough(shapes, n, segments, Static(segments[0]), c.value, m);
    }
    if p.Some? && Fitting(shapes, p.value, segments[1..], m) {
      FittingThrough(shapes, n, segments, Parameter, p.value, m);
    }
  }

  /** An answer through the static child is the best there is. */
  lemma StaticBest(
      nodes: seq<RouteNode>, shapes: seq<seq<Segment>>, n: nat, segments: seq<bytes>, verb: HttpMethod, m: nat)
    requires TrieValid(nodes, shapes) && n < |nodes| && segments != []
    requires StaticChildOf(nodes, n, segments).Some?
    requires Best(nodes, shapes, StaticChildOf(nodes, n, segments).value, segments[1..], verb, m)
    ensures Best(nodes, shapes, n, segments, verb, m)
    ensures CapturedFrom(shapes, n, segments, m)
            == CapturedFrom(shapes, StaticChildOf(nodes, n, segments).value, segments[1..], m)
  {
    var c := StaticChildOf(nodes, n, segments).value;
    FittingSplit(nodes, shapes, n, segments, m);
    FoundIsChild(nodes, shapes, n, segments[0]);
    CapturedThrough(shapes, n, segments, Static(segments[0]), c, m);
    hide TrieValid, Better;
    forall other: nat | Answers(nodes, shapes, n, segments, verb, other) && other != m
      ensures Better(shapes[m], shapes[other])
    {
      FittingSplit(nodes, shapes, n, segments, other);
      if shapes[other][|shapes[n]|].Parameter? {
        StaticBeatsParameter(shapes, n, segments, m, other);
      }
    }
  }

  /** Without one, an answer through the parameter child is. */
  lemma ParameterBest(
      nodes: seq<RouteNode>, shapes: seq<seq<Segment>>, n: nat, segments: seq<bytes>, verb: HttpMethod, m: nat)
    requires TrieValid(nodes, shapes) && n < |nodes| && segments != []
    requires StaticChildOf(nodes, n, segments).Some? ==>
               Nothing(nodes, shapes, StaticChildOf(nodes, n, segments).value, segments[1..], verb)
    requires nodes[n].parameterChild.Some?
    requires Best(nodes, shapes, nodes[n].parameterChild.value, segments[1..], verb, m)
    ensures Best(nodes, shapes, n, segments, verb, m)
    ensures CapturedFrom(shapes, n, segments, m)
            == [segments[0]] + CapturedFrom(shapes, nodes[n].parameterChild.value, segments[1..], m)
  {
    var p := nodes[n].parameterChild.value;
    FittingSplit(nodes, shapes, n, segments, m);
    FoundIsChild(nodes, shapes, n, segments[0]);
    CapturedThrough(shapes, n, segments, Parameter, p, m);
    hide TrieValid, Better;
    forall other: nat | Answers(nodes, shapes, n, segments, verb, other) && other != m
      ensures Better(shapes[m], shapes[other])
    {
      FittingSplit(nodes, shapes, n, segments, other);
      if StaticChildOf(nodes, n, segments).Some? {
        assert !Answers(nodes, shapes, StaticChildOf(nodes, n, segments).value, segments[1..], verb, other);
      }
      assert Answers(nodes, shapes, p, segments[1..], verb, other);
    }
  }

  lemma NothingBelow(
      nodes: seq<RouteNode>, shapes: seq<seq<Segment>>, n: nat, segments: seq<bytes>, verb: HttpMethod)
    requires TrieValid(nodes, shapes) && n < |nodes| && segments != []
    requires StaticChildOf(nodes, n, segments).Some? ==>
               Nothing(nodes, shapes, StaticChildOf(nodes, n, segments).value, segments[1..], verb)
    requires nodes[n].parameterChild.Some? ==>
               Nothing(nodes, shapes, nodes[n].parameterChild.value, segments[1..], verb)
    ensures Nothing(nodes, shapes, n, segments, verb)
  {
    forall m: nat ensures !Answers(nodes, shapes, n, segments, verb, m) {
      FittingSplit(nodes, shapes, n, segments, m);
      if StaticChildOf(nodes, n, segments).Some? {
        assert !Answers(nodes, shapes, StaticChildOf(nodes, n, segments).value, segments[1..], verb, m);
      }
      if nodes[n].parameterChild.Some? {
        assert !Answers(nodes, shapes, nodes[n].parameterChild.value, segments[1..], verb, m);
      }
    }
  }

  lemma ExistsSplit(nodes: seq<RouteNode>, shapes: seq<seq<Segment>>, n: nat, segments: seq<bytes>)
    requires TrieValid(nodes, shapes) && n < |nodes| && segments != []
    ensures var c, p := StaticChildOf(nodes, n, segments), nodes[n].parameterChild;
            Exists(nodes, shapes, n, segments) <==>
              || (c.Some? && Exists(nodes, shapes, c.value, segments[1..]))
              || (p.Some? && Exists(nodes, shapes, p.value, segments[1..]))
  {
    forall m: nat ensures Fitting(shapes, n, segments, m) <==>
                       || (StaticChildOf(nodes, n, segments).Some?
                           && Fitting(shapes, StaticChildOf(nodes, n, segments).value, segments[1..], m))
                       || (nodes[n].parameterChild.Some?
                           && Fitting(shapes, nodes[n].parameterChild.value, segments[1..], m))
    {
      FittingSplit(nodes, shapes, n, segments, m);
    }
    hide TrieValid;
  }

  lemma NothingSplit(
      nodes: seq<RouteNode>, shapes: seq<seq<Segment>>, n: nat, segments: seq<bytes>, verb: HttpMethod)
    requires TrieValid(nodes, shapes) && n < |nodes| && segments != []
    ensures var c, p := StaticChildOf(nodes, n, segments), nodes[n].parameterChild;
            Nothing(nodes, shapes, n, segments, verb) <==>
              && (c.Some? ==> Nothing(nodes, shapes, c.value, segments[1..], verb))
              && (p.Some? ==> Nothing(nodes, shapes, p.value, segments[1..], verb))
  {
    var c, p := StaticChildOf(nodes, n, segments), nodes[n].parameterChild;
    forall m: nat
      ensures c.Some? && Answers(nodes, shapes, c.value, segments[1..], verb, m) ==> Answers(nodes, shapes, n, segments, verb, m)
      ensures p.Some? && Answers(nodes, shapes, p.value, segments[1..], verb, m) ==> Answers(nodes, shapes, n, segments, verb, m)
    {
      FittingSplit(nodes, shapes, n, segments, m);
    }
    if (c.Some? ==> Nothing(nodes, shapes, c.value, segments[1..], verb))
       && (p.Some? ==> Nothing(nodes, shapes, p.value, segments[1..], verb)) {
      NothingBelow(nodes, shapes, n, segments, verb);
    }
    hide TrieValid, Fitting;
  }

  // ----- the router against a scan of the list -----

  lemma TableHit(table: Table, filter: (bv64, bv64), routes: seq<Route>, verb: HttpMethod, path: bytes)
    requires BoundInTable(table, filter, routes) && path in table && verb in table[path]
    ensures Preferred(routes, table[path][verb], verb, path)
  {
    hide Shape, HasParameters, TableFiltered, Better;
    var e := table[path][verb];
    forall other: nat | Serves(routes, other, verb, path) && !HasParameters(routes[other].path) ensures other == e {
      assert InTable(table, routes, other);
    }
    forall other: nat | Serves(routes, other, verb, path) && other != e
      ensures Better(Shape(routes[e].path), Shape(routes[other].path))
    {
      LiteralBeatsPattern(path, routes[other].path);
    }
  }

  /** The static routes that serve a path are the path's row. */
  lemma RowServes(table: Table, filter: (bv64, bv64), routes: seq<Route>, verb: HttpMethod, path: bytes, e: nat)
    requires BoundInTable(table, filter, routes)
    requires Serves(routes, e, verb, path) && !HasParameters(routes[e].path)
    ensures path in table && verb in table[path] && table[path][verb] == e
  {
    hide HasParameters, TableFiltered;
    assert InTable(table, routes, e);
  }

  /** The routes with parameters that serve a path are what the trie answers. */
  lemma TrieServes(
      nodes: seq<RouteNode>, shapes: seq<seq<Segment>>, routes: seq<Route>, verb: HttpMethod, path: bytes, e: nat)
    requires TrieValid(nodes, shapes) && BoundInTrie(nodes, shapes, routes)
    requires Serves(routes, e, verb, path) && HasParameters(routes[e].path)
    ensures exists m: nat :: && Answers(nodes, shapes, 0, Segments(path), verb, m)
                             && nodes[m].endpoints[verb] == e && shapes[m] == Shape(routes[e].path)
  {
    hide Shape, HasParameters;
    assert HasNode(nodes, shapes, routes, e);
    var m :| 0 <= m < |nodes| && shapes[m] == Shape(routes[e].path) && routes[e].verb in nodes[m].endpoints
             && nodes[m].endpoints[routes[e].verb] == e;
    assert Answers(nodes, shapes, 0, Segments(path), verb, m);
  }

  lemma TrieAnswer(
      nodes: seq<RouteNode>, shapes: seq<seq<Segment>>, routes: seq<Route>, verb: HttpMethod, path: bytes, m: nat)
    requires TrieValid(nodes, shapes) && BoundInTrie(nodes, shapes, routes)
    requires Answers(nodes, shapes, 0, Segments(path), verb, m)
    ensures var e := nodes[m].endpoints[verb];
            Serves(routes, e, verb, path) && HasParameters(routes[e].path) && shapes[m] == Shape(routes[e].path)
  {
    hide Shape, HasParameters;
  }

  lemma TrieHit(
      nodes: seq<RouteNode>, shapes: seq<seq<Segment>>, table: Table, filter: (bv64, bv64), routes: seq<Route>,
      verb: HttpMethod, path: bytes, m: nat)
    requires TrieValid(nodes, shapes) && BoundInTrie(nodes, shapes, routes) && BoundInTable(table, filter, routes)
    requires path in table ==> verb !in table[path]
    requires Best(nodes, shapes, 0, Segments(path), verb, m)
    ensures Preferred(routes, nodes[m].endpoints[verb], verb, path)
    ensures shapes[m] == Shape(routes[nodes[m].endpoints[verb]].path)
  {
    TrieAnswer(nodes, shapes, routes, verb, path, m);
    var e := nodes[m].endpoints[verb];
    hide Shape, HasParameters, Better, Matches, Fitting, TrieValid, BoundInTrie, BoundInTable;
    forall other: nat | Serves(routes, other, verb, path) && other != e
      ensures Better(Shape(routes[e].path), Shape(routes[other].path))
    {
      if !HasParameters(routes[other].path) {
        RowServes(table, filter, routes, verb, path, other);
      } else {
        TrieServes(nodes, shapes, routes, verb, path, other);
        var n: nat :| && Answers(nodes, shapes, 0, Segments(path), verb, n)
                      && nodes[n].endpoints[verb] == other && shapes[n] == Shape(routes[other].path);
      }
    }
  }

  /** A verb is served by the path's row or by the trie. */
  lemma ServedWhere(
      nodes: seq<RouteNode>, shapes: seq<seq<Segment>>, table: Table, filter: (bv64, bv64), routes: seq<Route>,
      verb: HttpMethod, path: bytes)
    requires TrieValid(nodes, shapes) && BoundInTrie(nodes, shapes, routes) && BoundInTable(table, filter, routes)
    ensures Served(routes, verb, path) <==>
              verb in Row(table, path) || !Nothing(nodes, shapes, 0, Segments(path), verb)
  {
    hide TrieSound, HasNode, BoundInTable, TrieValid, Answers, Serves;
    if verb in Row(table, path) {
      RowServed(table, filter, routes, verb, path);
    } else if !Nothing(nodes, shapes, 0, Segments(path), verb) {
      var m: nat :| Answers(nodes, shapes, 0, Segments(path), verb, m);
      AnswerServed(nodes, shapes, routes, verb, path, m);
    } else if Served(routes, verb, path) {
      var e: nat :| Serves(routes, e, verb, path);
      NothingServes(nodes, shapes, table, filter, routes, verb, path, e);
    }
  }

  lemma RowServed(table: Table, filter: (bv64, bv64), routes: seq<Route>, verb: HttpMethod, path: bytes)
    requires BoundInTable(table, filter, routes) && verb in Row(table, path)
    ensures Served(routes, verb, path)
  {
    hide HasParameters;
    assert Serves(routes, table[path][verb], verb, path);
  }

  lemma AnswerServed(
      nodes: seq<RouteNode>, shapes: seq<seq<Segment>>, routes: seq<Route>, verb: HttpMethod, path: bytes, m: nat)
    requires TrieValid(nodes, shapes) && BoundInTrie(nodes, shapes, routes)
    requires Answers(nodes, shapes, 0, Segments(path), verb, m)
    ensures Served(routes, verb, path)
  {
    TrieAnswer(nodes, shapes, routes, verb, path, m);
    hide Serves;
    assert Serves(routes, nodes[m].endpoints[verb], verb, path);
  }

  lemma NothingServes(
      nodes: seq<RouteNode>, shapes: seq<seq<Segment>>, table: Table, filter: (bv64, bv64), routes: seq<Route>,
      verb: HttpMethod, path: bytes, e: nat)
    requires TrieValid(nodes, shapes) && BoundInTrie(nodes, shapes, routes) && BoundInTable(table, filter, routes)
    requires Serves(routes, e, verb, path)
    ensures verb in Row(table, path) || !Nothing(nodes, shapes, 0, Segments(path), verb)
  {
    hide Shape, HasParameters, Better, Fitting, TrieValid, BoundInTrie, BoundInTable, Matches;
    if HasParameters(routes[e].path) {
      TrieServes(nodes, shapes, routes, verb, path, e);
    } else {
      RowServes(table, filter, routes, verb, path, e);
    }
  }

  // ----- the router -----

  /** The names of a pattern's parameters, in order. */
  function ParameterNames(segments: seq<bytes>): seq<bytes> {
    if segments == [] then []
    else
      var last := segments[|segments| - 1];
      ParameterNames(segments[..|segments| - 1])
      + if IsParameter(last) then [last[1..|last| - 1]] else []
  }

  /** A name is collected exactly when some segment is that name in braces. */
  lemma {:induction false} NamesExactly(segments: seq<bytes>, name: bytes)
    requires name != []
    ensures name in ParameterNames(segments) <==> [123] + name + [125] in segments
  {
    if segments != [] {
      var init, last := segments[..|segments| - 1], segments[|segments| - 1];
      NamesExactly(init, name);
      assert segments == init + [last];
      if IsParameter(last) {
        assert last == [123] + last[1..|last| - 1] + [125];
        assert last == [123] + name + [125] ==> last[1..|last| - 1] == name;
      } else {
        ParameterExactly([123] + name + [125]);
      }
      hide IsParameter;
    }
  }

  method CollectNames(segments: seq<bytes>) returns (names: seq<bytes>)
    ensures names == ParameterNames(segments)
  {
    names := [];
    var at := 0;
    while at < |segments|
      invariant 0 <= at <= |segments| && names == ParameterNames(segments[..at])
    {
      var segment := segments[at];
      assert segments[..at + 1][..at] == segments[..at];
      if IsParameter(segment) {
        names := names + [segment[1..|segment| - 1]];
      }
      at := at + 1;
    }
    assert segments[..at] == segments;
  }

  lemma {:induction false} NamesOfParameters(segments: seq<bytes>)
    ensures ParameterNames(segments) == [] <==> forall i | 0 <= i < |segments| :: !IsParameter(segments[i])
  {
    if segments != [] {
      NamesOfParameters(segments[..|segments| - 1]);
    }
  }

  /** A pattern has names just when it has parameters. */
  lemma ParametersNamed(path: bytes)
    ensures ParameterNames(Segments(path)) == [] <==> !HasParameters(path)
  {
    var segments := Segments(path);
    NamesOfParameters(segments);
    assert forall i | 0 <= i < |segments| :: Shape(path)[i] == SegmentOf(segments[i]);
    hide Segments, ParameterNames;
  }

  lemma TrieSized(nodes: seq<RouteNode>, shapes: seq<seq<Segment>>)
    requires TrieValid(nodes, shapes)
    ensures |nodes| == |shapes| >= 1 && shapes[0] == []
  {
  }

  lemma BestFits(
      nodes: seq<RouteNode>, shapes: seq<seq<Segment>>, n: nat, segments: seq<bytes>, verb: HttpMethod, m: nat)
    requires |nodes| == |shapes| && Best(nodes, shapes, n, segments, verb, m)
    ensures Fitting(shapes, n, segments, m) && m < |nodes| && verb in nodes[m].endpoints
  {
    hide Better;
  }

  lemma FittingBounds(shapes: seq<seq<Segment>>, n: nat, segments: seq<bytes>, m: nat)
    requires Fitting(shapes, n, segments, m)
    ensures m < |shapes|
  {
  }

  lemma PushedFirst(before: seq<bytes>, segment: bytes, rest: seq<bytes>)
    ensures before + [segment] + rest == before + ([segment] + rest)
  {
  }

  lemma BestIsSomething(
      nodes: seq<RouteNode>, shapes: seq<seq<Segment>>, n: nat, segments: seq<bytes>, verb: HttpMethod, m: nat)
    requires |nodes| == |shapes|
    ensures Best(nodes, shapes, n, segments, verb, m) ==> !Nothing(nodes, shapes, n, segments, verb)
  {
    hide Fitting, Better;
  }

  ghost predicate InOrder(verbs: seq<HttpMethod>) {
    forall i, j | 0 <= i < j < |verbs| :: MethodIndex(verbs[i]) < MethodIndex(verbs[j])
  }

  lemma IndexOfMethods(at: nat)
    requires at < |METHODS|
    ensures MethodIndex(METHODS[at]) == at
    ensures forall verb :: MethodIndex(verb) == at <==> verb == METHODS[at]
  {
  }

  lemma DeclarationOrder()
    ensures MethodIndex(Get) < MethodIndex(Head) < MethodIndex(Post) < MethodIndex(Put) < MethodIndex(Patch)
            < MethodIndex(Delete) < MethodIndex(Options) < MethodIndex(Trace) < MethodIndex(Connect)
  {
  }

  lemma InOrderAppend(verbs: seq<HttpMethod>, verb: HttpMethod)
    requires InOrder(verbs) && forall v | v in verbs :: MethodIndex(v) < MethodIndex(verb)
    ensures InOrder(verbs + [verb])
  {
  }

  /** A route's captures put back into its pattern give the path. */
  ghost predicate CapturesFit(route: Route, path: bytes, captures: seq<bytes>) {
    if HasParameters(route.path) then
      Filled(Shape(route.path), captures) == Some(Segments(path)) && Join(Segments(path)) == TrimLeadingSlash(path)
    else captures == [] && route.path == path
  }

  datatype RouteMatch = RouteMatch(endpoint: nat, captures: seq<bytes>)

  class Router {
    var nodes: seq<RouteNode>
    var endpoints: seq<Endpoint>
    var staticRoutes: Table
    var staticFilter: (bv64, bv64)
    ghost var shapes: seq<seq<Segment>>
    ghost var routes: seq<Route>

    constructor ()
      ensures Valid() && routes == []
    {
      nodes, endpoints, staticRoutes, staticFilter := [EMPTY_NODE], [], map[], (0, 0);
      shapes, routes := [[]], [];
    }

    ghost predicate Valid()
      reads this
    {
      && TrieValid(nodes, shapes) && BoundInTrie(nodes, shapes, routes)
      && BoundInTable(staticRoutes, staticFilter, routes)
      && |endpoints| == |routes|
      && forall e | 0 <= e < |routes| :: endpoints[e].parameterNames == ParameterNames(Segments(routes[e].path))
    }

    /** The node one segment further, made if need be. */
    method Descend(n: nat, text: bytes) returns (child: nat)
      requires TrieValid(nodes, shapes) && n < |nodes|
      modifies this`nodes, this`shapes
      ensures TrieValid(nodes, shapes) && SameEndpoints(old(nodes), nodes) && old(shapes) <= shapes
      ensures child < |nodes| && shapes[child] == old(shapes)[n] + [SegmentOf(text)]
    {
      FoundIsChild(nodes, shapes, n, text);
      var x := SegmentOf(text);
      if IsParameter(text) && nodes[n].parameterChild.Some? {
        return nodes[n].parameterChild.value;
      }
      if !IsParameter(text) {
        var found := FindChild(nodes[n].staticChildren, text);
        if found.Some? {
          return found.value;
        }
      }
      child := |nodes|;
      AddChild(nodes, shapes, n, x);
      nodes := nodes[n := WithLink(nodes[n], x, child)] + [EMPTY_NODE];
      shapes := shapes + [shapes[n] + [x]];
    }

    /** The node of a whole pattern, made if need be. */
    method DescendAll(segments: seq<bytes>) returns (node: nat)
      requires TrieValid(nodes, shapes)
      modifies this`nodes, this`shapes
      ensures TrieValid(nodes, shapes) && SameEndpoints(old(nodes), nodes) && old(shapes) <= shapes
      ensures node < |nodes| && shapes[node] == ShapeOf(segments)
    {
      node := 0;
      var at := 0;
      while at < |segments|
        invariant 0 <= at <= |segments|
        invariant TrieValid(nodes, shapes) && SameEndpoints(old(nodes), nodes) && old(shapes) <= shapes
        invariant node < |nodes| && shapes[node] == ShapeOf(segments[..at])
      {
        hide TrieValid;
        assert |nodes| == |shapes| by {
          TrieSized(nodes, shapes);
        }
        assert ShapeOf(segments[..at]) + [SegmentOf(segments[at])] == ShapeOf(segments[..at + 1]);
        node := Descend(node, segments[at]);
        at := at + 1;
      }
      assert segments[..at] == segments;
    }

    /** `insert`: into the table or into the trie. */
    method Insert(route: Route)
      requires Valid() && Unambiguous(routes + [route])
      modifies this
      ensures Valid() && routes == old(routes) + [route]
    {
      hide TrieValid, BoundInTrie, BoundInTable, Unambiguous;
      var segments := Segments(route.path);
      var names := CollectNames(segments);
      ParametersNamed(route.path);
      if names == [] {
        var path := route.path;
        BindInTable(staticRoutes, staticFilter, routes, route);
        TrieKeepsStaticRoute(nodes, shapes, routes, route);
        staticFilter := SetBit(staticFilter, StaticFilterSlot(path));
        var row := if path in staticRoutes then staticRoutes[path] else map[];
        staticRoutes := staticRoutes[path := row[route.verb := |endpoints|]];
      } else {
        ghost var before, known := nodes, shapes;
        var node := DescendAll(segments);
        TrieSized(nodes, shapes);
        BoundAfterGrowth(before, nodes, known, shapes, routes);
        BindInTrie(nodes, shapes, routes, route, node);
        TableKeepsParameterRoute(staticRoutes, staticFilter, routes, route);
        nodes := nodes[node := nodes[node].(endpoints := nodes[node].endpoints[route.verb := |endpoints|])];
      }
      endpoints := endpoints + [Endpoint(names)];
      routes := routes + [route];
    }

    /** `Router::new`, over the routes of a built application. */
    static method Compile(routes: seq<Route>) returns (router: Router)
      requires Unambiguous(routes)
      ensures fresh(router) && router.Valid() && router.routes == routes
    {
      router := new Router();
      var at := 0;
      while at < |routes|
        invariant 0 <= at <= |routes|
        invariant fresh(router) && router.Valid() && router.routes == routes[..at]
      {
        assert routes[..at] + [routes[at]] == routes[..at + 1];
        router.Insert(routes[at]);
        at := at + 1;
      }
      assert routes[..at] == routes;
    }

    /**
     `walk`: the preferred node, its captures pushed; or nothing, the captures restored, and whether
     the path exists at all noted.
     */
    method Walk(n: nat, rest: Option<bytes>, verb: HttpMethod, captures: CapturedSegments, noted: bool)
        returns (found: Option<nat>, others: bool, ghost node: nat)
      requires Valid() && n < |nodes| && captures.Valid()
      modifies captures
      ensures captures.Valid()
      ensures found.Some? ==>
                && Best(nodes, shapes, n, Left(rest), verb, node) && found.value == nodes[node].endpoints[verb]
                && captures.Stack() == old(captures.Stack()) + CapturedFrom(shapes, n, Left(rest), node)
      ensures found.None? ==>
                && Nothing(nodes, shapes, n, Left(rest), verb) && captures.Stack() == old(captures.Stack())
                && (others <==> noted || Exists(nodes, shapes, n, Left(rest)))
      decreases if rest.None? then 0 else |rest.value| + 1, 0
    {
      hide TrieValid, BoundInTrie, BoundInTable, Best, Nothing, Exists, CapturedFrom, Fitting, Split, FindChild, Child;
      TrieSized(nodes, shapes);
      others, node := noted, n;
      if rest.None? {
        LeafBest(nodes, shapes, n, verb);
        if verb !in nodes[n].endpoints {
          return None, noted || nodes[n].endpoints != map[], n;
        }
        return Some(nodes[n].endpoints[verb]), noted, n;
      }
      var segment, tail := SplitSegment(rest.value);
      ghost var segments := Left(rest);
      assert segments[1..] == Left(tail) && segments[0] == segment;
      FoundIsChild(nodes, shapes, n, segment);
      ExistsSplit(nodes, shapes, n, segments);
      var child := FindChild(nodes[n].staticChildren, segment);
      if child.Some? {
        found, others, node := Walk(child.value, tail, verb, captures, others);
        if found.Some? {
          BestFits(nodes, shapes, child.value, segments[1..], verb, node);
          StaticBest(nodes, shapes, n, segments, verb, node);
          return;
        }
      }
      if nodes[n].parameterChild.None? {
        NothingSplit(nodes, shapes, n, segments, verb);
        return None, others, n;
      }
      found, others, node := WalkParameter(n, segment, tail, segments, verb, captures, others);
    }

    /** The second half of a step: descend through the parameter child, popping on failure. */
    method WalkParameter(n: nat, segment: bytes, tail: Option<bytes>, ghost segments: seq<bytes>, verb: HttpMethod,
                         captures: CapturedSegments, noted: bool)
        returns (found: Option<nat>, others: bool, ghost node: nat)
      requires Valid() && n < |nodes| && captures.Valid() && nodes[n].parameterChild.Some?
      requires segments == [segment] + Left(tail)
      requires StaticChildOf(nodes, n, segments).Some? ==>
                 Nothing(nodes, shapes, StaticChildOf(nodes, n, segments).value, segments[1..], verb)
      modifies captures
      ensures captures.Valid()
      ensures found.Some? ==>
                && Best(nodes, shapes, n, segments, verb, node) && found.value == nodes[node].endpoints[verb]
                && captures.Stack() == old(captures.Stack()) + CapturedFrom(shapes, n, segments, node)
      ensures found.None? ==>
                && Nothing(nodes, shapes, n, segments, verb) && captures.Stack() == old(captures.Stack())
                && (others <==> noted || Exists(nodes, shapes, nodes[n].parameterChild.value, segments[1..]))
      decreases if tail.None? then 0 else |tail.value| + 1, 1
    {
      hide TrieValid, BoundInTrie, BoundInTable, Best, Nothing, Exists, CapturedFrom, Fitting, Split, FindChild, Child;
      TrieSized(nodes, shapes);
      assert segments[1..] == Left(tail) && segments[0] == segment;
      FoundIsChild(nodes, shapes, n, segment);
      ghost var before := captures.Stack();
      var child := nodes[n].parameterChild.value;
      captures.Push(segment);
      found, others, node := Walk(child, tail, verb, captures, noted);
      if found.Some? {
        BestFits(nodes, shapes, child, segments[1..], verb, node);
        ParameterBest(nodes, shapes, n, segments, verb, node);
        PushedFirst(before, segment, CapturedFrom(shapes, child, segments[1..], node));
        return;
      }
      captures.Pop();
      assert (before + [segment])[..|before|] == before;
      NothingSplit(nodes, shapes, n, segments, verb);
    }

    /** `collect_methods`: every verb the path exists for. */
    method CollectMethods(n: nat, rest: Option<bytes>, known: set<HttpMethod>) returns (verbs: set<HttpMethod>)
      requires Valid() && n < |nodes|
      ensures forall verb :: verb in verbs <==> verb in known || !Nothing(nodes, shapes, n, Left(rest), verb)
      decreases if rest.None? then 0 else |rest.value| + 1
    {
      hide TrieValid, BoundInTable, Nothing;
      TrieSized(nodes, shapes);
      if rest.None? {
        forall verb ensures verb in nodes[n].endpoints <==> !Nothing(nodes, shapes, n, [], verb) {
          LeafBest(nodes, shapes, n, verb);
          BestIsSomething(nodes, shapes, n, [], verb, n);
        }
        return known + nodes[n].endpoints.Keys;
      }
      var segment, tail := SplitSegment(rest.value);
      ghost var segments := Left(rest);
      assert segments[1..] == Left(tail) && segments[0] == segment;
      FoundIsChild(nodes, shapes, n, segment);
      forall verb
        ensures var c, p := StaticChildOf(nodes, n, segments), nodes[n].parameterChild;
                Nothing(nodes, shapes, n, segments, verb) <==>
                  && (c.Some? ==> Nothing(nodes, shapes, c.value, segments[1..], verb))
                  && (p.Some? ==> Nothing(nodes, shapes, p.value, segments[1..], verb))
      {
        NothingSplit(nodes, shapes, n, segments, verb);
      }
      verbs := known;
      var child := FindChild(nodes[n].staticChildren, segment);
      if child.Some? {
        verbs := CollectMethods(child.value, tail, verbs);
      }
      if nodes[n].parameterChild.Some? {
        verbs := CollectMethods(nodes[n].parameterChild.value, tail, verbs);
      }
    }

    /** `allowed_methods`: in declaration order. */
    method AllowedMethods(path: bytes, row: set<HttpMethod>) returns (allowed: seq<HttpMethod>)
      requires Valid()
      ensures forall verb :: verb in allowed <==> verb in row || !Nothing(nodes, shapes, 0, Segments(path), verb)
      ensures InOrder(allowed)
    {
      hide TrieValid, BoundInTable, Nothing, Valid;
      ValidRoot();
      var verbs := CollectMethods(0, Some(TrimLeadingSlash(path)), row);
      allowed := [];
      var at := 0;
      while at < |METHODS|
        invariant 0 <= at <= |METHODS|
        invariant forall verb :: verb in allowed <==> verb in verbs && MethodIndex(verb) < at
        invariant InOrder(allowed)
      {
        IndexOfMethods(at);
        if METHODS[at] in verbs {
          InOrderAppend(allowed, METHODS[at]);
          allowed := allowed + [METHODS[at]];
        }
        at := at + 1;
      }
    }

    lemma ValidRoot()
      requires Valid()
      ensures 0 < |nodes| && |nodes| == |shapes| && shapes[0] == []
    {
    }

    lemma FilterKnows(path: bytes)
      requires Valid()
      ensures path in staticRoutes ==> FilterBit(staticFilter, StaticFilterSlot(path)) && staticRoutes[path] != map[]
    {
      hide TrieValid, BoundInTrie, StaticFilterSlot, FilterBit;
    }

    lemma StaticCaptures(path: bytes, e: nat)
      requires Valid() && path in staticRoutes && exists verb :: verb in staticRoutes[path] && staticRoutes[path][verb] == e
      ensures e < |routes| && CapturesFit(routes[e], path, [])
    {
      hide TrieValid, BoundInTrie, StaticFilterSlot, FilterBit, HasParameters;
    }

    lemma TrieCaptures(path: bytes, verb: HttpMethod, node: nat, captures: seq<bytes>)
      requires Valid() && Best(nodes, shapes, 0, Segments(path), verb, node)
      requires Fitting(shapes, 0, Segments(path), node) && captures == CapturedFrom(shapes, 0, Segments(path), node)
      ensures var e := nodes[node].endpoints[verb];
              e < |routes| && CapturesFit(routes[e], path, captures)
    {
      TrieSized(nodes, shapes);
      TrieAnswer(nodes, shapes, routes, verb, path, node);
      hide TrieValid, BoundInTrie, BoundInTable, Segments, HasParameters, Shape, Better;
      assert shapes[node][0..] == shapes[node];
      FilledCaptured(shapes[node], Segments(path));
      JoinSegments(path);
    }

    lemma JoinSegments(path: bytes)
      ensures Join(Segments(path)) == TrimLeadingSlash(path)
    {
      JoinSplit(TrimLeadingSlash(path));
    }

    /** Some endpoint fits the path just when some verb does. */
    lemma ExistsSomeVerb(path: bytes)
      requires |nodes| == |shapes|
      ensures Exists(nodes, shapes, 0, Segments(path)) <==> exists v :: !Nothing(nodes, shapes, 0, Segments(path), v)
    {
      var segments := Segments(path);
      hide Segments, Fitting;
      if Exists(nodes, shapes, 0, segments) {
        var m :| 0 <= m < |nodes| && Fitting(shapes, 0, segments, m) && nodes[m].endpoints != map[];
        var v :| v in nodes[m].endpoints;
        assert Answers(nodes, shapes, 0, segments, v, m);
        assert !Nothing(nodes, shapes, 0, segments, v);
      }
      if v :| !Nothing(nodes, shapes, 0, segments, v) {
        var m: nat :| Answers(nodes, shapes, 0, segments, v, m);
        FittingBounds(shapes, 0, segments, m);
      }
    }

    /** `recognize`: what a list scan that prefers static segments would answer. */
    method Recognize(verb: HttpMethod, path: bytes) returns (result: Result<RouteMatch, RouteError>)
      requires Valid()
      ensures match result
              case Ok(matched) =>
                && matched.endpoint < |routes| && Preferred(routes, matched.endpoint, verb, path)
                && CapturesFit(routes[matched.endpoint], path, matched.captures)
              case Err(NotFound) => forall v :: !Served(routes, v, path)
              case Err(MethodNotAllowed(allowed)) =>
                && verb !in allowed && allowed != [] && InOrder(allowed)
                && forall v :: v in allowed <==> Served(routes, v, path)
    {
      hide TrieValid, BoundInTrie, BoundInTable, Best, Nothing, Exists, CapturedFrom, Served, Preferred, CapturesFit, Fitting, Split, StaticFilterSlot, FilterBit;
      ValidRoot();
      var slot: Option<map<HttpMethod, nat>> := None;
      if FilterBit(staticFilter, StaticFilterSlot(path)) && path in staticRoutes {
        slot := Some(staticRoutes[path]);
      }
      FilterKnows(path);
      assert slot.None? ==> Row(staticRoutes, path) == map[];
      if slot.Some? && verb in slot.value {
        TableHit(staticRoutes, staticFilter, routes, verb, path);
        StaticCaptures(path, slot.value[verb]);
        return Ok(RouteMatch(slot.value[verb], []));
      }
      var captures := new CapturedSegments();
      var found, others;
      ghost var node;
      found, others, node := Walk(0, Some(TrimLeadingSlash(path)), verb, captures, false);
      if found.Some? {
        TrieHit(nodes, shapes, staticRoutes, staticFilter, routes, verb, path, node);
        BestFits(nodes, shapes, 0, Segments(path), verb, node);
        TrieCaptures(path, verb, node, captures.Stack());
        return Ok(RouteMatch(found.value, captures.Stack()));
      }
      ghost var here := Row(staticRoutes, path);
      forall v ensures Served(routes, v, path) <==> v in here || !Nothing(nodes, shapes, 0, Segments(path), v) {
        ServedWhere(nodes, shapes, staticRoutes, staticFilter, routes, v, path);
      }
      ExistsSomeVerb(path);
      var row := if slot.Some? then slot.value.Keys else {};
      if row == {} && !others {
        return Err(NotFound);
      }
      var allowed := AllowedMethods(path, row);
      return Err(MethodNotAllowed(allowed));
    }
  }
}
