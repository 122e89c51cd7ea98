/**
 Middleware scopes and the two security checks: the one at startup, on route patterns, and the one
 at dispatch, on concrete paths.
 */
module SecurityCoverage {
  import opened Bytes
  import opened RouteShapes

  datatype OperationPredicate =
    | Exact(id: bytes)
    | Prefix(id: bytes)
    | Filter(accepts: bytes -> bool)

  datatype Scope = Scope(prefixes: seq<bytes>, operations: seq<OperationPredicate>)

  datatype Layer = Layer(scope: Scope, verifiesSecurity: bool)

  /** An operation as the checks see it. */
  datatype Operation = Operation(id: bytes, route: Route, schemes: seq<bytes>)

  function TrimEndSlashes(prefix: bytes): (trimmed: bytes)
    ensures trimmed != [] ==> trimmed[|trimmed| - 1] != SLASH
  {
    if prefix != [] && prefix[|prefix| - 1] == SLASH then TrimEndSlashes(prefix[..|prefix| - 1]) else prefix
  }

  /** Empty, or with a leading slash and no trailing one. */
  predicate Normal(prefix: bytes) {
    prefix != [] ==> prefix[0] == SLASH && prefix[|prefix| - 1] != SLASH
  }

  function NormalizePrefix(prefix: bytes): (normal: bytes)
    ensures Normal(normal)
  {
    var trimmed := TrimEndSlashes(prefix);
    if trimmed == [] then []
    else if trimmed[0] == SLASH then trimmed
    else [SLASH] + trimmed
  }

  // ----- what a registered prefix becomes -----

  predicate AllSlashes(text: bytes) {
    forall i | 0 <= i < |text| :: text[i] == SLASH
  }

  lemma {:induction false} TrimsSlashes(core: bytes, slashes: bytes)
    requires (core != [] ==> core[|core| - 1] != SLASH) && AllSlashes(slashes)
    ensures TrimEndSlashes(core + slashes) == core
    decreases |slashes|
  {
    if slashes == [] {
      assert core + slashes == core;
    } else {
      var fewer := slashes[..|slashes| - 1];
      assert (core + slashes)[..|core + slashes| - 1] == core + fewer;
      TrimsSlashes(core, fewer);
    }
  }

  /** Any text is a part without a slash at its end, and slashes. */
  lemma {:induction false} CoreAndSlashes(raw: bytes) returns (core: bytes, slashes: bytes)
    ensures raw == core + slashes && AllSlashes(slashes) && (core != [] ==> core[|core| - 1] != SLASH)
    decreases |raw|
  {
    if raw != [] && raw[|raw| - 1] == SLASH {
      core, slashes := CoreAndSlashes(raw[..|raw| - 1]);
      slashes := slashes + [SLASH];
      assert raw == raw[..|raw| - 1] + [SLASH];
    } else {
      core, slashes := raw, [];
    }
  }

  /** A prefix in normal form is stored as it is. */
  lemma NormalStays(prefix: bytes)
    requires Normal(prefix)
    ensures NormalizePrefix(prefix) == prefix
  {
    TrimsSlashes(prefix, []);
    assert prefix + [] == prefix;
  }

  /** Slashes at the end make no difference, nor does leaving out the one in front. */
  lemma SlashesIgnored(prefix: bytes)
    ensures NormalizePrefix(prefix + [SLASH]) == NormalizePrefix(prefix)
    ensures prefix != [] && prefix[0] != SLASH ==> NormalizePrefix(prefix) == NormalizePrefix([SLASH] + prefix)
  {
    var core, slashes := CoreAndSlashes(prefix);
    TrimsSlashes(core, slashes);
    TrimsSlashes(core, slashes + [SLASH]);
    assert prefix + [SLASH] == core + (slashes + [SLASH]);
    if prefix != [] && prefix[0] != SLASH {
      assert [SLASH] + prefix == ([SLASH] + core) + slashes;
      TrimsSlashes([SLASH] + core, slashes);
    }
  }

  /** Only slashes, or nothing, reach everything. */
  lemma EmptyExactly(prefix: bytes)
    ensures NormalizePrefix(prefix) == [] <==> AllSlashes(prefix)
  {
    var core, slashes := CoreAndSlashes(prefix);
    TrimsSlashes(core, slashes);
    if core != [] {
      assert prefix[|core| - 1] != SLASH;
    }
  }

  predicate Accepts(rule: OperationPredicate, id: bytes) {
    match rule
    case Exact(exact) => exact == id
    case Prefix(prefix) => prefix <= id
    case Filter(accepts) => accepts(id)
  }

  /** An exact rule accepts its id, a prefix rule every id that goes on from it. */
  lemma AcceptsExactly(text: bytes, id: bytes)
    ensures Accepts(Exact(text), id) <==> id == text
    ensures Accepts(Prefix(text), id) <==> exists rest: bytes :: id == text + rest
  {
    if text <= id {
      assert id == text + id[|text|..];
    }
  }

  predicate AcceptsOperation(scope: Scope, id: bytes) {
    scope.operations == [] || exists k | 0 <= k < |scope.operations| :: Accepts(scope.operations[k], id)
  }

  predicate MatchesPath(scope: Scope, path: bytes) {
    scope.prefixes == [] || exists k | 0 <= k < |scope.prefixes| :: PathHasPrefix(path, scope.prefixes[k])
  }

  /** `matches_operation`. */
  predicate MatchesOperation(scope: Scope, path: bytes, id: bytes) {
    MatchesPath(scope, path) && AcceptsOperation(scope, id)
  }

  /** A scope without prefixes reaches every path and one without rules every operation; otherwise one of them must. */
  lemma MatchesExactly(scope: Scope, path: bytes, id: bytes)
    ensures MatchesOperation(scope, path, id)
       <==> && (scope.prefixes == [] || exists prefix :: prefix in scope.prefixes && PathHasPrefix(path, prefix))
            && (scope.operations == [] || exists rule :: rule in scope.operations && Accepts(rule, id))
  {
  }

  /** Some verifying layer reaches the operation at this path. */
  predicate Verified(layers: seq<Layer>, path: bytes, operation: Operation) {
    exists k | 0 <= k < |layers| ::
      layers[k].verifiesSecurity && MatchesOperation(layers[k].scope, path, operation.id)
  }

  /** `unverified_security`: in order, the operations that declare a scheme nothing verifies on their pattern. */
  method UnverifiedSecurity(operations: seq<Operation>, layers: seq<Layer>, allowUnverified: bool)
      returns (unverified: seq<Operation>, ghost places: seq<nat>)
    ensures allowUnverified ==> unverified == []
    ensures !allowUnverified ==> Listed(operations, layers, unverified, places)
    ensures !allowUnverified ==>
              forall operation :: operation in unverified <==>
                operation in operations && operation.schemes != [] && !Verified(layers, operation.route.path, operation)
  {
    unverified, places := [], [];
    if allowUnverified {
      return;
    }
    var at := 0;
    while at < |operations|
      invariant 0 <= at <= |operations| && Listed(operations[..at], layers, unverified, places)
    {
      var operation := operations[at];
      assert operations[..at + 1] == operations[..at] + [operation];
      if operation.schemes != [] && !Verified(layers, operation.route.path, operation) {
        unverified, places := unverified + [operation], places + [at];
      }
      at := at + 1;
    }
    assert operations[..at] == operations;
    ListedMembers(operations, layers, unverified, places);
  }

  /** `listed` holds what stands at `places`: every unreached operation once, in the order declared. */
  ghost predicate Listed(operations: seq<Operation>, layers: seq<Layer>, listed: seq<Operation>, places: seq<nat>) {
    && |listed| == |places|
    && (forall k | 0 <= k < |places| :: places[k] < |operations| && listed[k] == operations[places[k]])
    && (forall j, k | 0 <= j < k < |places| :: places[j] < places[k])
    && forall i: nat | i < |operations| :: i in places <==>
         operations[i].schemes != [] && !Verified(layers, operations[i].route.path, operations[i])
  }

  lemma ListedMembers(operations: seq<Operation>, layers: seq<Layer>, listed: seq<Operation>, places: seq<nat>)
    requires Listed(operations, layers, listed, places)
    ensures forall operation :: operation in listed <==>
              operation in operations && operation.schemes != [] && !Verified(layers, operation.route.path, operation)
  {
    hide Verified;
    forall operation | operation in listed
      ensures operation in operations && operation.schemes != [] && !Verified(layers, operation.route.path, operation)
    {
      var k :| 0 <= k < |listed| && listed[k] == operation;
      assert places[k] in places;
    }
    forall operation |
      operation in operations && operation.schemes != [] && !Verified(layers, operation.route.path, operation)
      ensures operation in listed
    {
      var i: nat :| i < |operations| && operations[i] == operation;
      assert i in places;
      var k :| 0 <= k < |places| && places[k] == i;
      assert listed[k] == operation;
    }
  }

  /** `security_guard`: whether dispatch refuses the request. */
  predicate GuardRefuses(layers: seq<Layer>, path: bytes, operation: Operation, allowUnverified: bool) {
    !allowUnverified && operation.schemes != [] && !Verified(layers, path, operation)
  }

  // ----- prefixes by segments -----

  /** A byte prefix at a boundary is a prefix of segments. */
  lemma {:induction false} PrefixBySegments(x: bytes, y: bytes)
    ensures (x <= y && (|x| == |y| || y[|x|] == SLASH)) <==> Split(x) <= Split(y)
    decreases |x|
  {
    var i, j := SlashAt(x), SlashAt(y);
    SplitFront(x);
    SplitFront(y);
    hide Split, SlashAt;
    if i == |x| {
      assert y[..|y|] == y;
      assert Split(y)[0] == y[..j] && Split(x) == [x];
      assert [x] <= Split(y) <==> Split(y)[0] == x;
      if x <= y && (|x| == |y| || y[|x|] == SLASH) {
        assert forall k | 0 <= k < |x| :: y[k] == x[k];
        assert j == |x|;
        assert y[..j] == x;
      }
      if Split(y)[0] == x {
        assert |x| == j && forall k | 0 <= k < |x| :: y[k] == x[k];
      }
    } else if j < |y| {
      PrefixBySegments(x[i + 1..], y[j + 1..]);
      PrefixBothSplit(x, y, i, j);
    } else {
      assert |Split(x)| >= 2 && |Split(y)| == 1;
    }
  }

  lemma PrefixBothSplit(x: bytes, y: bytes, i: nat, j: nat)
    requires i < |x| && j < |y| && x[i] == SLASH && y[j] == SLASH
    requires (forall k | 0 <= k < i :: x[k] != SLASH) && (forall k | 0 <= k < j :: y[k] != SLASH)
    requires Split(x) == [x[..i]] + Split(x[i + 1..]) && Split(y) == [y[..j]] + Split(y[j + 1..])
    requires var p, q := x[i + 1..], y[j + 1..];
             (p <= q && (|p| == |q| || q[|p|] == SLASH)) <==> Split(p) <= Split(q)
    ensures (x <= y && (|x| == |y| || y[|x|] == SLASH)) <==> Split(x) <= Split(y)
  {
    hide Split;
    var p, q := x[i + 1..], y[j + 1..];
    if x <= y && (|x| == |y| || y[|x|] == SLASH) {
      assert y[i] == x[i];
      assert i == j;
      assert x[..i] == y[..j];
      assert p <= q;
      assert Split(x) <= Split(y);
    }
    if Split(x) <= Split(y) {
      assert Split(x)[0] == Split(y)[0];
      assert i == j;
      assert Split(x)[1..] == Split(p) && Split(y)[1..] == Split(q);
      assert Split(p) <= Split(q);
      assert x == x[..i] + [SLASH] + p && y == y[..i] + [SLASH] + q;
    }
  }

  // ----- the pattern's check predicts every path's -----

  /** No segment of the prefix is a placeholder. */
  predicate Literal(prefix: bytes) {
    forall i | 0 <= i < |Split(prefix)| :: !IsParameter(Split(prefix)[i])
  }

  lemma PrefixSegments(path: bytes, prefix: bytes)
    requires Slashed(path) && Slashed(prefix)
    ensures PathHasPrefix(path, prefix) <==> Segments(prefix) <= Segments(path)
  {
    PrefixBySegments(prefix[1..], path[1..]);
    hide Split;
    assert prefix == [SLASH] + prefix[1..] && path == [SLASH] + path[1..];
    assert prefix <= path <==> prefix[1..] <= path[1..];
  }

  /**
   What a scope registered with a prefix reaches: with slashes at the end of the prefix dropped, the
   paths whose segments begin with its own; with nothing left, every path.
   */
  lemma RegisteredReaches(core: bytes, slashes: bytes, path: bytes)
    requires (core != [] ==> core[|core| - 1] != SLASH) && AllSlashes(slashes) && Slashed(path)
    ensures PathHasPrefix(path, NormalizePrefix(core + slashes)) <==> core == [] || Segments(core) <= Segments(path)
  {
    TrimsSlashes(core, slashes);
    if core != [] {
      var stored := NormalizePrefix(core + slashes);
      assert stored == if core[0] == SLASH then core else [SLASH] + core;
      assert Segments(stored) == Segments(core) by {
        assert core[0] != SLASH ==> stored[1..] == core;
      }
      PrefixSegments(path, stored);
    }
  }

  /** A literal prefix of a pattern is a prefix of every path the pattern matches. */
  lemma PrefixCarriesOver(route: Route, path: bytes, prefix: bytes)
    requires Slashed(route.path) && Slashed(path) && Matches(route, path)
    requires Normal(prefix) && Literal(prefix) && PathHasPrefix(route.path, prefix)
    ensures PathHasPrefix(path, prefix)
  {
    if HasParameters(route.path) && prefix != [] {
      PrefixSegments(route.path, prefix);
      PrefixSegments(path, prefix);
      LiteralSegments(prefix);
      hide Segments, Split, PathHasPrefix, HasParameters, IsParameter, Fits;
      FixedSegments(Segments(route.path), Segments(path), Segments(prefix));
    }
  }

  lemma FixedSegments(pattern: seq<bytes>, concrete: seq<bytes>, fixed: seq<bytes>)
    requires Fits(ShapeOf(pattern), 0, concrete) && fixed <= pattern
    requires forall i | 0 <= i < |fixed| :: !IsParameter(fixed[i])
    ensures fixed <= concrete
  {
    hide IsParameter;
    assert forall i | 0 <= i < |fixed| :: ShapeOf(pattern)[i] == SegmentOf(pattern[i]) && pattern[i] == fixed[i];
  }

  // ----- a path that no prefix with a placeholder reaches -----

  /** The segments a pattern matches with `text` for every parameter. */
  function Filling(segments: seq<bytes>, text: bytes): (filled: seq<bytes>)
    ensures |filled| == |segments|
    ensures forall i | 0 <= i < |segments| :: filled[i] == if IsParameter(segments[i]) then text else segments[i]
  {
    seq(|segments|, i requires 0 <= i < |segments| => if IsParameter(segments[i]) then text else segments[i])
  }

  lemma {:induction false} SegmentsShort(rest: bytes)
    ensures forall i | 0 <= i < |Split(rest)| :: |Split(rest)[i]| <= |rest|
    decreases |rest|
  {
    SplitFront(rest);
    var at := SlashAt(rest);
    if at < |rest| {
      SegmentsShort(rest[at + 1..]);
    }
  }

  lemma FillingFits(pattern: seq<bytes>, text: bytes)
    ensures Fits(ShapeOf(pattern), 0, Filling(pattern, text))
  {
    hide IsParameter;
    assert forall k | 0 <= k < |pattern| :: ShapeOf(pattern)[k] == SegmentOf(pattern[k]);
  }

  /** Filling its parameters turns a pattern into a path it matches. */
  lemma FillingMatches(route: Route, text: bytes) returns (path: bytes)
    requires Slashed(route.path) && HasParameters(route.path) && SLASH !in text
    ensures Slashed(path) && Segments(path) == Filling(Segments(route.path), text) && Matches(route, path)
  {
    var pattern := Segments(route.path);
    var filled := Filling(pattern, text);
    SplitSlashless(route.path[1..]);
    FillingFits(pattern, text);
    hide Split, Join, HasParameters, Fits, ShapeOf, IsParameter;
    assert forall i | 0 <= i < |filled| :: filled[i] == pattern[i] || filled[i] == text;
    SplitJoin(filled);
    path := [SLASH] + Join(filled);
    assert path[1..] == Join(filled);
  }

  /** Segments shorter than the filling that begin the filled pattern begin the pattern, and are literal. */
  lemma FillingSegments(pattern: seq<bytes>, text: bytes, fixed: seq<bytes>)
    requires fixed <= Filling(pattern, text)
    requires forall i | 0 <= i < |fixed| :: |fixed[i]| < |text|
    ensures fixed <= pattern && forall i | 0 <= i < |fixed| :: !IsParameter(fixed[i])
  {
    hide IsParameter;
    var filled := Filling(pattern, text);
    forall i | 0 <= i < |fixed| ensures fixed[i] == pattern[i] && !IsParameter(fixed[i]) {
      assert fixed[i] == filled[i];
    }
  }

  /** With fillings longer than the prefix, only a literal prefix of the pattern reaches the path. */
  lemma FillingPrefix(route: Route, path: bytes, text: bytes, prefix: bytes)
    requires Slashed(route.path) && Slashed(path) && Segments(path) == Filling(Segments(route.path), text)
    requires Normal(prefix) && |prefix| < |text| && PathHasPrefix(path, prefix)
    ensures Literal(prefix) && PathHasPrefix(route.path, prefix)
  {
    if prefix == [] {
      assert Split(prefix) == [[]];
    } else {
      PrefixSegments(path, prefix);
      PrefixSegments(route.path, prefix);
      SegmentsShort(prefix[1..]);
      assert Segments(prefix) == Split(prefix[1..]);
      FillingSegments(Segments(route.path), text, Segments(prefix));
      LiteralSegments(prefix);
    }
  }

  /** The empty segment before the leading slash is no placeholder. */
  lemma LiteralSegments(prefix: bytes)
    requires Slashed(prefix)
    ensures Literal(prefix) <==> forall i | 0 <= i < |Segments(prefix)| :: !IsParameter(Segments(prefix)[i])
  {
    SplitLeadingSlash(prefix);
    hide Split, Segments;
    var all, after := Split(prefix), Segments(prefix);
    assert all == [[]] + after;
    assert forall i | 0 <= i < |after| :: after[i] == all[i + 1];
    assert forall i | 1 <= i < |all| :: all[i] == after[i - 1];
  }

  function LongestOf(prefixes: seq<bytes>): (longest: nat)
    ensures forall prefix | prefix in prefixes :: |prefix| <= longest
  {
    if prefixes == [] then 0
    else
      var rest := LongestOf(prefixes[1..]);
      if |prefixes[0]| > rest then |prefixes[0]| else rest
  }

  function LongestPrefix(layers: seq<Layer>): (longest: nat)
    ensures forall k | 0 <= k < |layers| :: LongestOf(layers[k].scope.prefixes) <= longest
  {
    if layers == [] then 0
    else
      var rest, here := LongestPrefix(layers[1..]), LongestOf(layers[0].scope.prefixes);
      if here > rest then here else rest
  }

  // ----- the guard, exactly -----

  /** Scopes hold normalized prefixes. */
  ghost predicate NormalScopes(layers: seq<Layer>) {
    forall k, i | 0 <= k < |layers| && 0 <= i < |layers[k].scope.prefixes| :: Normal(layers[k].scope.prefixes[i])
  }

  /** Reaches every path of the route: a prefix of the pattern, and literal if the pattern has parameters. */
  predicate ReachesRoute(route: Route, prefix: bytes) {
    PathHasPrefix(route.path, prefix) && (HasParameters(route.path) ==> Literal(prefix))
  }

  /** The layer verifies the operation wherever its route matches. */
  predicate Covers(layer: Layer, operation: Operation) {
    && layer.verifiesSecurity && AcceptsOperation(layer.scope, operation.id)
    && (layer.scope.prefixes == []
        || exists i | 0 <= i < |layer.scope.prefixes| :: ReachesRoute(operation.route, layer.scope.prefixes[i]))
  }

  predicate Covered(layers: seq<Layer>, operation: Operation) {
    exists k | 0 <= k < |layers| :: Covers(layers[k], operation)
  }

  lemma CoversVerifies(layers: seq<Layer>, k: nat, operation: Operation, path: bytes)
    requires k < |layers| && NormalScopes(layers) && Covers(layers[k], operation)
    requires Slashed(operation.route.path) && Slashed(path) && Matches(operation.route, path)
    ensures Verified(layers, path, operation)
  {
    var scope := layers[k].scope;
    hide Literal, PathHasPrefix, HasParameters, Normal;
    if scope.prefixes != [] {
      var i :| 0 <= i < |scope.prefixes| && ReachesRoute(operation.route, scope.prefixes[i]);
      if HasParameters(operation.route.path) {
        PrefixCarriesOver(operation.route, path, scope.prefixes[i]);
      }
      assert PathHasPrefix(path, scope.prefixes[i]);
    }
    assert MatchesOperation(scope, path, operation.id);
  }

  function LongestSegment(segments: seq<bytes>): (longest: nat)
    ensures forall i | 0 <= i < |segments| :: |segments[i]| <= longest
  {
    LongestOf(segments)
  }

  /** Longer than every segment of every route. */
  function LongestIn(routes: seq<Route>): (longest: nat)
    ensures forall i | 0 <= i < |routes| :: LongestSegment(Segments(routes[i].path)) <= longest
  {
    if routes == [] then 0
    else
      var rest, here := LongestIn(routes[1..]), LongestSegment(Segments(routes[0].path));
      if here > rest then here else rest
  }

  /** No other route is indistinguishable from route `e`. */
  predicate Apart(routes: seq<Route>, e: nat)
    requires e < |routes|
  {
    forall other | 0 <= other < |routes| && other != e :: !Clash(routes[e], routes[other])
  }

  /** A segment that occurs in no route tells a pattern's parameters from everything else. */
  lemma FreshFilling(pattern: seq<bytes>, text: bytes, other: seq<bytes>)
    requires Fits(ShapeOf(other), 0, Filling(pattern, text)) && text !in other
    requires ShapeOf(pattern) != ShapeOf(other)
    ensures Better(ShapeOf(pattern), ShapeOf(other))
  {
    hide IsParameter;
    var own, theirs, filled := ShapeOf(pattern), ShapeOf(other), Filling(pattern, text);
    assert |own| == |theirs|;
    forall k | 0 <= k < |own| ensures theirs[k].Parameter? || own[k] == theirs[k] {
      assert theirs[k].Parameter? || theirs[k] == Static(filled[k]);
      assert other[k] in other;
    }
    var k := FirstDifference(own, theirs);
  }

  lemma {:induction false} FirstDifference(own: seq<Segment>, theirs: seq<Segment>) returns (k: nat)
    requires |own| == |theirs| && own != theirs
    ensures k < |own| && own[k] != theirs[k] && forall j | 0 <= j < k :: own[j] == theirs[j]
    decreases |own|
  {
    if own[0] != theirs[0] {
      k := 0;
    } else {
      assert own == [own[0]] + own[1..] && theirs == [theirs[0]] + theirs[1..];
      k := FirstDifference(own[1..], theirs[1..]);
      k := k + 1;
      assert forall j | 1 <= j < k :: own[j] == own[1..][j - 1] == theirs[1..][j - 1] == theirs[j];
    }
  }

  /** Filled with a segment that no route has, a pattern's path is routed to it. */
  lemma FilledRouted(routes: seq<Route>, e: nat, text: bytes, path: bytes)
    requires e < |routes| && Apart(routes, e) && HasParameters(routes[e].path) && LongestIn(routes) < |text|
    requires Segments(path) == Filling(Segments(routes[e].path), text) && Matches(routes[e], path)
    ensures Preferred(routes, e, routes[e].verb, path)
  {
    hide Segments, HasParameters, Filling, ShapeOf, Better, Clash;
    forall other: nat | Serves(routes, other, routes[e].verb, path) && other != e
      ensures Better(Shape(routes[e].path), Shape(routes[other].path))
    {
      NotAmong(routes, other, text);
      FilledBeats(routes[e], routes[other], text, path);
    }
  }

  lemma FilledBeats(route: Route, other: Route, text: bytes, path: bytes)
    requires HasParameters(route.path) && Segments(path) == Filling(Segments(route.path), text)
    requires other.verb == route.verb && Matches(other, path) && !Clash(route, other) && text !in Segments(other.path)
    ensures Better(Shape(route.path), Shape(other.path))
  {
    var k :| 0 <= k < |Shape(route.path)| && Shape(route.path)[k].Parameter?;
    assert Segments(path)[k] == text && text in Segments(path);
    hide Segments, HasParameters, Filling, ShapeOf, Better, Fits;
    FreshFilling(Segments(route.path), text, Segments(other.path));
  }

  lemma NotAmong(routes: seq<Route>, other: nat, text: bytes)
    requires other < |routes| && LongestIn(routes) < |text|
    ensures text !in Segments(routes[other].path)
  {
    hide Segments;
  }

  /** A pattern without parameters, taken as a path, is routed to it. */
  lemma LiteralRouted(routes: seq<Route>, e: nat)
    requires e < |routes| && Apart(routes, e) && !HasParameters(routes[e].path)
    ensures Preferred(routes, e, routes[e].verb, routes[e].path)
  {
    hide Shape, HasParameters, Better;
    forall other: nat | Serves(routes, other, routes[e].verb, routes[e].path) && other != e
      ensures Better(Shape(routes[e].path), Shape(routes[other].path))
    {
      assert !Clash(routes[e], routes[other]);
      assert HasParameters(routes[other].path);
      LiteralBeatsPattern(routes[e].path, routes[other].path);
    }
  }

  /** Between routes that clash the router has no preference, so neither is ever the preferred one. */
  lemma ClashNeverPreferred(routes: seq<Route>, e: nat, path: bytes)
    requires e < |routes| && !Apart(routes, e)
    ensures !Preferred(routes, e, routes[e].verb, path)
  {
    var other :| 0 <= other < |routes| && other != e && Clash(routes[e], routes[other]);
    assert Shape(routes[e].path) == Shape(routes[other].path);
    hide Shape, HasParameters;
    assert Serves(routes, e, routes[e].verb, path) ==> Serves(routes, other, routes[e].verb, path);
  }

  /** Whatever verifies the operation on the pattern, filled with a long enough text, covers its route. */
  lemma VerifierCovers(layers: seq<Layer>, operation: Operation, path: bytes, text: bytes)
    requires NormalScopes(layers) && Slashed(operation.route.path) && Slashed(path) && LongestPrefix(layers) < |text|
    requires if HasParameters(operation.route.path) then Segments(path) == Filling(Segments(operation.route.path), text)
             else path == operation.route.path
    requires Verified(layers, path, operation)
    ensures Covered(layers, operation)
  {
    hide Literal, PathHasPrefix, HasParameters, Segments, Normal, Filling;
    var route := operation.route;
    var k :| 0 <= k < |layers|
             && layers[k].verifiesSecurity && MatchesOperation(layers[k].scope, path, operation.id);
    var prefixes := layers[k].scope.prefixes;
    if prefixes != [] {
      var i :| 0 <= i < |prefixes| && PathHasPrefix(path, prefixes[i]);
      assert prefixes[i] in prefixes;
      if HasParameters(route.path) {
        FillingPrefix(route, path, text, prefixes[i]);
      }
      assert ReachesRoute(route, prefixes[i]);
    }
    assert Covers(layers[k], operation);
  }

  /** The one path that tells: it is routed to the operation, and whatever verifies it there covers the route. */
  lemma WitnessCovers(layers: seq<Layer>, routes: seq<Route>, e: nat, operation: Operation) returns (path: bytes)
    requires NormalScopes(layers) && Slashed(operation.route.path)
    requires e < |routes| && routes[e] == operation.route && Apart(routes, e)
    ensures Slashed(path) && Preferred(routes, e, routes[e].verb, path)
    ensures Verified(layers, path, operation) ==> Covered(layers, operation)
  {
    hide HasParameters, Segments, Filling, Preferred, Apart, NormalScopes, Covered, Verified, Matches;
    var route := operation.route;
    var text: bytes := seq(LongestPrefix(layers) + LongestIn(routes) + 1, _ => 120);
    path := route.path;
    if HasParameters(route.path) {
      path := FillingMatches(route, text);
      FilledRouted(routes, e, text, path);
    } else {
      LiteralRouted(routes, e);
    }
    if Verified(layers, path, operation) {
      VerifierCovers(layers, operation, path, text);
    }
  }

  /**
   Dispatch finds a verifier on every path the route matches if and only if some verifying layer
   accepts the operation and is unscoped, or scoped by a prefix of the pattern that is literal if
   the pattern has parameters.
   */
  lemma VerifiedEverywhere(layers: seq<Layer>, operation: Operation)
    requires NormalScopes(layers) && Slashed(operation.route.path)
    ensures (forall path | Slashed(path) && Matches(operation.route, path) :: Verified(layers, path, operation))
            <==> Covered(layers, operation)
  {
    hide Matches, Verified, Covers;
    if Covered(layers, operation) {
      var k :| 0 <= k < |layers| && Covers(layers[k], operation);
      forall path | Slashed(path) && Matches(operation.route, path) ensures Verified(layers, path, operation) {
        CoversVerifies(layers, k, operation, path);
      }
    }
    var telling := WitnessCovers(layers, [operation.route], 0, operation);
  }

  function RoutesOf(operations: seq<Operation>): (routes: seq<Route>)
    ensures |routes| == |operations|
    ensures forall i | 0 <= i < |operations| :: routes[i] == operations[i].route
  {
    seq(|operations|, i requires 0 <= i < |operations| => operations[i].route)
  }

  /** A request for the path is routed to operation `e`. */
  ghost predicate RoutedTo(operations: seq<Operation>, e: nat, path: bytes)
    requires e < |operations|
  {
    Slashed(path) && Preferred(RoutesOf(operations), e, operations[e].route.verb, path)
  }

  /** No request that is routed to the operation is refused for want of a verifier. */
  ghost predicate NeverRefused(layers: seq<Layer>, operations: seq<Operation>, e: nat, allowUnverified: bool)
    requires e < |operations|
  {
    forall path | RoutedTo(operations, e, path) :: !GuardRefuses(layers, path, operations[e], allowUnverified)
  }

  /** What makes a passing check conclusive for an operation. */
  predicate Conclusive(layers: seq<Layer>, operation: Operation, allowUnverified: bool) {
    allowUnverified || operation.schemes == [] || Covered(layers, operation)
  }

  /** No scope of a verifying layer has a placeholder in a prefix. */
  ghost predicate LiteralScopes(layers: seq<Layer>) {
    forall k, i | 0 <= k < |layers| && layers[k].verifiesSecurity && 0 <= i < |layers[k].scope.prefixes| ::
      Literal(layers[k].scope.prefixes[i])
  }

  /** With such scopes, verified on the pattern is covered. */
  lemma LiteralScopesSuffice(layers: seq<Layer>, operation: Operation)
    requires LiteralScopes(layers) && Verified(layers, operation.route.path, operation)
    ensures Covered(layers, operation)
  {
    hide Literal, PathHasPrefix, HasParameters;
    var k :| 0 <= k < |layers|
             && layers[k].verifiesSecurity && MatchesOperation(layers[k].scope, operation.route.path, operation.id);
    var prefixes := layers[k].scope.prefixes;
    if prefixes != [] {
      var i :| 0 <= i < |prefixes| && PathHasPrefix(operation.route.path, prefixes[i]);
      assert ReachesRoute(operation.route, prefixes[i]);
    }
    assert Covers(layers[k], operation);
  }

  /**
   The startup check passes exactly when dispatch would refuse no pattern taken as a path. Dispatch
   refuses no request that is routed to an operation if and only if the operation is exempt or covered,
   or no request is ever routed to it because another route is indistinguishable from its own.
   */
  method CheckCoverage(operations: seq<Operation>, layers: seq<Layer>, allowUnverified: bool) returns (ok: bool)
    ensures ok <==> forall operation | operation in operations ::
                      !GuardRefuses(layers, operation.route.path, operation, allowUnverified)
    ensures NormalScopes(layers) ==>
              forall e | 0 <= e < |operations| && Slashed(operations[e].route.path) ::
                NeverRefused(layers, operations, e, allowUnverified) <==>
                  Conclusive(layers, operations[e], allowUnverified) || !Apart(RoutesOf(operations), e)
    ensures ok && NormalScopes(layers) && LiteralScopes(layers) ==>
              forall e | 0 <= e < |operations| && Slashed(operations[e].route.path) ::
                NeverRefused(layers, operations, e, allowUnverified)
  {
    var unverified, _ := UnverifiedSecurity(operations, layers, allowUnverified);
    hide Matches, Verified, Covered, NormalScopes, LiteralScopes, NeverRefused, Apart;
    ok := unverified == [];
    assert unverified != [] ==> unverified[0] in unverified;
    if NormalScopes(layers) {
      forall e | 0 <= e < |operations| && Slashed(operations[e].route.path)
        ensures NeverRefused(layers, operations, e, allowUnverified) <==>
                  Conclusive(layers, operations[e], allowUnverified) || !Apart(RoutesOf(operations), e)
        ensures ok && LiteralScopes(layers) ==> NeverRefused(layers, operations, e, allowUnverified)
      {
        GuardExactly(layers, operations, e, allowUnverified);
        if ok && LiteralScopes(layers) {
          assert operations[e] in operations;
          if Verified(layers, operations[e].route.path, operations[e]) {
            LiteralScopesSuffice(layers, operations[e]);
          }
        }
      }
    }
  }

  lemma GuardExactly(layers: seq<Layer>, operations: seq<Operation>, e: nat, allowUnverified: bool)
    requires NormalScopes(layers) && e < |operations| && Slashed(operations[e].route.path)
    ensures NeverRefused(layers, operations, e, allowUnverified) <==>
              Conclusive(layers, operations[e], allowUnverified) || !Apart(RoutesOf(operations), e)
  {
    var operation, routes := operations[e], RoutesOf(operations);
    VerifiedEverywhere(layers, operation);
    assert forall path | RoutedTo(operations, e, path) :: Matches(operation.route, path);
    hide Matches, Verified, Covered, Preferred, Apart;
    if !Apart(routes, e) {
      forall path ensures !RoutedTo(operations, e, path) {
        ClashNeverPreferred(routes, e, path);
      }
    } else {
      var telling := WitnessCovers(layers, routes, e, operation);
      assert RoutedTo(operations, e, telling);
    }
  }

  /**
   The check can pass and dispatch still refuse: one verifying layer, scoped by a prefix of the
   pattern with a placeholder in it, is enough.
   */
  lemma PassesYetRefuses(operations: seq<Operation>, e: nat, prefix: bytes) returns (path: bytes)
    requires e < |operations| && Slashed(operations[e].route.path) && operations[e].schemes != []
    requires Apart(RoutesOf(operations), e)
    requires prefix != [] && Normal(prefix) && PathHasPrefix(operations[e].route.path, prefix) && !Literal(prefix)
    ensures var layers := [Layer(Scope([prefix], []), true)];
            && RoutedTo(operations, e, path)
            && !GuardRefuses(layers, operations[e].route.path, operations[e], false)
            && GuardRefuses(layers, path, operations[e], false)
  {
    var operation := operations[e];
    var layers := [Layer(Scope([prefix], []), true)];
    PlaceholderInPattern(operation.route.path, prefix);
    hide Literal, PathHasPrefix, Matches, HasParameters, Normal, Preferred, Apart;
    path := WitnessCovers(layers, RoutesOf(operations), e, operation);
    assert MatchesOperation(layers[0].scope, operation.route.path, operation.id) by {
      assert PathHasPrefix(operation.route.path, layers[0].scope.prefixes[0]);
    }
  }

  /** A pattern whose prefix has a placeholder has parameters. */
  lemma PlaceholderInPattern(path: bytes, prefix: bytes)
    requires Slashed(path) && Slashed(prefix) && PathHasPrefix(path, prefix) && !Literal(prefix)
    ensures HasParameters(path)
  {
    PrefixSegments(path, prefix);
    SplitLeadingSlash(prefix);
    hide PathHasPrefix;
    var k :| 0 <= k < |Split(prefix)| && IsParameter(Split(prefix)[k]);
    hide Split, Segments;
    assert Shape(path)[k - 1] == SegmentOf(Segments(path)[k - 1]);
  }
}
