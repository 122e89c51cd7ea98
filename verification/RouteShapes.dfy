/**
 Route patterns and paths as sequences of segments, and what it means to choose a route: the
 reference the compiled router is held against.
 */
module RouteShapes {
  import opened Wrappers
  import opened Bytes

  const SLASH: byte := 47
  const OPEN_BRACE: byte := 123
  const CLOSE_BRACE: byte := 125

  datatype HttpMethod = Get | Head | Post | Put | Patch | Delete | Options | Trace | Connect

  /** One segment of a route pattern. */
  datatype Segment = Parameter | Static(text: bytes)

  datatype Route = Route(verb: HttpMethod, path: bytes)

  /** The position of the first slash, or the length. */
  function SlashAt(rest: bytes): (at: nat)
    ensures at <= |rest| && (at < |rest| ==> rest[at] == SLASH)
    ensures forall k | 0 <= k < at :: rest[k] != SLASH
  {
    Position(rest, SLASH)
  }

  /** `split('/')`: never empty. */
  function Split(rest: bytes): (segments: seq<bytes>)
    ensures segments != []
  {
    SplitOn(rest, SLASH)
  }

  function Join(segments: seq<bytes>): bytes
    requires segments != []
  {
    if |segments| == 1 then segments[0] else segments[0] + [SLASH] + Join(segments[1..])
  }

  lemma {:induction false} JoinSplit(rest: bytes)
    ensures Join(Split(rest)) == rest
    decreases |rest|
  {
    var at := SlashAt(rest);
    if at < |rest| {
      var tail := rest[at + 1..];
      JoinSplit(tail);
      JoinFront(rest[..at], Split(tail));
      hide Split, Join, SlashAt;
      SplitFront(rest);
      assert rest == rest[..at] + [SLASH] + tail;
    }
  }

  lemma SplitFront(rest: bytes)
    ensures var at := SlashAt(rest);
            Split(rest) == if at == |rest| then [rest] else [rest[..at]] + Split(rest[at + 1..])
  {
    hide Position;
  }

  lemma JoinFront(first: bytes, others: seq<bytes>)
    requires others != []
    ensures Join([first] + others) == first + [SLASH] + Join(others)
  {
    assert ([first] + others)[1..] == others;
  }

  lemma JoinSlashes(first: bytes, others: seq<bytes>)
    ensures Join([first]) == first
    ensures others != [] ==> Join([first] + others) == first + [47] + Join(others)
  {
    if others != [] {
      JoinFront(first, others);
    }
  }

  lemma {:induction false} SplitJoin(pieces: seq<bytes>)
    requires pieces != [] && forall i | 0 <= i < |pieces| :: 47 !in pieces[i]
    ensures Split(Join(pieces)) == pieces
    decreases |pieces|
  {
    var text, first, rest := Join(pieces), pieces[0], pieces[1..];
    assert [first] + rest == pieces;
    SplitFront(text);
    JoinSlashes(first, rest);
    hide Split, Join;
    assert forall k | 0 <= k < |first| :: text[k] == first[k] && first[k] in first;
    if rest != [] {
      SplitJoin(rest);
      assert text[|first|] == 47 && SlashAt(text) == |first|;
      assert text[..|first|] == first && text[|first| + 1..] == Join(rest);
    }
  }

  lemma {:induction false} SplitSlashless(text: bytes)
    ensures forall i | 0 <= i < |Split(text)| :: 47 !in Split(text)[i]
    decreases |text|
  {
    var at := SlashAt(text);
    SplitFront(text);
    hide Split;
    if at < |text| {
      SplitSlashless(text[at + 1..]);
    }
  }

  /** Splitting finds the one way to write the text as pieces without a slash, joined by slashes. */
  lemma SplitExactly(text: bytes, pieces: seq<bytes>)
    requires pieces != []
    ensures Split(text) == pieces <==> Join(pieces) == text && forall i | 0 <= i < |pieces| :: 47 !in pieces[i]
  {
    JoinSplit(text);
    SplitSlashless(text);
    hide Split, Join;
    if Join(pieces) == text && forall i | 0 <= i < |pieces| :: 47 !in pieces[i] {
      SplitJoin(pieces);
    }
  }

  predicate Slashed(path: bytes) {
    path != [] && path[0] == SLASH
  }

  /** At a segment boundary: `/ingest` is a prefix of `/ingest/events`, never of `/ingested`. */
  predicate PathHasPrefix(path: bytes, prefix: bytes) {
    prefix <= path && (|path| == |prefix| || path[|prefix|] == SLASH)
  }

  function TrimLeadingSlash(path: bytes): bytes {
    if path != [] && path[0] == SLASH then path[1..] else path
  }

  /** The segments of a path or pattern, the leading slash aside. */
  function Segments(path: bytes): (segments: seq<bytes>)
    ensures segments != []
  {
    Split(TrimLeadingSlash(path))
  }

  /** `{name}` with a nonempty name; `{}` is a segment like any other. */
  predicate IsParameter(segment: bytes) {
    |segment| >= 3 && segment[0] == OPEN_BRACE && segment[|segment| - 1] == CLOSE_BRACE
  }

  /** Parameters are the nonempty names in braces. */
  lemma ParameterExactly(segment: bytes)
    ensures IsParameter(segment) <==> exists name: bytes :: name != [] && segment == [123] + name + [125]
  {
    if IsParameter(segment) {
      assert segment == [123] + segment[1..|segment| - 1] + [125];
    }
  }

  function SegmentOf(text: bytes): Segment {
    if IsParameter(text) then Parameter else Static(text)
  }

  function ShapeOf(segments: seq<bytes>): (shape: seq<Segment>)
    ensures |shape| == |segments| && forall i | 0 <= i < |segments| :: shape[i] == SegmentOf(segments[i])
  {
    seq(|segments|, i requires 0 <= i < |segments| => SegmentOf(segments[i]))
  }

  function Shape(path: bytes): seq<Segment> {
    ShapeOf(Segments(path))
  }

  predicate HasParameters(path: bytes) {
    exists i | 0 <= i < |Shape(path)| :: Shape(path)[i].Parameter?
  }

  /** The part of `shape` from `from` on fits `segments`. */
  predicate Fits(shape: seq<Segment>, from: nat, segments: seq<bytes>) {
    |shape| == from + |segments|
    && forall i | from <= i < |shape| :: shape[i].Parameter? || shape[i] == Static(segments[i - from])
  }

  /** A pattern without parameters is compared as a whole, one with parameters segment by segment. */
  predicate Matches(route: Route, path: bytes) {
    if HasParameters(route.path) then Fits(Shape(route.path), 0, Segments(path)) else route.path == path
  }

  /** At the first segment where the shapes differ, `better` is static. */
  ghost predicate Better(better: seq<Segment>, other: seq<Segment>) {
    exists k | 0 <= k < |better| && k < |other| ::
      better[k].Static? && other[k].Parameter? && forall j | 0 <= j < k :: better[j] == other[j]
  }

  /** The path's segments at the shape's parameters, in order. */
  function Captured(shape: seq<Segment>, segments: seq<bytes>): (captured: seq<bytes>)
    requires |shape| == |segments|
  {
    if shape == [] then []
    else (if shape[0].Parameter? then [segments[0]] else []) + Captured(shape[1..], segments[1..])
  }

  /** The shape with captures put into its parameters. */
  function Filled(shape: seq<Segment>, captured: seq<bytes>): Option<seq<bytes>> {
    if shape == [] then if captured == [] then Some([]) else None
    else
      match shape[0]
      case Static(text) =>
        (match Filled(shape[1..], captured)
         case None => None
         case Some(rest) => Some([text] + rest))
      case Parameter =>
        if captured == [] then None
        else
          match Filled(shape[1..], captured[1..])
          case None => None
          case Some(rest) => Some([captured[0]] + rest)
  }

  /** Captures put back into the pattern give the path. */
  lemma {:induction false} FilledCaptured(shape: seq<Segment>, segments: seq<bytes>)
    requires Fits(shape, 0, segments)
    ensures Filled(shape, Captured(shape, segments)) == Some(segments)
    decreases |shape|
  {
    if shape != [] {
      FilledCaptured(shape[1..], segments[1..]);
      assert segments == [segments[0]] + segments[1..];
      var rest := Captured(shape[1..], segments[1..]);
      if shape[0].Parameter? {
        assert Captured(shape, segments)[1..] == rest;
      } else {
        assert Captured(shape, segments) == rest;
      }
    }
  }

  /** A static pattern with a leading slash matches a path with one just when its segments do. */
  lemma StaticMatchesBySegments(route: Route, path: bytes)
    requires Slashed(route.path) && Slashed(path) && !HasParameters(route.path)
    ensures Matches(route, path) <==> Fits(Shape(route.path), 0, Segments(path))
  {
    var shape, segments := Shape(route.path), Segments(path);
    assert forall i | 0 <= i < |shape| :: shape[i] == Static(Segments(route.path)[i]);
    if Fits(shape, 0, segments) {
      assert segments == Segments(route.path);
      JoinSplit(path[1..]);
      JoinSplit(route.path[1..]);
      assert path == [SLASH] + path[1..] && route.path == [SLASH] + route.path[1..];
    }
  }

  // ----- what a list scan would answer -----

  ghost predicate Serves(routes: seq<Route>, e: nat, verb: HttpMethod, path: bytes) {
    e < |routes| && routes[e].verb == verb && Matches(routes[e], path)
  }

  /** Of all routes that serve the request, `e` is the one that is static where they first differ. */
  ghost predicate Preferred(routes: seq<Route>, e: nat, verb: HttpMethod, path: bytes) {
    && Serves(routes, e, verb, path)
    && forall other: nat | Serves(routes, other, verb, path) && other != e ::
         Better(Shape(routes[e].path), Shape(routes[other].path))
  }

  ghost predicate Served(routes: seq<Route>, verb: HttpMethod, path: bytes) {
    exists e: nat :: Serves(routes, e, verb, path)
  }

  /** A pattern without parameters beats any pattern with one that matches its path. */
  lemma LiteralBeatsPattern(path: bytes, other: bytes)
    requires !HasParameters(path) && HasParameters(other) && Fits(Shape(other), 0, Segments(path))
    ensures Better(Shape(path), Shape(other))
  {
    var shape, segments := Shape(path), Segments(path);
    forall j | 0 <= j < |segments| ensures shape[j] == Static(segments[j]) {
      assert shape[j] == SegmentOf(segments[j]) && !shape[j].Parameter?;
    }
    hide Segments;
    AllStaticIsBest(shape, Shape(other), segments);
  }

  lemma AllStaticIsBest(shape: seq<Segment>, pattern: seq<Segment>, segments: seq<bytes>)
    requires |shape| == |segments| && forall j | 0 <= j < |segments| :: shape[j] == Static(segments[j])
    requires Fits(pattern, 0, segments) && exists i :: 0 <= i < |pattern| && pattern[i].Parameter?
    ensures Better(shape, pattern)
  {
    var i :| 0 <= i < |pattern| && pattern[i].Parameter?;
    var k := FirstParameter(pattern, i);
    assert forall j | 0 <= j < k :: shape[j] == pattern[j];
  }

  lemma {:induction false} FirstParameter(shape: seq<Segment>, i: nat) returns (k: nat)
    requires i < |shape| && shape[i].Parameter?
    ensures k < |shape| && shape[k].Parameter? && forall j | 0 <= j < k :: shape[j].Static?
  {
    k := 0;
    while shape[k].Static?
      invariant k <= i && forall j | 0 <= j < k :: shape[j].Static?
      decreases |shape| - k
    {
      k := k + 1;
    }
  }

  // ----- what `App::build` guarantees -----

  const EMPTY_BRACES: bytes := [123, 125]

  function CanonicalSegment(text: bytes): bytes {
    if |text| > 0 && text[0] == OPEN_BRACE && text[|text| - 1] == CLOSE_BRACE then EMPTY_BRACES else text
  }

  /** Two segments count as the same when they are, or when both are in braces. */
  lemma CanonicalExactly(a: bytes, b: bytes)
    ensures CanonicalSegment(a) == CanonicalSegment(b)
       <==> a == b || (&& a != [] && a[0] == 123 && a[|a| - 1] == 125
                       && b != [] && b[0] == 123 && b[|b| - 1] == 125)
  {
    var braces: bytes := [123, 125];
    assert braces[0] == 123 && braces[|braces| - 1] == 125;
  }

  function CanonicalSegments(segments: seq<bytes>): (canonical: seq<bytes>)
    ensures |canonical| == |segments|
    ensures forall i | 0 <= i < |segments| :: canonical[i] == CanonicalSegment(segments[i])
  {
    seq(|segments|, i requires 0 <= i < |segments| => CanonicalSegment(segments[i]))
  }

  /** `canonical_route_shape`. */
  function CanonicalRouteShape(path: bytes): bytes {
    Join(CanonicalSegments(Split(path)))
  }

  datatype BindingError = DuplicateHttpBinding(route: Route) | AmbiguousHttpBinding(route: Route)

  ghost predicate DistinctShapes(routes: seq<Route>) {
    forall i, j | 0 <= i < j < |routes| && routes[i].verb == routes[j].verb ::
      CanonicalRouteShape(routes[i].path) != CanonicalRouteShape(routes[j].path)
  }

  /** The first route that repeats a shape under its verb: word for word, or with other parameter names. */
  ghost predicate FirstClash(routes: seq<Route>, error: BindingError) {
    exists k | 0 <= k < |routes| ::
      && routes[k] == error.route && DistinctShapes(routes[..k]) && !DistinctShapes(routes[..k + 1])
      && (error.DuplicateHttpBinding? <==> routes[k] in routes[..k])
  }

  lemma RepeatsShape(routes: seq<Route>, at: nat)
    requires at < |routes| && DistinctShapes(routes[..at])
    ensures !DistinctShapes(routes[..at + 1])
       <==> exists i | 0 <= i < at ::
              && routes[i].verb == routes[at].verb
              && CanonicalRouteShape(routes[i].path) == CanonicalRouteShape(routes[at].path)
  {
    hide CanonicalRouteShape;
    var more := routes[..at + 1];
    assert forall i | 0 <= i < at :: more[i] == routes[i] == routes[..at][i];
    assert more[at] == routes[at];
  }

  /** The binding checks of `App::build`. */
  method CheckBindings(routes: seq<Route>) returns (error: Option<BindingError>)
    ensures error.None? <==> DistinctShapes(routes)
    ensures error.Some? ==> FirstClash(routes, error.value)
  {
    hide CanonicalRouteShape;
    var bindings: set<Route> := {};
    var shapes: set<(HttpMethod, bytes)> := {};
    var at := 0;
    while at < |routes|
      invariant 0 <= at <= |routes| && DistinctShapes(routes[..at])
      invariant forall route :: route in bindings <==> route in routes[..at]
      invariant forall i | 0 <= i < at :: (routes[i].verb, CanonicalRouteShape(routes[i].path)) in shapes
      invariant forall verb, shape | (verb, shape) in shapes ::
                  exists i | 0 <= i < at :: routes[i].verb == verb && CanonicalRouteShape(routes[i].path) == shape
    {
      var route := routes[at];
      RepeatsShape(routes, at);
      if route in bindings {
        return Some(DuplicateHttpBinding(route));
      }
      bindings := bindings + {route};
      var shape := CanonicalRouteShape(route.path);
      if (route.verb, shape) in shapes {
        return Some(AmbiguousHttpBinding(route));
      }
      shapes := shapes + {(route.verb, shape)};
      assert routes[..at + 1] == routes[..at] + [route];
      at := at + 1;
    }
    assert routes[..at] == routes;
    return None;
  }

  /** Two routes the trie or the static table could not tell apart. */
  predicate Clash(a: Route, b: Route) {
    && a.verb == b.verb
    && HasParameters(a.path) == HasParameters(b.path)
    && if HasParameters(a.path) then Shape(a.path) == Shape(b.path) else a.path == b.path
  }

  ghost predicate Unambiguous(routes: seq<Route>) {
    forall i, j | 0 <= i < j < |routes| :: !Clash(routes[i], routes[j])
  }

  ghost predicate LeadingSlashes(routes: seq<Route>) {
    forall i | 0 <= i < |routes| :: Slashed(routes[i].path)
  }

  /** The same pattern with parameters, once with a leading slash and once without. */
  predicate SlashTwins(a: Route, b: Route) {
    && a.verb == b.verb && Slashed(a.path) && !Slashed(b.path)
    && HasParameters(a.path) && HasParameters(b.path) && Shape(a.path) == Shape(b.path)
  }

  lemma SplitLeadingSlash(path: bytes)
    requires Slashed(path)
    ensures Split(path) == [[]] + Segments(path)
  {
    assert path[..0] == [];
  }

  /** Segments of the same shape have the same canonical form. */
  lemma SameCanonical(left: seq<bytes>, right: seq<bytes>)
    requires ShapeOf(left) == ShapeOf(right)
    ensures CanonicalSegments(left) == CanonicalSegments(right)
  {
    assert |left| == |ShapeOf(left)| == |right|;
    forall k | 0 <= k < |left| ensures CanonicalSegment(left[k]) == CanonicalSegment(right[k]) {
      assert ShapeOf(left)[k] == SegmentOf(left[k]) && ShapeOf(right)[k] == SegmentOf(right[k]);
    }
  }

  /** A clash is a clash of canonical shapes, unless a leading slash makes the difference. */
  lemma ClashSameShape(a: Route, b: Route)
    requires Slashed(a.path) == Slashed(b.path)
    ensures Clash(a, b) ==> CanonicalRouteShape(a.path) == CanonicalRouteShape(b.path)
  {
    hide Split, Join, HasParameters, ShapeOf, CanonicalSegments;
    if Clash(a, b) && HasParameters(a.path) {
      if Slashed(a.path) {
        SplitLeadingSlash(a.path);
        SplitLeadingSlash(b.path);
        FrontCanonical(Segments(a.path));
        FrontCanonical(Segments(b.path));
      }
      SameCanonical(Segments(a.path), Segments(b.path));
    }
  }

  lemma FrontCanonical(segments: seq<bytes>)
    ensures CanonicalSegments([[]] + segments) == [[]] + CanonicalSegments(segments)
  {
    assert CanonicalSegment([]) == [];
  }

  /**
   The routes `App::build` accepts never clash in the router if and only if no pattern with
   parameters is registered both with and without its leading slash.
   */
  lemma AcceptedUnambiguousExactly(routes: seq<Route>)
    requires DistinctShapes(routes)
    ensures Unambiguous(routes) <==>
              forall i, j | 0 <= i < |routes| && 0 <= j < |routes| :: !SlashTwins(routes[i], routes[j])
  {
    hide CanonicalRouteShape, HasParameters, Shape;
    forall i, j | 0 <= i < |routes| && 0 <= j < |routes| && SlashTwins(routes[i], routes[j])
      ensures i != j && Clash(routes[i], routes[j]) && Clash(routes[j], routes[i])
    {
    }
    forall i, j | 0 <= i < j < |routes|
      ensures Clash(routes[i], routes[j]) ==> SlashTwins(routes[i], routes[j]) || SlashTwins(routes[j], routes[i])
    {
      if Slashed(routes[i].path) == Slashed(routes[j].path) {
        ClashSameShape(routes[i], routes[j]);
      }
    }
  }

  /** In particular, routes that all have a leading slash never clash. */
  lemma AcceptedUnambiguous(routes: seq<Route>)
    requires DistinctShapes(routes) && LeadingSlashes(routes)
    ensures Unambiguous(routes)
  {
    hide HasParameters, Shape;
    AcceptedUnambiguousExactly(routes);
  }

  /** Twins do get past `App::build`, which then accepts routes the router cannot tell apart. */
  lemma AcceptedYetClashing()
    ensures var routes := [Route(Get, [SLASH, OPEN_BRACE, 97, CLOSE_BRACE]), Route(Get, [OPEN_BRACE, 97, CLOSE_BRACE])];
            DistinctShapes(routes) && SlashTwins(routes[0], routes[1]) && !Unambiguous(routes)
  {
    var first, second: bytes := [SLASH, OPEN_BRACE, 97, CLOSE_BRACE], [OPEN_BRACE, 97, CLOSE_BRACE];
    assert first[1..] == second && first[..0] == [];
    assert SlashAt(second) == 3;
    assert Split(second) == [second];
    assert Split(first) == [[], second];
    assert CanonicalSegments(Split(first)) == [[], EMPTY_BRACES];
    assert CanonicalSegments(Split(second)) == [EMPTY_BRACES];
    assert CanonicalRouteShape(second) == EMPTY_BRACES;
    assert CanonicalSegments(Split(first))[1..] == [EMPTY_BRACES];
    assert |CanonicalRouteShape(first)| == 3;
    assert Shape(first) == [Parameter] && Shape(second) == [Parameter];
    assert Shape(first)[0].Parameter? && Shape(second)[0].Parameter?;
    var routes := [Route(Get, first), Route(Get, second)];
    assert SlashTwins(routes[0], routes[1]) && Clash(routes[0], routes[1]);
  }
}
