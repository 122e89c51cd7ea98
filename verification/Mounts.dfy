/**
 Mount points of plugins: joined path prefixes and dotted id namespaces, and what serving one module
 under several of them keeps apart.
 */
module Mounts {
  import opened Wrappers
  import opened Bytes
  import opened RouteShapes

  const DOT: byte := 46
  const UNDERSCORE: byte := 95

  /** What of an operation's descriptor a mount changes. */
  datatype Descriptor = Descriptor(id: bytes, route: Route, tool: Option<bytes>)

  datatype MountPoint = MountPoint(prefix: bytes, namespace: bytes)

  const UNMOUNTED := MountPoint([], [])

  datatype MountError = InvalidMountPrefix(prefix: bytes) | InvalidIdNamespace(namespace: bytes)

  /** `valid_plugin_name`. */
  predicate ValidName(name: bytes) {
    name != [] && forall i | 0 <= i < |name| :: NameByte(name[i])
  }

  predicate NameByte(c: byte) {
    48 <= c <= 57 || 65 <= c <= 90 || 97 <= c <= 122 || c == DASH || c == UNDERSCORE
  }

  /** `valid_mount_prefix`. */
  predicate ValidPrefix(prefix: bytes) {
    && Slashed(prefix) && prefix[|prefix| - 1] != SLASH
    && OPEN_BRACE !in prefix && CLOSE_BRACE !in prefix
    && forall i | 1 <= i < |Split(prefix)| :: Split(prefix)[i] != []
  }

  /** The mount of a plugin inside a mount. */
  function Joined(mount: MountPoint, prefix: Option<bytes>, namespace: Option<bytes>): MountPoint {
    MountPoint(
      if prefix.Some? then mount.prefix + prefix.value else mount.prefix,
      if namespace.None? then mount.namespace
      else if mount.namespace == [] then namespace.value
      else mount.namespace + [DOT] + namespace.value)
  }

  /** `MountPoint::nested`. */
  function Nested(mount: MountPoint, prefix: Option<bytes>, namespace: Option<bytes>): (r: Result<MountPoint, MountError>)
    ensures r.Ok? <==>
              (prefix.Some? ==> ValidPrefix(prefix.value)) && (namespace.Some? ==> ValidName(namespace.value))
    ensures r.Ok? ==> r.value == Joined(mount, prefix, namespace)
  {
    if prefix.Some? && !ValidPrefix(prefix.value) then Err(InvalidMountPrefix(prefix.value))
    else if namespace.Some? && !ValidName(namespace.value) then Err(InvalidIdNamespace(namespace.value))
    else Ok(Joined(mount, prefix, namespace))
  }

  function MountedPath(prefix: bytes, declared: bytes): bytes {
    if prefix == [] then declared
    else if declared == [SLASH] then prefix
    else prefix + declared
  }

  function MountedId(namespace: bytes, id: bytes): bytes {
    if namespace == [] then id else namespace + [DOT] + id
  }

  function Underscored(namespace: bytes): (r: bytes)
    ensures |r| == |namespace|
    ensures forall i | 0 <= i < |namespace| ::
              r[i] == if namespace[i] == DOT || namespace[i] == DASH then UNDERSCORE else namespace[i]
  {
    seq(|namespace|, i requires 0 <= i < |namespace| =>
      if namespace[i] == DOT || namespace[i] == DASH then UNDERSCORE else namespace[i])
  }

  function MountedTool(namespace: bytes, tool: bytes): bytes {
    if namespace == [] then tool else Underscored(namespace) + [UNDERSCORE] + tool
  }

  function Mounted(mount: MountPoint, declared: Descriptor): Descriptor {
    Descriptor(
      MountedId(mount.namespace, declared.id),
      declared.route.(path := MountedPath(mount.prefix, declared.route.path)),
      if declared.tool.Some? then Some(MountedTool(mount.namespace, declared.tool.value)) else None)
  }

  /** What a mount makes of an operation's names, byte by byte: dots and dashes become underscores in tools. */
  lemma MountedNames(mount: MountPoint, declared: Descriptor)
    ensures var names := Mounted(mount, declared);
            && names.route.verb == declared.route.verb
            && (names.tool.Some? <==> declared.tool.Some?)
            && if mount.namespace == [] then names.id == declared.id && names.tool == declared.tool
               else
                 && names.id == mount.namespace + [46] + declared.id
                 && (declared.tool.Some? ==> ToolUnder(mount.namespace, declared.tool.value, names.tool.value))
    ensures var path := Mounted(mount, declared).route.path;
            path == if mount.prefix != [] && declared.route.path == [47] then mount.prefix
                    else mount.prefix + declared.route.path
  {
    assert [] + declared.route.path == declared.route.path;
  }

  /** `name` is the namespace with every `.` and `-` replaced by `_`, another `_`, and the tool. */
  predicate ToolUnder(namespace: bytes, tool: bytes, name: bytes) {
    && |name| == |namespace| + 1 + |tool|
    && (forall i | 0 <= i < |namespace| ::
          name[i] == if namespace[i] == 46 || namespace[i] == 45 then 95 else namespace[i])
    && name[|namespace|] == 95 && name[|namespace| + 1..] == tool
  }

  /** Prefixes are strung together and namespaces joined by dots. */
  lemma JoinedNames(mount: MountPoint, prefix: Option<bytes>, namespace: Option<bytes>)
    ensures var joined := Joined(mount, prefix, namespace);
            && joined.prefix == mount.prefix + (match prefix case Some(more) => more case None => [])
            && joined.namespace == (match namespace
                                    case None => mount.namespace
                                    case Some(name) =>
                                      if mount.namespace == [] then name else mount.namespace + [46] + name)
  {
    assert mount.prefix + [] == mount.prefix;
  }

  /** Names are the ASCII letters and digits, dashes and underscores. */
  lemma NameExactly(name: bytes)
    ensures ValidName(name)
       <==> name != [] && forall i | 0 <= i < |name| ::
              var c := name[i] as char;
              'a' <= c <= 'z' || 'A' <= c <= 'Z' || '0' <= c <= '9' || c == '-' || c == '_'
  {
    if name != [] && forall i | 0 <= i < |name| ::
        var c := name[i] as char;
        'a' <= c <= 'z' || 'A' <= c <= 'Z' || '0' <= c <= '9' || c == '-' || c == '_'
    {
      assert forall i | 0 <= i < |name| :: NameByte(name[i]);
    }
  }

  /** A mount prefix is one or more nonempty segments without slashes or braces, each led by a slash. */
  lemma PrefixExactly(prefix: bytes)
    ensures ValidPrefix(prefix)
       <==> exists segments: seq<bytes> :: segments != [] && prefix == [47] + Join(segments) && Literal(segments)
  {
    if ValidPrefix(prefix) {
      var pieces := Split(prefix);
      SplitSlashless(prefix);
      SplitBytes(prefix, 123);
      SplitBytes(prefix, 125);
      SlashLeads(prefix);
      hide Split, Join;
      JoinSplit(prefix);
      assert pieces == [[]] + pieces[1..];
      JoinSlashes([], pieces[1..]);
      assert [] + [47] + Join(pieces[1..]) == [47] + Join(pieces[1..]);
      assert Literal(pieces[1..]);
    }
    forall segments: seq<bytes> | segments != [] && prefix == [47] + Join(segments) && Literal(segments)
      ensures ValidPrefix(prefix)
    {
      PrefixFromSegments(prefix, segments);
    }
  }

  /** Nonempty segments without slashes or braces. */
  predicate Literal(segments: seq<bytes>) {
    forall i | 0 <= i < |segments| ::
      segments[i] != [] && 47 !in segments[i] && 123 !in segments[i] && 125 !in segments[i]
  }

  lemma SlashLeads(path: bytes)
    requires Slashed(path)
    ensures |Split(path)| > 1 && Split(path)[0] == []
  {
    SplitFront(path);
  }

  lemma PrefixFromSegments(prefix: bytes, segments: seq<bytes>)
    requires segments != [] && prefix == [47] + Join(segments) && Literal(segments)
    ensures ValidPrefix(prefix)
  {
    var pieces := [[]] + segments;
    JoinSlashes([], segments);
    assert [] + [47] + Join(segments) == prefix;
    assert forall i | 0 <= i < |pieces| :: 47 !in pieces[i];
    SplitJoin(pieces);
    JoinedBytes(segments);
    hide Split, Join;
    assert forall i | 1 <= i < |pieces| :: pieces[i] == segments[i - 1];
  }

  lemma {:induction false} JoinedBytes(segments: seq<bytes>)
    requires segments != [] && Literal(segments)
    ensures var text := Join(segments);
            text != [] && text[|text| - 1] != 47 && 123 !in text && 125 !in text
    decreases |segments|
  {
    if |segments| > 1 {
      JoinedBytes(segments[1..]);
    } else {
      assert segments[0][|segments[0]| - 1] in segments[0];
    }
  }

  /** `MountPoint::apply`; which ids are well-formed is the contract crate's business. */
  function Apply(mount: MountPoint, declared: Descriptor, validId: bytes -> bool): (r: Result<Descriptor, MountError>)
    ensures r.Ok? <==> mount.namespace == [] || validId(MountedId(mount.namespace, declared.id))
    ensures r.Ok? ==> r.value == Mounted(mount, declared)
  {
    if mount.namespace != [] && !validId(MountedId(mount.namespace, declared.id)) then
      Err(InvalidIdNamespace(MountedId(mount.namespace, declared.id)))
    else Ok(Mounted(mount, declared))
  }

  // ----- prefixes along a path of plugins -----

  /** A prefix as nested mounts leave it: nothing, or a slash-led literal path without a slash at its end. */
  predicate MountPrefix(prefix: bytes) {
    && (prefix != [] ==> Slashed(prefix) && prefix[|prefix| - 1] != SLASH)
    && OPEN_BRACE !in prefix
  }

  lemma JoinedPrefix(mount: MountPoint, prefix: Option<bytes>, namespace: Option<bytes>)
    requires MountPrefix(mount.prefix) && Nested(mount, prefix, namespace).Ok?
    ensures MountPrefix(Joined(mount, prefix, namespace).prefix)
  {
  }

  // ----- mounting and matching -----

  lemma {:induction false} JoinConcat(first: seq<bytes>, second: seq<bytes>)
    requires first != [] && second != []
    ensures Join(first + second) == Join(first) + [SLASH] + Join(second)
    decreases |first|
  {
    var all := first + second;
    if |first| == 1 {
      assert all[1..] == second;
    } else {
      assert all[1..] == first[1..] + second;
      JoinConcat(first[1..], second);
      hide Join;
      assert first[0] + [SLASH] + (Join(first[1..]) + [SLASH] + Join(second))
          == (first[0] + [SLASH] + Join(first[1..])) + [SLASH] + Join(second);
    }
  }

  lemma SplitConcat(a: bytes, b: bytes)
    ensures Split(a + [SLASH] + b) == Split(a) + Split(b)
  {
    JoinSplit(a);
    JoinSplit(b);
    SplitSlashless(a);
    SplitSlashless(b);
    hide Split, Join;
    JoinConcat(Split(a), Split(b));
    SplitJoin(Split(a) + Split(b));
  }

  lemma {:induction false} SplitBytes(text: bytes, c: byte)
    requires c !in text
    ensures forall i | 0 <= i < |Split(text)| :: c !in Split(text)[i]
    decreases |text|
  {
    SplitFront(text);
    var at := SlashAt(text);
    if at < |text| {
      SplitBytes(text[at + 1..], c);
    }
  }

  lemma NoParameters(text: bytes)
    requires OPEN_BRACE !in text
    ensures forall i | 0 <= i < |Split(text)| :: !IsParameter(Split(text)[i])
  {
    SplitBytes(text, OPEN_BRACE);
    hide Split;
    assert forall i | 0 <= i < |Split(text)| && Split(text)[i] != [] :: Split(text)[i][0] in Split(text)[i];
  }

  /** The mounted pattern's segments are the prefix's, which are literal, and then the pattern's. */
  lemma MountedSegments(prefix: bytes, path: bytes)
    requires MountPrefix(prefix) && prefix != [] && Slashed(path)
    ensures Segments(prefix + path) == Segments(prefix) + Segments(path)
    ensures forall i | 0 <= i < |Segments(prefix)| :: !IsParameter(Segments(prefix)[i])
  {
    assert (prefix + path)[1..] == prefix[1..] + [SLASH] + path[1..];
    SplitConcat(prefix[1..], path[1..]);
    NoParameters(prefix[1..]);
    hide Split, IsParameter;
  }

  lemma ShapeConcat(first: seq<bytes>, second: seq<bytes>)
    ensures ShapeOf(first + second) == ShapeOf(first) + ShapeOf(second)
  {
    hide IsParameter;
  }

  lemma FitsConcat(first: seq<Segment>, second: seq<Segment>, segments: seq<bytes>)
    ensures Fits(first + second, 0, segments) <==>
              |first| <= |segments| && Fits(first, 0, segments[..|first|]) && Fits(second, 0, segments[|first|..])
  {
    var shape, n := first + second, |first|;
    if Fits(shape, 0, segments) {
      assert forall i | 0 <= i < n :: shape[i] == first[i] && segments[..n][i] == segments[i];
      forall i | 0 <= i < |second| ensures second[i].Parameter? || second[i] == Static(segments[n..][i]) {
        assert shape[n + i] == second[i] && segments[n..][i] == segments[n + i];
      }
    }
    if n <= |segments| && Fits(first, 0, segments[..n]) && Fits(second, 0, segments[n..]) {
      forall i | 0 <= i < |shape| ensures shape[i].Parameter? || shape[i] == Static(segments[i]) {
        if i < n {
          assert shape[i] == first[i] && segments[..n][i] == segments[i];
        } else {
          assert shape[i] == second[i - n] && segments[n..][i - n] == segments[i];
        }
      }
    }
  }

  lemma LiteralFits(literal: seq<bytes>, segments: seq<bytes>)
    requires forall i | 0 <= i < |literal| :: !IsParameter(literal[i])
    ensures Fits(ShapeOf(literal), 0, segments) <==> segments == literal
  {
    hide IsParameter;
    assert forall i | 0 <= i < |literal| :: ShapeOf(literal)[i] == Static(literal[i]);
  }

  lemma FitsAfterLiteral(literal: seq<bytes>, pattern: seq<bytes>, segments: seq<bytes>)
    requires forall i | 0 <= i < |literal| :: !IsParameter(literal[i])
    ensures Fits(ShapeOf(literal + pattern), 0, segments) <==>
              literal <= segments && Fits(ShapeOf(pattern), 0, segments[|literal|..])
  {
    ShapeConcat(literal, pattern);
    FitsConcat(ShapeOf(literal), ShapeOf(pattern), segments);
    if |literal| <= |segments| {
      LiteralFits(literal, segments[..|literal|]);
    }
    hide IsParameter, Fits, ShapeOf;
  }

  lemma MountedParameters(prefix: bytes, path: bytes)
    requires MountPrefix(prefix) && prefix != [] && Slashed(path)
    ensures HasParameters(prefix + path) <==> HasParameters(path)
  {
    MountedSegments(prefix, path);
    ShapeConcat(Segments(prefix), Segments(path));
    hide Segments, IsParameter;
    var literal, own := Shape(prefix), Shape(path);
    assert forall i | 0 <= i < |literal| :: literal[i] == SegmentOf(Segments(prefix)[i]);
    assert Shape(prefix + path) == literal + own;
    AnyParameter(literal, own);
    hide ShapeOf;
  }

  lemma AnyParameter(literal: seq<Segment>, own: seq<Segment>)
    requires forall i | 0 <= i < |literal| :: literal[i].Static?
    ensures (exists i | 0 <= i < |literal + own| :: (literal + own)[i].Parameter?)
       <==> exists i | 0 <= i < |own| :: own[i].Parameter?
  {
    var whole := literal + own;
    assert forall i | 0 <= i < |own| :: own[i] == whole[|literal| + i];
    assert forall i | |literal| <= i < |whole| :: whole[i] == own[i - |literal|];
  }

  /** A path whose first segments are the prefix's is the prefix and then a path with the other segments. */
  lemma PrefixOfSegments(prefix: bytes, request: bytes)
    requires Slashed(prefix) && Slashed(request)
    requires Segments(prefix) <= Segments(request) && |Segments(prefix)| < |Segments(request)|
    ensures prefix <= request && Slashed(request[|prefix|..])
  {
    var before, all := Segments(prefix), Segments(request);
    var after := all[|before|..];
    assert all == before + after;
    JoinSplit(prefix[1..]);
    JoinSplit(request[1..]);
    JoinConcat(before, after);
    hide Split, Join, Segments;
    PrefixOfTail(prefix, request, Join(after));
  }

  lemma PrefixOfTail(prefix: bytes, request: bytes, rest: bytes)
    requires Slashed(prefix) && Slashed(request) && request[1..] == prefix[1..] + [SLASH] + rest
    ensures prefix <= request && Slashed(request[|prefix|..])
  {
    assert forall i | 1 <= i < |request| :: request[i] == request[1..][i - 1];
    assert forall i | 1 <= i < |prefix| :: prefix[i] == prefix[1..][i - 1];
    assert request[|prefix|] == SLASH;
  }

  /**
   Mounting moves a route without changing it: under a prefix, a slash-led pattern matches exactly the
   prefix followed by what it matches by itself.
   */
  lemma MountedMatches(prefix: bytes, route: Route, request: bytes)
    requires MountPrefix(prefix) && prefix != [] && Slashed(route.path) && Slashed(request)
    ensures Matches(Route(route.verb, prefix + route.path), request) <==>
              && prefix <= request && Slashed(request[|prefix|..])
              && Matches(route, request[|prefix|..])
  {
    MountedParameters(prefix, route.path);
    if HasParameters(route.path) {
      MountedSegments(prefix, route.path);
      MountedFits(prefix, route.path, request);
    } else {
      assert request == prefix + route.path <==> prefix <= request && request[|prefix|..] == route.path;
    }
    hide *;
  }

  lemma MountedFits(prefix: bytes, path: bytes, request: bytes)
    requires MountPrefix(prefix) && prefix != [] && Slashed(path) && Slashed(request)
    ensures Fits(ShapeOf(Segments(prefix) + Segments(path)), 0, Segments(request)) <==>
              && prefix <= request && Slashed(request[|prefix|..])
              && Fits(ShapeOf(Segments(path)), 0, Segments(request[|prefix|..]))
  {
    MountedSegments(prefix, path);
    FitsAfterLiteral(Segments(prefix), Segments(path), Segments(request));
    hide Fits, ShapeOf, Segments, IsParameter;
    if prefix <= request && Slashed(request[|prefix|..]) {
      MountedSegments(prefix, request[|prefix|..]);
      assert request == prefix + request[|prefix|..];
      assert Segments(request)[|Segments(prefix)|..] == Segments(request[|prefix|..]);
    } else if Fits(ShapeOf(Segments(prefix) + Segments(path)), 0, Segments(request)) {
      FitsLength(Segments(prefix) + Segments(path), Segments(request));
      PrefixOfSegments(prefix, request);
    }
  }

  lemma FitsLength(pattern: seq<bytes>, segments: seq<bytes>)
    requires Fits(ShapeOf(pattern), 0, segments)
    ensures |pattern| == |segments|
  {
  }

  /** What an operation serves under a mount, in terms of what it declares; the root becomes the prefix. */
  lemma MountedServes(mount: MountPoint, declared: Descriptor, request: bytes)
    requires MountPrefix(mount.prefix) && Slashed(declared.route.path) && Slashed(request)
    ensures Matches(Mounted(mount, declared).route, request) <==>
              if mount.prefix == [] then Matches(declared.route, request)
              else if declared.route.path == [SLASH] then request == mount.prefix
              else
                && mount.prefix <= request && Slashed(request[|mount.prefix|..])
                && Matches(declared.route, request[|mount.prefix|..])
  {
    if mount.prefix != [] {
      if declared.route.path == [SLASH] {
        LiteralMatches(mount.prefix, declared.route.verb, request);
      } else {
        MountedMatches(mount.prefix, declared.route, request);
      }
    }
  }

  lemma LiteralMatches(prefix: bytes, verb: HttpMethod, request: bytes)
    requires MountPrefix(prefix) && Slashed(prefix)
    ensures Matches(Route(verb, prefix), request) <==> request == prefix
  {
    NoParameters(prefix[1..]);
    hide Split, IsParameter;
    assert forall i | 0 <= i < |Shape(prefix)| :: Shape(prefix)[i] == SegmentOf(Segments(prefix)[i]);
  }

  /** A declared path stays below its mount exactly when it is empty or slash-led; nothing checks that it is. */
  lemma StaysBelow(prefix: bytes, declared: bytes)
    ensures PathHasPrefix(MountedPath(prefix, declared), prefix) <==> declared == [] || Slashed(declared)
  {
  }

  // ----- one module, several mounts -----

  predicate Separator(c: byte) {
    c == DOT || c == DASH || c == UNDERSCORE
  }

  /** The namespaces differ in their separators only. */
  predicate Confusable(a: bytes, b: bytes) {
    |a| == |b| && forall i | 0 <= i < |a| :: a[i] == b[i] || (Separator(a[i]) && Separator(b[i]))
  }

  lemma UnderscoredAlike(a: bytes, b: bytes)
    ensures Underscored(a) == Underscored(b) <==> Confusable(a, b)
  {
    if Confusable(a, b) {
      assert Underscored(a) == Underscored(b);
    }
    if Underscored(a) == Underscored(b) {
      assert |a| == |Underscored(a)| == |b|;
      assert forall i | 0 <= i < |a| :: Underscored(a)[i] == Underscored(b)[i];
    }
  }

  lemma SameEnd(a: bytes, b: bytes, end: bytes)
    requires a + end == b + end
    ensures a == b
  {
    assert |a + end| == |a| + |end| && |b + end| == |b| + |end|;
    assert (a + end)[..|a|] == a && (b + end)[..|b|] == b;
  }

  /**
   One operation under two namespaces keeps two ids, always; it keeps two tool names unless the
   namespaces differ in their separators only.
   */
  lemma TwoMounts(first: MountPoint, second: MountPoint, declared: Descriptor)
    requires first.namespace != second.namespace
    ensures Mounted(first, declared).id != Mounted(second, declared).id
    ensures declared.tool.Some? ==>
              (Mounted(first, declared).tool == Mounted(second, declared).tool <==>
                 Confusable(first.namespace, second.namespace))
  {
    var a, b := first.namespace, second.namespace;
    if a != [] && b != [] {
      if Mounted(first, declared).id == Mounted(second, declared).id {
        assert a + [DOT] + declared.id == a + ([DOT] + declared.id) && b + [DOT] + declared.id == b + ([DOT] + declared.id);
        SameEnd(a, b, [DOT] + declared.id);
      }
      if declared.tool.Some? {
        TwoTools(a, b, declared.tool.value);
      }
    }
  }

  lemma TwoTools(a: bytes, b: bytes, tool: bytes)
    requires a != [] && b != []
    ensures MountedTool(a, tool) == MountedTool(b, tool) <==> Confusable(a, b)
  {
    UnderscoredAlike(a, b);
    hide Confusable, Underscored;
    var end := [UNDERSCORE] + tool;
    assert MountedTool(a, tool) == Underscored(a) + end && MountedTool(b, tool) == Underscored(b) + end;
    if MountedTool(a, tool) == MountedTool(b, tool) {
      SameEnd(Underscored(a), Underscored(b), end);
    }
  }

  // ----- looking tools up -----

  predicate HasTool(operation: Descriptor, name: bytes) {
    operation.tool == Some(name)
  }

  /** `operation_for_mcp_tool`: the first operation with the name. */
  method OperationForMcpTool(operations: seq<Descriptor>, name: bytes) returns (found: Option<nat>)
    ensures found == FirstTool(operations, name)
  {
    for at := 0 to |operations|
      invariant FirstTool(operations, name)
             == match FirstTool(operations[at..], name) { case None => None case Some(k) => Some(at + k) }
    {
      assert operations[at..][1..] == operations[at + 1..];
      if HasTool(operations[at], name) {
        return Some(at);
      }
    }
    assert operations[|operations|..] == [];
    return None;
  }

  function FirstTool(operations: seq<Descriptor>, name: bytes): (found: Option<nat>)
    ensures found.Some? ==> found.value < |operations| && HasTool(operations[found.value], name)
    ensures forall i | 0 <= i < (if found.Some? then found.value else |operations|) :: !HasTool(operations[i], name)
  {
    if operations == [] then None
    else if HasTool(operations[0], name) then Some(0)
    else
      match FirstTool(operations[1..], name)
      case None => None
      case Some(k) => Some(1 + k)
  }

  /** Every tool can be called by its name. */
  ghost predicate AllCallable(operations: seq<Descriptor>) {
    forall i | 0 <= i < |operations| && operations[i].tool.Some? ::
      FirstTool(operations, operations[i].tool.value) == Some(i)
  }

  ghost predicate DistinctTools(operations: seq<Descriptor>) {
    forall i, j | 0 <= i < j < |operations| && operations[i].tool.Some? :: operations[i].tool != operations[j].tool
  }

  lemma CallableExactly(operations: seq<Descriptor>)
    ensures AllCallable(operations) <==> DistinctTools(operations)
  {
    hide FirstTool;
    if AllCallable(operations) {
      forall i, j | 0 <= i < j < |operations| && operations[i].tool.Some?
        ensures operations[i].tool != operations[j].tool
      {
        assert FirstTool(operations, operations[i].tool.value) == Some(i);
      }
    }
    if DistinctTools(operations) {
      forall i | 0 <= i < |operations| && operations[i].tool.Some?
        ensures FirstTool(operations, operations[i].tool.value) == Some(i)
      {
        var name := operations[i].tool.value;
        var found := FirstTool(operations, name);
        assert HasTool(operations[i], name);
        assert found.Some? && found.value <= i && operations[found.value].tool == Some(name);
      }
    }
  }

  /** A path without braces is its own canonical shape. */
  lemma CanonicalPlain(path: bytes)
    requires OPEN_BRACE !in path
    ensures CanonicalRouteShape(path) == path
  {
    SplitBytes(path, OPEN_BRACE);
    JoinSplit(path);
    hide Split, Join;
    forall i | 0 <= i < |Split(path)| ensures CanonicalSegment(Split(path)[i]) == Split(path)[i] {
      var segment := Split(path)[i];
      assert segment != [] ==> segment[0] in segment;
    }
    assert CanonicalSegments(Split(path)) == Split(path);
  }

  /**
   Two names that differ in a separator pass every check made when the application is built, and yet
   the second mount's tool is never found: here a module below `/1` and `/2`.
   */
  lemma MountedToolShadowed(tool: bytes)
    ensures var declared := Descriptor([120], Route(Get, [SLASH, 120]), Some(tool));
            var first := Nested(UNMOUNTED, Some([SLASH, 49]), Some([97, DASH, 98]));
            var second := Nested(UNMOUNTED, Some([SLASH, 50]), Some([97, UNDERSCORE, 98]));
            && first.Ok? && second.Ok?
            && var a, b := Mounted(first.value, declared), Mounted(second.value, declared);
               DistinctShapes([a.route, b.route]) && a.id != b.id && !AllCallable([a, b])
  {
    var declared := Descriptor([120], Route(Get, [SLASH, 120]), Some(tool));
    OneSegment(49);
    OneSegment(50);
    hide CanonicalRouteShape, ValidPrefix, FirstTool, Underscored;
    assert ValidName([97, DASH, 98]) && ValidName([97, UNDERSCORE, 98]);
    var first := Joined(UNMOUNTED, Some([SLASH, 49]), Some([97, DASH, 98]));
    var second := Joined(UNMOUNTED, Some([SLASH, 50]), Some([97, UNDERSCORE, 98]));
    var a, b := Mounted(first, declared), Mounted(second, declared);
    assert Confusable(first.namespace, second.namespace);
    assert first.namespace[1] != second.namespace[1];
    TwoMounts(first, second, declared);
    CallableExactly([a, b]);
    assert [a, b][0].tool == [a, b][1].tool;
    TwoPaths(a.route, b.route);
  }

  lemma TwoPaths(a: Route, b: Route)
    requires a.path == [SLASH, 49, SLASH, 120] && b.path == [SLASH, 50, SLASH, 120]
    ensures DistinctShapes([a, b])
  {
    CanonicalPlain(a.path);
    CanonicalPlain(b.path);
    assert a.path[1] != b.path[1];
    hide CanonicalRouteShape;
  }

  lemma OneSegment(c: byte)
    requires c != SLASH && c != OPEN_BRACE && c != CLOSE_BRACE
    ensures ValidPrefix([SLASH, c])
  {
    var prefix: bytes := [SLASH, c];
    assert Slashed(prefix);
    SplitLeadingSlash(prefix);
    assert prefix[1..] == [c];
    assert SlashAt([c]) == 1;
    SplitFront([c]);
  }

  // ----- whole modules under several mounts -----

  /** What a namespace puts in front of a tool's name. */
  function ToolLead(namespace: bytes): bytes {
    if namespace == [] then [] else Underscored(namespace) + [UNDERSCORE]
  }

  /** What a namespace puts in front of an id. */
  function IdLead(namespace: bytes): bytes {
    if namespace == [] then [] else namespace + [DOT]
  }

  lemma LeadsFirst(mount: MountPoint, declared: Descriptor)
    ensures Mounted(mount, declared).id == IdLead(mount.namespace) + declared.id
    ensures declared.tool.Some? ==>
              Mounted(mount, declared).tool == Some(ToolLead(mount.namespace) + declared.tool.value)
    ensures declared.tool.None? ==> Mounted(mount, declared).tool.None?
  {
    hide Underscored;
    assert [] + declared.id == declared.id;
    if declared.tool.Some? {
      assert [] + declared.tool.value == declared.tool.value;
    }
  }

  /** One lead begins the other, and one name makes up for the difference. */
  predicate Meet(a: bytes, t: bytes, b: bytes, u: bytes) {
    (a <= b && t == b[|a|..] + u) || (b <= a && u == a[|b|..] + t)
  }

  lemma MeetExactly(a: bytes, t: bytes, b: bytes, u: bytes)
    ensures a + t == b + u <==> Meet(a, t, b, u)
  {
    if a + t == b + u {
      if |a| <= |b| {
        Remainder(a, t, b, u);
      } else {
        Remainder(b, u, a, t);
      }
    }
    if a <= b && t == b[|a|..] + u {
      assert a + (b[|a|..] + u) == (a + b[|a|..]) + u;
      assert a + b[|a|..] == b;
    }
    if b <= a && u == a[|b|..] + t {
      assert b + (a[|b|..] + t) == (b + a[|b|..]) + t;
      assert b + a[|b|..] == a;
    }
  }

  lemma Remainder(a: bytes, t: bytes, b: bytes, u: bytes)
    requires a + t == b + u && |a| <= |b|
    ensures a <= b && t == b[|a|..] + u
  {
    var whole := a + t;
    assert whole[..|a|] == a && whole[..|b|] == b && whole[|a|..] == t;
    assert whole == b + u;
    assert (b + u)[|a|..] == b[|a|..] + u;
    assert a == b[..|a|];
  }

  /** An operation and the mount its plugin sits in. */
  datatype Placed = Placed(mount: MountPoint, declared: Descriptor)

  function Served(placed: seq<Placed>): (served: seq<Descriptor>)
    ensures |served| == |placed|
    ensures forall i | 0 <= i < |placed| :: served[i] == Mounted(placed[i].mount, placed[i].declared)
  {
    seq(|placed|, i requires 0 <= i < |placed| => Mounted(placed[i].mount, placed[i].declared))
  }

  predicate ToolsMeet(x: Placed, y: Placed) {
    && x.declared.tool.Some? && y.declared.tool.Some?
    && Meet(ToolLead(x.mount.namespace), x.declared.tool.value, ToolLead(y.mount.namespace), y.declared.tool.value)
  }

  predicate IdsMeet(x: Placed, y: Placed) {
    Meet(IdLead(x.mount.namespace), x.declared.id, IdLead(y.mount.namespace), y.declared.id)
  }

  lemma SameToolExactly(x: Placed, y: Placed)
    ensures (Mounted(x.mount, x.declared).tool.Some?
             && Mounted(x.mount, x.declared).tool == Mounted(y.mount, y.declared).tool) <==> ToolsMeet(x, y)
  {
    LeadsFirst(x.mount, x.declared);
    LeadsFirst(y.mount, y.declared);
    hide Mounted, ToolLead, Meet;
    if x.declared.tool.Some? && y.declared.tool.Some? {
      MeetExactly(ToolLead(x.mount.namespace), x.declared.tool.value, ToolLead(y.mount.namespace), y.declared.tool.value);
    }
  }

  lemma SameIdExactly(x: Placed, y: Placed)
    ensures Mounted(x.mount, x.declared).id == Mounted(y.mount, y.declared).id <==> IdsMeet(x, y)
  {
    LeadsFirst(x.mount, x.declared);
    LeadsFirst(y.mount, y.declared);
    hide Mounted, IdLead, Meet;
    MeetExactly(IdLead(x.mount.namespace), x.declared.id, IdLead(y.mount.namespace), y.declared.id);
  }

  ghost predicate DistinctIds(operations: seq<Descriptor>) {
    forall i, j | 0 <= i < j < |operations| :: operations[i].id != operations[j].id
  }

  /** However an application mounts its operations: every tool is callable if and only if no two meet. */
  lemma ToolsExactly(placed: seq<Placed>)
    ensures AllCallable(Served(placed)) <==> forall i, j | 0 <= i < j < |placed| :: !ToolsMeet(placed[i], placed[j])
  {
    CallableExactly(Served(placed));
    hide ToolsMeet, AllCallable, Mounted;
    forall i, j | 0 <= i < j < |placed|
      ensures (Served(placed)[i].tool.Some? && Served(placed)[i].tool == Served(placed)[j].tool)
         <==> ToolsMeet(placed[i], placed[j])
    {
      SameToolExactly(placed[i], placed[j]);
    }
  }

  /** The same for ids, which the build compares. */
  lemma IdsExactly(placed: seq<Placed>)
    ensures DistinctIds(Served(placed)) <==> forall i, j | 0 <= i < j < |placed| :: !IdsMeet(placed[i], placed[j])
  {
    hide IdsMeet, Mounted;
    forall i, j | 0 <= i < j < |placed|
      ensures Served(placed)[i].id == Served(placed)[j].id <==> IdsMeet(placed[i], placed[j])
    {
      SameIdExactly(placed[i], placed[j]);
    }
  }

  function PlaceAll(mount: MountPoint, operations: seq<Descriptor>): (placed: seq<Placed>)
    ensures |placed| == |operations|
    ensures forall i | 0 <= i < |operations| :: placed[i] == Placed(mount, operations[i])
  {
    seq(|operations|, i requires 0 <= i < |operations| => Placed(mount, operations[i]))
  }

  /** One module under two mounts. */
  function Twice(first: MountPoint, second: MountPoint, operations: seq<Descriptor>): seq<Placed> {
    PlaceAll(first, operations) + PlaceAll(second, operations)
  }

  lemma MeetItself(lead: bytes, t: bytes, u: bytes)
    ensures Meet(lead, t, lead, u) <==> t == u
  {
    assert lead[|lead|..] == [];
    assert [] + u == u && [] + t == t;
  }

  lemma Alongside(first: seq<Placed>, second: seq<Placed>, meets: (Placed, Placed) -> bool)
    ensures (forall i, j | 0 <= i < j < |first + second| :: !meets((first + second)[i], (first + second)[j])) <==>
              && (forall i, j | 0 <= i < j < |first| :: !meets(first[i], first[j]))
              && (forall i, j | 0 <= i < j < |second| :: !meets(second[i], second[j]))
              && (forall i, j | 0 <= i < |first| && 0 <= j < |second| :: !meets(first[i], second[j]))
  {
    var all, n := first + second, |first|;
    if forall i, j | 0 <= i < j < |all| :: !meets(all[i], all[j]) {
      forall i, j | 0 <= i < j < |first| ensures !meets(first[i], first[j]) {
        assert !meets(all[i], all[j]);
      }
      forall i, j | 0 <= i < j < |second| ensures !meets(second[i], second[j]) {
        assert !meets(all[n + i], all[n + j]);
      }
      forall i, j | 0 <= i < |first| && 0 <= j < |second| ensures !meets(first[i], second[j]) {
        assert !meets(all[i], all[n + j]);
      }
    }
  }

  /**
   A module under two mounts keeps all its tools callable if and only if its own tools are distinct and
   no tool of the one mount meets one of the other.
   */
  lemma ModuleTools(first: MountPoint, second: MountPoint, operations: seq<Descriptor>)
    ensures AllCallable(Served(Twice(first, second, operations))) <==>
              && DistinctTools(operations)
              && forall x, y | x in operations && y in operations && x.tool.Some? && y.tool.Some? ::
                   !Meet(ToolLead(first.namespace), x.tool.value, ToolLead(second.namespace), y.tool.value)
  {
    ToolsExactly(Twice(first, second, operations));
    var one, two := PlaceAll(first, operations), PlaceAll(second, operations);
    Alongside(one, two, ToolsMeet);
    OwnTools(first, operations);
    OwnTools(second, operations);
    hide AllCallable, Meet, ToolLead, Served, Mounted;
    assert forall i, j | 0 <= i < |one| && 0 <= j < |two| ::
        ToolsMeet(one[i], two[j]) <==>
          && operations[i].tool.Some? && operations[j].tool.Some?
          && Meet(ToolLead(first.namespace), operations[i].tool.value, ToolLead(second.namespace), operations[j].tool.value);
  }

  lemma OwnTools(mount: MountPoint, operations: seq<Descriptor>)
    ensures var placed := PlaceAll(mount, operations);
            (forall i, j | 0 <= i < j < |placed| :: !ToolsMeet(placed[i], placed[j])) <==> DistinctTools(operations)
  {
    hide Meet, ToolLead;
    var placed, lead := PlaceAll(mount, operations), ToolLead(mount.namespace);
    forall i, j | 0 <= i < j < |placed|
      ensures ToolsMeet(placed[i], placed[j]) <==>
                operations[i].tool.Some? && operations[i].tool == operations[j].tool
    {
      if operations[i].tool.Some? && operations[j].tool.Some? {
        MeetItself(lead, operations[i].tool.value, operations[j].tool.value);
      }
    }
  }

  /** Its ids stay distinct, and so pass the build, under the analogous condition. */
  lemma ModuleIds(first: MountPoint, second: MountPoint, operations: seq<Descriptor>)
    ensures DistinctIds(Served(Twice(first, second, operations))) <==>
              && DistinctIds(operations)
              && forall x, y | x in operations && y in operations ::
                   !Meet(IdLead(first.namespace), x.id, IdLead(second.namespace), y.id)
  {
    IdsExactly(Twice(first, second, operations));
    var one, two := PlaceAll(first, operations), PlaceAll(second, operations);
    Alongside(one, two, IdsMeet);
    OwnIds(first, operations);
    OwnIds(second, operations);
    hide Meet, IdLead, Served;
    assert forall i, j | 0 <= i < |one| && 0 <= j < |two| ::
        IdsMeet(one[i], two[j]) <==> Meet(IdLead(first.namespace), operations[i].id, IdLead(second.namespace), operations[j].id);
  }

  lemma OwnIds(mount: MountPoint, operations: seq<Descriptor>)
    ensures var placed := PlaceAll(mount, operations);
            (forall i, j | 0 <= i < j < |placed| :: !IdsMeet(placed[i], placed[j])) <==> DistinctIds(operations)
  {
    hide Meet, IdLead;
    var placed, lead := PlaceAll(mount, operations), IdLead(mount.namespace);
    forall i, j | 0 <= i < j < |placed|
      ensures IdsMeet(placed[i], placed[j]) <==> operations[i].id == operations[j].id
    {
      MeetItself(lead, operations[i].id, operations[j].id);
    }
  }

  // ----- which namespaces are safe whatever the module -----

  /** Two mounts keep the tools of every module callable exactly when neither lead begins the other. */
  lemma SafeForTools(first: MountPoint, second: MountPoint)
    ensures (forall operations | DistinctTools(operations) :: AllCallable(Served(Twice(first, second, operations)))) <==>
              !(ToolLead(first.namespace) <= ToolLead(second.namespace))
              && !(ToolLead(second.namespace) <= ToolLead(first.namespace))
  {
    hide AllCallable, DistinctTools, ToolLead, Served, Twice;
    var a, b := ToolLead(first.namespace), ToolLead(second.namespace);
    forall operations | DistinctTools(operations)
      ensures !(a <= b) && !(b <= a) ==> AllCallable(Served(Twice(first, second, operations)))
    {
      ModuleTools(first, second, operations);
    }
    if a <= b {
      var operations := Spoiler(b[|a|..]);
      ModuleTools(first, second, operations);
    } else if b <= a {
      var operations := Spoiler(a[|b|..]);
      ModuleTools(first, second, operations);
    }
  }

  /** A module one of whose tools is another behind `difference`; or, behind nothing, itself. */
  lemma Spoiler(difference: bytes) returns (operations: seq<Descriptor>)
    ensures DistinctTools(operations)
    ensures exists x, y :: x in operations && y in operations && x.tool.Some? && y.tool.Some?
                           && x.tool.value == difference + y.tool.value
  {
    var short := Descriptor([], Route(Get, []), Some([]));
    var long := Descriptor([], Route(Get, []), Some(difference));
    operations := if difference == [] then [short] else [short, long];
    assert difference + [] == difference;
    assert short in operations && (if difference == [] then short else long) in operations;
  }

  /** Ids are safer: two different one-level namespaces never let ids meet, because no name holds a dot. */
  lemma SafeForIds(first: MountPoint, second: MountPoint, operations: seq<Descriptor>)
    requires ValidName(first.namespace) && ValidName(second.namespace) && first.namespace != second.namespace
    ensures DistinctIds(Served(Twice(first, second, operations))) <==> DistinctIds(operations)
  {
    var a, b := first.namespace, second.namespace;
    if IdLead(a) <= IdLead(b) {
      BeginsSame(a, b);
    }
    if IdLead(b) <= IdLead(a) {
      BeginsSame(b, a);
    }
    hide ValidName, IdLead, Served, Twice, DistinctIds;
    ModuleIds(first, second, operations);
  }

  lemma BeginsSame(a: bytes, b: bytes)
    requires ValidName(a) && ValidName(b) && IdLead(a) <= IdLead(b)
    ensures a == b
  {
    var x, y := IdLead(a), IdLead(b);
    assert y[|a|] == x[|a|] == DOT;
    assert forall i | 0 <= i < |b| :: y[i] == b[i] && NameByte(b[i]);
    assert |a| == |b|;
    assert forall i | 0 <= i < |a| :: a[i] == x[i] == y[i];
  }

  const NAME_A: bytes := [97]
  const NAME_A_B: bytes := [97, UNDERSCORE, 98]
  const TOOL_X: bytes := [120]
  const TOOL_B_X: bytes := [98, UNDERSCORE, 120]

  /**
   Namespaces that differ in more than separators are not enough: a module with the tools `x` and `b_x`
   under the namespaces `a` and `a_b` has distinct ids and tools, and yet one tool is never found.
   */
  lemma ModuleToolShadowed(x: Descriptor, y: Descriptor)
    requires x.tool == Some(TOOL_X) && y.tool == Some(TOOL_B_X) && x.id != y.id
    ensures var first := Nested(UNMOUNTED, Some([SLASH, 49]), Some(NAME_A));
            var second := Nested(UNMOUNTED, Some([SLASH, 50]), Some(NAME_A_B));
            && first.Ok? && second.Ok? && !Confusable(NAME_A, NAME_A_B) && DistinctTools([x, y])
            && DistinctIds(Served(Twice(first.value, second.value, [x, y])))
            && !AllCallable(Served(Twice(first.value, second.value, [x, y])))
  {
    OneSegment(49);
    OneSegment(50);
    ShadowNames();
    ShadowLeads(x.tool.value, y.tool.value);
    hide *;
    var first := Joined(UNMOUNTED, Some([SLASH, 49]), Some(NAME_A));
    var second := Joined(UNMOUNTED, Some([SLASH, 50]), Some(NAME_A_B));
    JoinedNamespace(Some([SLASH, 49]), NAME_A);
    JoinedNamespace(Some([SLASH, 50]), NAME_A_B);
    TwoApart(x, y);
    SafeForIds(first, second, [x, y]);
    ModuleTools(first, second, [x, y]);
    assert y in [x, y] && x in [x, y];
  }

  lemma JoinedNamespace(prefix: Option<bytes>, name: bytes)
    ensures Joined(UNMOUNTED, prefix, Some(name)).namespace == name
  {
  }

  lemma TwoApart(x: Descriptor, y: Descriptor)
    requires x.tool == Some(TOOL_X) && y.tool == Some(TOOL_B_X) && x.id != y.id
    ensures DistinctIds([x, y]) && DistinctTools([x, y])
  {
    assert TOOL_X[0] != TOOL_B_X[0];
  }

  lemma ShadowNames()
    ensures ValidName(NAME_A) && ValidName(NAME_A_B) && NAME_A != NAME_A_B && !Confusable(NAME_A, NAME_A_B)
  {
    assert |NAME_A| != |NAME_A_B|;
  }

  lemma ShadowLeads(short: bytes, long: bytes)
    requires short == TOOL_X && long == TOOL_B_X
    ensures Meet(ToolLead(NAME_A), long, ToolLead(NAME_A_B), short)
  {
    var a, b := ToolLead(NAME_A), ToolLead(NAME_A_B);
    assert a == [97, UNDERSCORE] && b == [97, UNDERSCORE, 98, UNDERSCORE];
    assert b[|a|..] + TOOL_X == TOOL_B_X;
  }

  /** Nested namespaces hold dots, and then ids can meet: `b.x` inside `a` and `x` inside `a` and `b`. */
  lemma NestedIdsMeet(outer: MountPoint, inner: MountPoint, x: Descriptor, y: Descriptor)
    requires Nested(UNMOUNTED, None, Some(NAME_A)) == Ok(outer) && Nested(outer, None, Some([98])) == Ok(inner)
    requires x.id == [120] && y.id == [98, DOT, 120]
    ensures Mounted(outer, y).id == Mounted(inner, x).id && !DistinctIds(Served(Twice(outer, inner, [x, y])))
  {
    hide Served, Twice;
    assert outer.namespace == [97] && inner.namespace == [97, DOT, 98];
    ModuleIds(outer, inner, [x, y]);
    var a, b := IdLead(outer.namespace), IdLead(inner.namespace);
    assert a == [97, DOT] && b == [97, DOT, 98, DOT];
    assert b[|a|..] + x.id == y.id;
    assert Meet(a, y.id, b, x.id);
    assert y in [x, y] && x in [x, y];
    assert a + y.id == [97, DOT, 98, DOT, 120] == b + x.id;
    LeadsFirst(outer, y);
    LeadsFirst(inner, x);
  }
}
