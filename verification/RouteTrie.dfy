/** The capture stack of a trie walk: nothing, eight inline places, or the heap. */
module CaptureStack {
  import opened Wrappers
  import opened Bytes

  const INLINE_PATH_PARAMETERS: nat := 8

  datatype Storage =
    | Empty
    | Inline(places: seq<Option<bytes>>, len: nat)
    | Heap(values: seq<bytes>)

  predicate Sound(storage: Storage) {
    storage.Inline? ==>
      && |storage.places| == INLINE_PATH_PARAMETERS && storage.len <= INLINE_PATH_PARAMETERS
      && forall i | 0 <= i < storage.len :: storage.places[i].Some?
  }

  function Contents(storage: Storage): seq<bytes>
    requires Sound(storage)
  {
    match storage
    case Empty => []
    case Inline(places, len) => seq(len, i requires 0 <= i < len => places[i].value)
    case Heap(values) => values
  }

  class CapturedSegments {
    var storage: Storage

    constructor ()
      ensures Valid() && Stack() == []
    {
      storage := Empty;
    }

    predicate Valid()
      reads this
    {
      Sound(storage)
    }

    function Stack(): seq<bytes>
      requires Valid()
      reads this
    {
      Contents(storage)
    }

    method Push(value: bytes)
      requires Valid()
      modifies this
      ensures Valid() && Stack() == old(Stack()) + [value]
    {
      match storage {
        case Empty =>
          storage := Inline(seq(INLINE_PATH_PARAMETERS, _ => None)[0 := Some(value)], 1);
        case Inline(places, len) =>
          if len < INLINE_PATH_PARAMETERS {
            storage := Inline(places[len := Some(value)], len + 1);
          } else {
            storage := Heap(Contents(storage) + [value]);
          }
        case Heap(values) =>
          storage := Heap(values + [value]);
      }
    }

    method Pop()
      requires Valid()
      modifies this
      ensures Valid() && Stack() == if old(Stack()) == [] then [] else old(Stack())[..|old(Stack())| - 1]
    {
      match storage {
        case Empty =>
        case Inline(places, len) => storage := Inline(places, if len == 0 then 0 else len - 1);
        case Heap(values) => storage := Heap(if values == [] then [] else values[..|values| - 1]);
      }
    }

    method Get(index: nat) returns (value: Option<bytes>)
      requires Valid()
      ensures value == if index < |Stack()| then Some(Stack()[index]) else None
    {
      match storage {
        case Empty => return None;
        case Inline(places, len) =>
          if index < len {
            return places[index];
          }
          return None;
        case Heap(values) =>
          if index < |values| {
            return Some(values[index]);
          }
          return None;
      }
    }
  }
}

/** The parameter trie: nodes in a vector, linked by index; a node's shape is the path that leads to it. */
module RouteTrie {
  import opened Wrappers
  import opened Bytes
  import opened RouteShapes

  datatype StaticChild = StaticChild(head: byte, node: nat, segment: bytes)

  datatype RouteNode = RouteNode(
    staticChildren: seq<StaticChild>, parameterChild: Option<nat>, endpoints: map<HttpMethod, nat>)

  const EMPTY_NODE := RouteNode([], None, map[])

  /** A prefilter for the scan of children. */
  function HeadByte(segment: bytes): byte {
    if segment == [] then 0 else segment[0]
  }

  /** The first child with this segment. */
  function FindChild(children: seq<StaticChild>, segment: bytes): (child: Option<nat>)
    ensures child.Some? ==>
              exists i :: 0 <= i < |children| && children[i].node == child.value && children[i].segment == segment
    ensures child.None? ==>
              forall i | 0 <= i < |children| && children[i].head == HeadByte(segment) :: children[i].segment != segment
  {
    if children == [] then None
    else if children[0].head == HeadByte(segment) && children[0].segment == segment then Some(children[0].node)
    else FindChild(children[1..], segment)
  }

  /** `m` is `n`'s child for `x`. */
  predicate Child(shapes: seq<seq<Segment>>, n: nat, x: Segment, m: nat) {
    n < |shapes| && m < |shapes| && shapes[m] == shapes[n] + [x]
  }

  /** Some link of node `n` leads to `m`. */
  predicate Linked(nodes: seq<RouteNode>, n: nat, m: nat) {
    && n < |nodes|
    && (nodes[n].parameterChild == Some(m)
        || exists i | 0 <= i < |nodes[n].staticChildren| :: nodes[n].staticChildren[i].node == m)
  }

  ghost predicate LinksValid(nodes: seq<RouteNode>, shapes: seq<seq<Segment>>, n: nat)
    requires n < |nodes|
  {
    && (nodes[n].parameterChild.Some? ==> Child(shapes, n, Parameter, nodes[n].parameterChild.value))
    && forall i | 0 <= i < |nodes[n].staticChildren| ::
         var child := nodes[n].staticChildren[i];
         child.head == HeadByte(child.segment) && Child(shapes, n, Static(child.segment), child.node)
  }

  ghost predicate HasParent(nodes: seq<RouteNode>, m: nat) {
    exists n | 0 <= n < |nodes| :: Linked(nodes, n, m)
  }

  ghost predicate TrieValid(nodes: seq<RouteNode>, shapes: seq<seq<Segment>>) {
    && |nodes| == |shapes| >= 1 && shapes[0] == []
    && (forall m, n | 0 <= m < n < |shapes| :: shapes[m] != shapes[n])
    && (forall n | 0 <= n < |nodes| :: LinksValid(nodes, shapes, n))
    && (forall m | 0 < m < |nodes| :: HasParent(nodes, m))
  }

  /** A link is the only way its child can be a child. */
  lemma ChildIsLinked(nodes: seq<RouteNode>, shapes: seq<seq<Segment>>, n: nat, x: Segment, m: nat)
    requires TrieValid(nodes, shapes) && Child(shapes, n, x, m)
    ensures x.Parameter? ==> nodes[n].parameterChild == Some(m)
    ensures x.Static? ==> FindChild(nodes[n].staticChildren, x.text) == Some(m)
  {
    assert |shapes[m]| > 0 && m != 0;
    assert HasParent(nodes, m);
    var from :| 0 <= from < |nodes| && Linked(nodes, from, m);
    assert LinksValid(nodes, shapes, from) && LinksValid(nodes, shapes, n);
    LinkedShape(nodes, shapes, from, m);
    assert shapes[from] == shapes[m][..|shapes[m]| - 1] == shapes[n];
    assert from == n;
    var last := shapes[m][|shapes[m]| - 1];
    assert last == x;
    if x.Static? {
      FoundChild(nodes, shapes, n, x.text, m);
    }
  }

  lemma LinkedShape(nodes: seq<RouteNode>, shapes: seq<seq<Segment>>, n: nat, m: nat)
    requires n < |nodes| && Linked(nodes, n, m) && LinksValid(nodes, shapes, n)
    ensures n < |shapes| && m < |shapes| && |shapes[m]| == |shapes[n]| + 1
    ensures shapes[m][..|shapes[m]| - 1] == shapes[n]
    ensures (shapes[m][|shapes[m]| - 1].Parameter? && nodes[n].parameterChild == Some(m))
            || exists i :: && 0 <= i < |nodes[n].staticChildren| && nodes[n].staticChildren[i].node == m
                           && shapes[m][|shapes[m]| - 1] == Static(nodes[n].staticChildren[i].segment)
  {
    if nodes[n].parameterChild == Some(m) {
      assert Child(shapes, n, Parameter, m);
    } else {
      var i :| 0 <= i < |nodes[n].staticChildren| && nodes[n].staticChildren[i].node == m;
      assert Child(shapes, n, Static(nodes[n].staticChildren[i].segment), m);
    }
  }

  lemma FoundChild(nodes: seq<RouteNode>, shapes: seq<seq<Segment>>, n: nat, segment: bytes, m: nat)
    requires TrieValid(nodes, shapes) && Child(shapes, n, Static(segment), m)
    requires exists i :: && 0 <= i < |nodes[n].staticChildren| && nodes[n].staticChildren[i].node == m
                         && nodes[n].staticChildren[i].segment == segment
    ensures FindChild(nodes[n].staticChildren, segment) == Some(m)
  {
    var children := nodes[n].staticChildren;
    var i :| 0 <= i < |children| && children[i].node == m && children[i].segment == segment;
    assert LinksValid(nodes, shapes, n);
    assert children[i].head == HeadByte(segment);
    var found := FindChild(children, segment);
    var j :| 0 <= j < |children| && children[j].node == found.value && children[j].segment == segment;
    assert Child(shapes, n, Static(children[j].segment), children[j].node);
    assert shapes[found.value] == shapes[m];
  }

  lemma FoundIsChild(nodes: seq<RouteNode>, shapes: seq<seq<Segment>>, n: nat, segment: bytes)
    requires TrieValid(nodes, shapes) && n < |nodes|
    ensures var child := FindChild(nodes[n].staticChildren, segment);
            child.Some? ==> Child(shapes, n, Static(segment), child.value)
    ensures var child := nodes[n].parameterChild;
            child.Some? ==> Child(shapes, n, Parameter, child.value)
  {
    assert LinksValid(nodes, shapes, n);
  }

  /** Every prefix of a node's shape is a node's shape. */
  lemma {:induction false} Ancestor(nodes: seq<RouteNode>, shapes: seq<seq<Segment>>, m: nat, k: nat) returns (a: nat)
    requires TrieValid(nodes, shapes) && m < |shapes| && k <= |shapes[m]|
    ensures a < |shapes| && shapes[a] == shapes[m][..k]
    decreases |shapes[m]|
  {
    if k == |shapes[m]| {
      a := m;
    } else {
      assert HasParent(nodes, m);
      var from :| 0 <= from < |nodes| && Linked(nodes, from, m);
      assert LinksValid(nodes, shapes, from);
      LinkedShape(nodes, shapes, from, m);
      a := Ancestor(nodes, shapes, from, k);
      assert shapes[m][..|shapes[m]| - 1][..k] == shapes[m][..k];
    }
  }

  // ----- the nodes a walk can end at -----

  /** Node `m` lies below `n`, and the way there fits `segments`. */
  predicate Fitting(shapes: seq<seq<Segment>>, n: nat, segments: seq<bytes>, m: nat) {
    && n < |shapes| && m < |shapes|
    && Fits(shapes[m], |shapes[n]|, segments)
    && forall j | 0 <= j < |shapes[n]| :: shapes[m][j] == shapes[n][j]
  }

  lemma FittingHere(nodes: seq<RouteNode>, shapes: seq<seq<Segment>>, n: nat, m: nat)
    requires TrieValid(nodes, shapes) && n < |shapes|
    ensures Fitting(shapes, n, [], m) <==> m == n
  {
    if Fitting(shapes, n, [], m) {
      assert shapes[m] == shapes[n];
    }
  }

  lemma FittingThrough(shapes: seq<seq<Segment>>, n: nat, segments: seq<bytes>, x: Segment, c: nat, m: nat)
    requires segments != [] && Child(shapes, n, x, c) && (x.Parameter? || x == Static(segments[0]))
    requires Fitting(shapes, c, segments[1..], m)
    ensures Fitting(shapes, n, segments, m) && shapes[m][|shapes[n]|] == x
  {
    var shape := shapes[m];
    assert shape[|shapes[n]|] == shapes[c][|shapes[n]|];
    forall j | |shapes[n]| <= j < |shape| ensures shape[j].Parameter? || shape[j] == Static(segments[j - |shapes[n]|]) {
      if j > |shapes[n]| {
        assert segments[1..][j - |shapes[c]|] == segments[j - |shapes[n]|];
      }
    }
    forall j | 0 <= j < |shapes[n]| ensures shape[j] == shapes[n][j] {
      assert shapes[c][j] == shapes[n][j];
    }
  }

  /** Whatever fits goes through the static child or the parameter child. */
  lemma FittingSplits(nodes: seq<RouteNode>, shapes: seq<seq<Segment>>, n: nat, segments: seq<bytes>, m: nat)
    requires TrieValid(nodes, shapes) && segments != [] && Fitting(shapes, n, segments, m)
    ensures var x := shapes[m][|shapes[n]|];
            if x.Static? then
              && x == Static(segments[0])
              && var c := FindChild(nodes[n].staticChildren, segments[0]);
                 c.Some? && Fitting(shapes, c.value, segments[1..], m)
            else
              nodes[n].parameterChild.Some? && Fitting(shapes, nodes[n].parameterChild.value, segments[1..], m)
  {
    var depth := |shapes[n]|;
    var x := shapes[m][depth];
    var a := Ancestor(nodes, shapes, m, depth + 1);
    assert shapes[a] == shapes[n] + [x];
    ChildIsLinked(nodes, shapes, n, x, a);
    FittingBelow(shapes, n, segments, a, m);
  }

  lemma FittingBelow(shapes: seq<seq<Segment>>, n: nat, segments: seq<bytes>, a: nat, m: nat)
    requires segments != [] && Fitting(shapes, n, segments, m)
    requires a < |shapes| && |shapes[a]| == |shapes[n]| + 1 && shapes[a] == shapes[m][..|shapes[a]|]
    ensures Fitting(shapes, a, segments[1..], m)
  {
    var rest := segments[1..];
    forall j | |shapes[a]| <= j < |shapes[m]| ensures shapes[m][j].Parameter? || shapes[m][j] == Static(rest[j - |shapes[a]|]) {
      assert rest[j - |shapes[a]|] == segments[j - |shapes[n]|];
    }
  }

  /** Through the static child beats through the parameter child. */
  lemma StaticBeatsParameter(shapes: seq<seq<Segment>>, n: nat, segments: seq<bytes>, m: nat, other: nat)
    requires segments != [] && Fitting(shapes, n, segments, m) && Fitting(shapes, n, segments, other)
    requires shapes[m][|shapes[n]|].Static? && shapes[other][|shapes[n]|].Parameter?
    ensures Better(shapes[m], shapes[other])
  {
    assert forall j | 0 <= j < |shapes[n]| :: shapes[m][j] == shapes[n][j] == shapes[other][j];
  }

  /** The captures of a walk from `n` to `m`. */
  function CapturedFrom(shapes: seq<seq<Segment>>, n: nat, segments: seq<bytes>, m: nat): seq<bytes>
    requires Fitting(shapes, n, segments, m)
  {
    Captured(shapes[m][|shapes[n]|..], segments)
  }

  lemma CapturedThrough(shapes: seq<seq<Segment>>, n: nat, segments: seq<bytes>, x: Segment, c: nat, m: nat)
    requires segments != [] && Child(shapes, n, x, c) && (x.Parameter? || x == Static(segments[0]))
    requires Fitting(shapes, c, segments[1..], m)
    ensures Fitting(shapes, n, segments, m)
    ensures CapturedFrom(shapes, n, segments, m)
            == (if x.Parameter? then [segments[0]] else []) + CapturedFrom(shapes, c, segments[1..], m)
  {
    FittingThrough(shapes, n, segments, x, c, m);
    var tail := shapes[m][|shapes[n]|..];
    assert tail[0] == x && tail[1..] == shapes[m][|shapes[c]|..];
  }

  // ----- growing the trie -----

  /** Node `n` with a link for `x` to `m`. */
  function WithLink(node: RouteNode, x: Segment, m: nat): RouteNode {
    match x
    case Parameter => node.(parameterChild := Some(m))
    case Static(text) => node.(staticChildren := node.staticChildren + [StaticChild(HeadByte(text), m, text)])
  }

  /** A child that is not there yet can be added as the last node. */
  lemma AddChild(nodes: seq<RouteNode>, shapes: seq<seq<Segment>>, n: nat, x: Segment)
    requires TrieValid(nodes, shapes) && n < |nodes|
    requires x.Parameter? ==> nodes[n].parameterChild.None?
    requires x.Static? ==> FindChild(nodes[n].staticChildren, x.text).None?
    ensures TrieValid(nodes[n := WithLink(nodes[n], x, |nodes|)] + [EMPTY_NODE], shapes + [shapes[n] + [x]])
  {
    var linked := WithLink(nodes[n], x, |nodes|);
    var grown, longer := nodes[n := linked] + [EMPTY_NODE], shapes + [shapes[n] + [x]];
    forall m | 0 <= m < |shapes| ensures longer[m] != longer[|shapes|] {
      if Child(shapes, n, x, m) {
        ChildIsLinked(nodes, shapes, n, x, m);
      }
    }
    forall k | 0 <= k < |grown| ensures LinksValid(grown, longer, k) {
      if k < |nodes| {
        assert LinksValid(nodes, shapes, k);
        LinksKept(nodes, shapes, n, x, k);
      }
    }
    forall m | 0 < m < |grown| ensures HasParent(grown, m) {
      ParentKept(nodes, n, x, m);
    }
  }

  lemma LinksKept(nodes: seq<RouteNode>, shapes: seq<seq<Segment>>, n: nat, x: Segment, k: nat)
    requires |nodes| == |shapes| && n < |nodes| && k < |nodes| && LinksValid(nodes, shapes, k)
    ensures LinksValid(nodes[n := WithLink(nodes[n], x, |nodes|)] + [EMPTY_NODE], shapes + [shapes[n] + [x]], k)
  {
    var grown, longer := nodes[n := WithLink(nodes[n], x, |nodes|)] + [EMPTY_NODE], shapes + [shapes[n] + [x]];
    assert longer[|nodes|] == longer[n] + [x] && Child(longer, n, x, |nodes|);
    forall y, m | Child(shapes, k, y, m) ensures Child(longer, k, y, m) {
    }
    var children := grown[k].staticChildren;
    forall i | 0 <= i < |children|
      ensures children[i].head == HeadByte(children[i].segment)
      ensures Child(longer, k, Static(children[i].segment), children[i].node)
    {
      if i < |nodes[k].staticChildren| {
        assert children[i] == nodes[k].staticChildren[i];
      }
    }
  }

  lemma ParentKept(nodes: seq<RouteNode>, n: nat, x: Segment, m: nat)
    requires n < |nodes| && 0 < m <= |nodes| && (m < |nodes| ==> HasParent(nodes, m))
    requires x.Parameter? ==> nodes[n].parameterChild.None?
    ensures HasParent(nodes[n := WithLink(nodes[n], x, |nodes|)] + [EMPTY_NODE], m)
  {
    var grown := nodes[n := WithLink(nodes[n], x, |nodes|)] + [EMPTY_NODE];
    var before, after := nodes[n].staticChildren, grown[n].staticChildren;
    if m == |nodes| {
      assert x.Static? ==> after[|before|].node == m;
      assert Linked(grown, n, m);
    } else {
      var from :| 0 <= from < |nodes| && Linked(nodes, from, m);
      if nodes[from].parameterChild != Some(m) {
        var i :| 0 <= i < |nodes[from].staticChildren| && nodes[from].staticChildren[i].node == m;
        assert grown[from].staticChildren[i].node == m;
      }
      assert Linked(grown, from, m);
    }
  }

  /** Only endpoints differ. */
  predicate SameLinks(before: seq<RouteNode>, after: seq<RouteNode>) {
    && |before| == |after|
    && forall n | 0 <= n < |before| ::
         before[n].staticChildren == after[n].staticChildren && before[n].parameterChild == after[n].parameterChild
  }

  lemma EndpointsAside(before: seq<RouteNode>, after: seq<RouteNode>, shapes: seq<seq<Segment>>)
    requires TrieValid(before, shapes) && SameLinks(before, after)
    ensures TrieValid(after, shapes)
  {
    forall n | 0 <= n < |after| ensures LinksValid(after, shapes, n) {
      assert LinksValid(before, shapes, n);
    }
    forall m | 0 < m < |after| ensures HasParent(after, m) {
      assert HasParent(before, m);
      var n :| 0 <= n < |before| && Linked(before, n, m);
      assert Linked(after, n, m);
    }
  }
}
