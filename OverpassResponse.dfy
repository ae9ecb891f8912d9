/** The decoded Overpass response: nodes, ways and the correlation that
    resolves every way's node ids against the nodes of the same response. */
module OverpassResponse {
  import opened Wrappers
  import opened Sequences
  import opened Json

  /** A point in degrees; `Double`s are modelled as reals. */
  datatype Location = Location(latitude: real, longitude: real)

  datatype Node = Node(id: int, location: Location, tags: map<string, string>)

  /** A way: its node ids as the service sent them and, once correlated,
      the nodes those ids resolve to. */
  datatype Way = Way(id: int, nodeIds: seq<int>, tags: map<string, string>, nodes: seq<Node>)

  /** `Element`; a relation wraps another element and is never decoded. */
  datatype Element =
    | NodeElement(node: Node)
    | WayElement(way: Way)
    | RelationElement(member: Element)

  /** The parsed `osm3s.timestamp_osm_base`, as seconds on some fixed scale. */
  type Date = real

  /** `Response`; `elements` is derived from these fields, see `Elements`. */
  datatype Response = Response(version: string, generator: string, timestamp: Date, copyright: string,
                               ways: seq<Way>, nodes: seq<Node>)

  // ---------------------------------------------------------------------
  // Equality

  /** `Location ==`. */
  predicate LocationEq(l: Location, r: Location)
  {
    l.latitude == r.latitude && l.longitude == r.longitude
  }

  /** `Node ==`. */
  predicate NodeEq(l: Node, r: Node)
  {
    l.id == r.id && LocationEq(l.location, r.location) && l.tags == r.tags
  }

  /** `Way ==`: the resolved nodes take part as well. */
  predicate WayEq(l: Way, r: Way)
  {
    l.id == r.id && l.tags == r.tags && l.nodeIds == r.nodeIds
    && |l.nodes| == |r.nodes| && forall i :: 0 <= i < |l.nodes| ==> NodeEq(l.nodes[i], r.nodes[i])
  }

  /** `Element ==`: a node against a node, a way against a way, and false
      for every other pair, a relation against itself included. */
  predicate ElementEq(l: Element, r: Element)
  {
    match (l, r)
    case (NodeElement(a), NodeElement(b)) => NodeEq(a, b)
    case (WayElement(a), WayElement(b)) => WayEq(a, b)
    case _ => false
  }

  /** `Relation`: never produced by decoding, and never equal to anything. */
  datatype Relation = Relation(id: int, members: seq<Element>, tags: map<string, string>)

  /** `Relation ==`. */
  predicate RelationEq(l: Relation, r: Relation): (b: bool)
    ensures !b
  {
    false
  }

  /** `Response ==`: every stored field; `elements` is derived from them. */
  predicate ResponseEq(l: Response, r: Response)
  {
    l.version == r.version && l.generator == r.generator && l.timestamp == r.timestamp
    && l.copyright == r.copyright
    && |l.ways| == |r.ways| && (forall i :: 0 <= i < |l.ways| ==> WayEq(l.ways[i], r.ways[i]))
    && |l.nodes| == |r.nodes| && (forall i :: 0 <= i < |l.nodes| ==> NodeEq(l.nodes[i], r.nodes[i]))
  }

  lemma WayEqIsEquality(l: Way, r: Way)
    ensures WayEq(l, r) <==> l == r
  {
    if WayEq(l, r) { assert l.nodes == r.nodes; }
  }

  /** Element equality is structural equality, except that no relation
      equals anything. */
  lemma ElementEqIsEquality(l: Element, r: Element)
    ensures ElementEq(l, r) <==> l == r && !l.RelationElement?
  {
    if l.WayElement? && r.WayElement? { WayEqIsEquality(l.way, r.way); }
  }

  lemma ResponseEqIsEquality(l: Response, r: Response)
    ensures ResponseEq(l, r) <==> l == r
  {
    if ResponseEq(l, r) {
      assert l.nodes == r.nodes;
      forall i | 0 <= i < |l.ways| ensures l.ways[i] == r.ways[i] { WayEqIsEquality(l.ways[i], r.ways[i]); }
      assert l.ways == r.ways;
    }
    if l == r {
      forall i | 0 <= i < |l.ways| ensures WayEq(l.ways[i], r.ways[i]) { WayEqIsEquality(l.ways[i], r.ways[i]); }
    }
  }

  // ---------------------------------------------------------------------
  // Ways and correlation

  function NodeId(n: Node): int
  {
    n.id
  }

  /** `Way(id:nodeIds:tags:)`: nothing resolved yet. */
  function NewWay(id: int, nodeIds: seq<int>, tags: map<string, string>): (w: Way)
    ensures w.nodes == []
  {
    Way(id, nodeIds, tags, [])
  }

  /** `Way(id:nodes:tags:)`: the node ids are read off the given nodes. */
  function WayFromNodes(id: int, nodes: seq<Node>, tags: map<string, string>): (w: Way)
    ensures |w.nodeIds| == |nodes| && forall i :: 0 <= i < |nodes| ==> w.nodeIds[i] == nodes[i].id
    ensures w.nodes == nodes
  {
    Way(id, Map(NodeId, nodes), tags, nodes)
  }

  /** Some node in the list carries this id. */
  predicate HasNode(nodes: seq<Node>, id: int)
  {
    exists i :: 0 <= i < |nodes| && nodes[i].id == id
  }

  /** Position `i` holds the first node with this id. */
  ghost predicate IsFirstWithId(nodes: seq<Node>, i: int, id: int)
  {
    0 <= i < |nodes| && nodes[i].id == id && forall j :: 0 <= j < i ==> nodes[j].id != id
  }

  /** `nodes.first(where: { $0.id == id })`. */
  function FirstWithId(nodes: seq<Node>, id: int): (r: Option<Node>)
    ensures r.None? <==> !HasNode(nodes, id)
    ensures r.Some? ==> exists i :: IsFirstWithId(nodes, i, id) && nodes[i] == r.value
  {
    if nodes == [] then None
    else if nodes[0].id == id then
      assert IsFirstWithId(nodes, 0, id);
      Some(nodes[0])
    else
      var r := FirstWithId(nodes[1..], id);
      assert HasNode(nodes, id) ==> HasNode(nodes[1..], id) by {
        if HasNode(nodes, id) {
          var i :| 0 <= i < |nodes| && nodes[i].id == id;
          assert nodes[1..][i - 1] == nodes[i];
        }
      }
      assert r.Some? ==> exists i :: IsFirstWithId(nodes, i, id) && nodes[i] == r.value by {
        if r.Some? {
          var i :| IsFirstWithId(nodes[1..], i, id) && nodes[1..][i] == r.value;
          assert IsFirstWithId(nodes, i + 1, id);
        }
      }
      r
  }

  /** The nodes that the ids resolve to, in id order: an id that matches no
      node is skipped, a repeated id resolves again. */
  function Correlate(ids: seq<int>, nodes: seq<Node>): seq<Node>
  {
    if ids == [] then []
    else
      var prefix := Correlate(ids[..|ids| - 1], nodes);
      match FirstWithId(nodes, ids[|ids| - 1])
      case Some(n) => prefix + [n]
      case None => prefix
  }

  /** `Way.add(nodes:)`, a mutating method on a value type: the resolved
      list is emptied, then each node id in turn appends the first node
      that carries it. The updated way is returned. */
  method AddNodes(way: Way, nodes: seq<Node>) returns (r: Way)
    ensures r == way.(nodes := Correlate(way.nodeIds, nodes))
  {
    r := way.(nodes := []);
    for i := 0 to |way.nodeIds|
      invariant r == way.(nodes := Correlate(way.nodeIds[..i], nodes))
    {
      var id := way.nodeIds[i];
      assert way.nodeIds[..i + 1][..i] == way.nodeIds[..i];
      var found := FirstWithId(nodes, id);
      if found.Some? {
        r := r.(nodes := r.nodes + [found.value]);
      }
    }
    assert way.nodeIds[..|way.nodeIds|] == way.nodeIds;
  }

  /** The way that `with(nodes:)` returns. */
  function WayWith(way: Way, nodes: seq<Node>): Way
  {
    NewWay(way.id, way.nodeIds, way.tags).(nodes := Correlate(way.nodeIds, nodes))
  }

  /** `Way.with(nodes:)`: a fresh copy without resolved nodes, correlated. */
  method With(way: Way, nodes: seq<Node>) returns (r: Way)
    ensures r == WayWith(way, nodes)
    ensures r.id == way.id && r.nodeIds == way.nodeIds && r.tags == way.tags
  {
    var copy := NewWay(way.id, way.nodeIds, way.tags);
    r := AddNodes(copy, nodes);
  }

  /** The ids of the resolved nodes are the way's node ids with the ids that
      match no node removed; order and repeats are kept. */
  lemma {:induction false} CorrelateIds(ids: seq<int>, nodes: seq<Node>)
    ensures Map(NodeId, Correlate(ids, nodes)) == Filter(id => HasNode(nodes, id), ids)
  {
    if ids != [] {
      var init, last := ids[..|ids| - 1], ids[|ids| - 1];
      assert ids == init + [last];
      CorrelateIds(init, nodes);
      FilterAppend(id => HasNode(nodes, id), init, [last]);
      var prefix := Correlate(init, nodes);
      match FirstWithId(nodes, last) {
        case Some(n) =>
          MapAppend(NodeId, prefix, [n]);
        case None =>
      }
    }
  }

  /** Every resolved node is the first node of the list that has its id. */
  lemma {:induction false} CorrelateFirst(ids: seq<int>, nodes: seq<Node>)
    ensures forall k :: 0 <= k < |Correlate(ids, nodes)| ==>
      FirstWithId(nodes, Correlate(ids, nodes)[k].id) == Some(Correlate(ids, nodes)[k])
  {
    if ids != [] {
      CorrelateFirst(ids[..|ids| - 1], nodes);
    }
  }

  /** At most one resolved node per id, and exactly one per id when every
      id has a node. */
  lemma CorrelateLength(ids: seq<int>, nodes: seq<Node>)
    ensures |Correlate(ids, nodes)| <= |ids|
    ensures |Correlate(ids, nodes)| == |ids| <==> forall i :: 0 <= i < |ids| ==> HasNode(nodes, ids[i])
  {
    CorrelateIds(ids, nodes);
    FilterKeepsAll(id => HasNode(nodes, id), ids);
  }

  /** `add(nodes:)` keeps the id, node ids and tags, replaces whatever was
      resolved before, and doing it twice with the same nodes changes
      nothing more. */
  lemma AddNodesIdempotent(way: Way, nodes: seq<Node>, earlier: seq<Node>)
    ensures WayWith(way, nodes) == WayWith(way.(nodes := earlier), nodes)
    ensures WayWith(WayWith(way, nodes), nodes) == WayWith(way, nodes)
    ensures WayWith(way, nodes).id == way.id && WayWith(way, nodes).nodeIds == way.nodeIds
         && WayWith(way, nodes).tags == way.tags
  {
  }

  /** A way built from a list of nodes with distinct ids resolves back to
      exactly that list when correlated against it. */
  lemma {:induction false} WayFromNodesRoundTrip(id: int, nodes: seq<Node>, tags: map<string, string>)
    requires forall i, j :: 0 <= i < j < |nodes| ==> nodes[i].id != nodes[j].id
    ensures WayWith(WayFromNodes(id, nodes, tags), nodes) == WayFromNodes(id, nodes, tags)
  {
    var w := WayFromNodes(id, nodes, tags);
    CorrelateAll(w.nodeIds, nodes, |nodes|);
    assert w.nodeIds[..|nodes|] == w.nodeIds;
    assert nodes[..|nodes|] == nodes;
  }

  lemma {:induction false} CorrelateAll(ids: seq<int>, nodes: seq<Node>, n: nat)
    requires n <= |ids| == |nodes|
    requires forall i :: 0 <= i < |nodes| ==> ids[i] == nodes[i].id
    requires forall i, j :: 0 <= i < j < |nodes| ==> nodes[i].id != nodes[j].id
    ensures Correlate(ids[..n], nodes) == nodes[..n]
  {
    if n > 0 {
      CorrelateAll(ids, nodes, n - 1);
      assert ids[..n][..n - 1] == ids[..n - 1];
      var id := ids[n - 1];
      var r := FirstWithId(nodes, id);
      assert HasNode(nodes, id) by { assert nodes[n - 1].id == id; }
      var i :| IsFirstWithId(nodes, i, id) && nodes[i] == r.value;
      assert i == n - 1;
      assert nodes[..n] == nodes[..n - 1] + [nodes[n - 1]];
    }
  }

  lemma FirstWithIdCons(n: Node, rest: seq<Node>, id: int)
    ensures FirstWithId([n] + rest, id) == if n.id == id then Some(n) else FirstWithId(rest, id)
  {
    assert ([n] + rest)[1..] == rest;
  }

  /** Resolving one more id appends its first node, or nothing. */
  lemma CorrelateSnoc(ids: seq<int>, id: int, nodes: seq<Node>)
    ensures Correlate(ids + [id], nodes) == Correlate(ids, nodes) + match FirstWithId(nodes, id)
      case Some(n) => [n]
      case None => []
  {
    assert (ids + [id])[..|ids|] == ids;
  }

  /** Read position by position: the k-th resolved node is the first node
      carrying the k-th id that has a node at all. */
  lemma CorrelateAt(ids: seq<int>, nodes: seq<Node>)
    ensures var r := Correlate(ids, nodes);
      var found := Filter(id => HasNode(nodes, id), ids);
      |r| == |found| && forall k :: 0 <= k < |r| ==> FirstWithId(nodes, found[k]) == Some(r[k])
  {
    CorrelateIds(ids, nodes);
    CorrelateFirst(ids, nodes);
    var r := Correlate(ids, nodes);
    assert forall k :: 0 <= k < |r| ==> Map(NodeId, r)[k] == r[k].id;
  }

  /** Five ids, the last repeating the first, each with a node: they resolve
      position by position. The ids are parameters rather than literals so
      that the solver does not unfold `Correlate` on a literal list. */
  lemma CorrelateFive(ids: seq<int>, nodes: seq<Node>, x1: int, x2: int, x3: int, x4: int,
                      r1: Node, r2: Node, r3: Node, r4: Node)
    requires ids == [x1, x2, x3, x4, x1]
    requires FirstWithId(nodes, x1) == Some(r1) && FirstWithId(nodes, x2) == Some(r2)
    requires FirstWithId(nodes, x3) == Some(r3) && FirstWithId(nodes, x4) == Some(r4)
    ensures Correlate(ids, nodes) == [r1, r2, r3, r4, r1]
  {
    var expected := [r1, r2, r3, r4, r1];
    forall k | 0 <= k < 5 ensures FirstWithId(nodes, ids[k]) == Some(expected[k]) {
      if k == 0 || k == 4 { assert ids[k] == x1; }
      else if k == 1 { assert ids[k] == x2; }
      else if k == 2 { assert ids[k] == x3; }
      else { assert ids[k] == x4; }
    }
    CorrelateAllFound(ids, nodes, expected);
  }

  /** When every id has a node, the result is exactly, position by
      position, the first node carrying each id. */
  lemma CorrelateAllFound(ids: seq<int>, nodes: seq<Node>, expected: seq<Node>)
    requires |expected| == |ids|
    requires forall k :: 0 <= k < |ids| ==> FirstWithId(nodes, ids[k]) == Some(expected[k])
    ensures Correlate(ids, nodes) == expected
  {
    FilterKeepsAll(id => HasNode(nodes, id), ids);
    CorrelateAt(ids, nodes);
  }

  /** The correlation example of the model tests: ids 21, 22, 23, 24, 21
      against nodes listed as 21, 20, 24, 22, 23 resolve in id order. */
  lemma CorrelateExample(a: Node, b: Node, c: Node, d: Node, e: Node, nodes: seq<Node>, ids: seq<int>)
    requires a.id == 21 && b.id == 20 && c.id == 24 && d.id == 22 && e.id == 23
    requires nodes == [a, b, c, d, e]
    requires ids == [21, 22, 23, 24, 21]
    ensures Correlate(ids, nodes) == [a, d, e, c, a]
  {
    var n1 := [e];
    var n2 := [d] + n1;
    var n3 := [c] + n2;
    var n4 := [b] + n3;
    assert nodes == [a] + n4;
    FirstWithIdCons(e, [], 23);
    FirstWithIdCons(d, n1, 22); FirstWithIdCons(d, n1, 23);
    FirstWithIdCons(c, n2, 22); FirstWithIdCons(c, n2, 23); FirstWithIdCons(c, n2, 24);
    FirstWithIdCons(b, n3, 22); FirstWithIdCons(b, n3, 23); FirstWithIdCons(b, n3, 24);
    FirstWithIdCons(a, n4, 21); FirstWithIdCons(a, n4, 22); FirstWithIdCons(a, n4, 23); FirstWithIdCons(a, n4, 24);
    CorrelateFive(ids, nodes, 21, 22, 23, 24, a, d, e, c);
  }

  lemma FilterFiveMissing(p: int -> bool, ids: seq<int>, x1: int, x2: int, x3: int, x4: int)
    requires ids == [x1, x2, x3, x4, x1]
    requires p(x1) && !p(x2) && !p(x3) && !p(x4)
    ensures Filter(p, ids) == [x1, x1]
  {
    var t4 := [x1];
    var t3 := [x4] + t4;
    var t2 := [x3] + t3;
    var t1 := [x2] + t2;
    assert ids == [x1] + t1;
    assert ids[1..] == t1 && t1[1..] == t2 && t2[1..] == t3 && t3[1..] == t4;
    assert Filter(p, t4) == [x1];
    assert Filter(p, t3) == [x1];
    assert Filter(p, t2) == [x1];
    assert Filter(p, t1) == [x1];
  }

  /** Ids whose only resolvable entries are two copies of one id resolve
      to that id's node twice. */
  lemma CorrelateTwice(ids: seq<int>, nodes: seq<Node>, x: int, n: Node)
    requires Filter(id => HasNode(nodes, id), ids) == [x, x]
    requires FirstWithId(nodes, x) == Some(n)
    ensures Correlate(ids, nodes) == [n, n]
  {
    CorrelateAt(ids, nodes);
  }

  /** Five ids, the last repeating the first, where only the first has a
      node: the others are skipped. */
  lemma CorrelateFiveMissing(ids: seq<int>, nodes: seq<Node>, x1: int, x2: int, x3: int, x4: int, r1: Node)
    requires ids == [x1, x2, x3, x4, x1]
    requires FirstWithId(nodes, x1) == Some(r1)
    requires FirstWithId(nodes, x2).None? && FirstWithId(nodes, x3).None? && FirstWithId(nodes, x4).None?
    ensures Correlate(ids, nodes) == [r1, r1]
  {
    var p := id => HasNode(nodes, id);
    assert p(x1) && !p(x2) && !p(x3) && !p(x4);
    FilterFiveMissing(p, ids, x1, x2, x3, x4);
    CorrelateTwice(ids, nodes, x1, r1);
  }

  /** The same ids against node 21 alone. */
  lemma CorrelateMissingExample(a: Node, ids: seq<int>)
    requires a.id == 21
    requires ids == [21, 22, 23, 24, 21]
    ensures Correlate(ids, [a]) == [a, a]
  {
    FirstWithIdCons(a, [], 21); FirstWithIdCons(a, [], 22); FirstWithIdCons(a, [], 23); FirstWithIdCons(a, [], 24);
    assert [a] + [] == [a];
    CorrelateFiveMissing(ids, [a], 21, 22, 23, 24, a);
  }

  // ---------------------------------------------------------------------
  // Elements and the response

  /** `Element.asNode()`. */
  function AsNode(e: Element): (r: Option<Node>)
    ensures r.Some? <==> e.NodeElement?
    ensures r.Some? ==> e == NodeElement(r.value)
  {
    if e.NodeElement? then Some(e.node) else None
  }

  /** `Element.asWay()`. */
  function AsWay(e: Element): (r: Option<Way>)
    ensures r.Some? <==> e.WayElement?
    ensures r.Some? ==> e == WayElement(r.value)
  {
    if e.WayElement? then Some(e.way) else None
  }

  function NodesOf(elements: seq<Element>): seq<Node>
  {
    CompactMap(AsNode, elements)
  }

  /** The ways among the elements, each correlated against `nodes`. */
  function WaysOf(elements: seq<Element>, nodes: seq<Node>): seq<Way>
  {
    Map((w: Way) => WayWith(w, nodes), CompactMap(AsWay, elements))
  }

  /** `Response(version:generator:timestamp:copyright:elements:)`. */
  function NewResponse(version: string, generator: string, timestamp: Date, copyright: string,
                       elements: seq<Element>): Response
  {
    var nodes := NodesOf(elements);
    Response(version, generator, timestamp, copyright, WaysOf(elements, nodes), nodes)
  }

  /** `Response.elements`: the nodes, then the ways. */
  function Elements(r: Response): (es: seq<Element>)
    ensures |es| == |r.nodes| + |r.ways|
    ensures forall i :: 0 <= i < |r.nodes| ==> es[i] == NodeElement(r.nodes[i])
    ensures forall j :: 0 <= j < |r.ways| ==> es[|r.nodes| + j] == WayElement(r.ways[j])
  {
    Map(n => NodeElement(n), r.nodes) + Map(w => WayElement(w), r.ways)
  }

  /** The nodes and the uncorrelated ways of the response are collected
      from the elements in input order: the split distributes over
      concatenation. */
  lemma ResponsePartition(a: seq<Element>, b: seq<Element>)
    ensures NodesOf(a + b) == NodesOf(a) + NodesOf(b)
    ensures CompactMap(AsWay, a + b) == CompactMap(AsWay, a) + CompactMap(AsWay, b)
  {
    CompactMapAppend(AsNode, a, b);
    CompactMapAppend(AsWay, a, b);
  }

  /** A single element contributes its node, or its way, or nothing when it
      is a relation. */
  lemma PartitionOne(n: Node, w: Way, m: Element)
    ensures NodesOf([NodeElement(n)]) == [n] && CompactMap(AsWay, [NodeElement(n)]) == []
    ensures NodesOf([WayElement(w)]) == [] && CompactMap(AsWay, [WayElement(w)]) == [w]
    ensures NodesOf([RelationElement(m)]) == [] && CompactMap(AsWay, [RelationElement(m)]) == []
  {
  }

  /** Every way of the response is correlated against all the nodes of the
      response, those listed after it included. */
  lemma ResponseWaysCorrelated(version: string, generator: string, timestamp: Date, copyright: string,
                               elements: seq<Element>)
    ensures var r := NewResponse(version, generator, timestamp, copyright, elements);
      |r.ways| == |CompactMap(AsWay, elements)|
      && forall i :: 0 <= i < |r.ways| ==>
           r.ways[i] == WayWith(CompactMap(AsWay, elements)[i], NodesOf(elements))
  {
  }

  /** A way listed before the node it references still resolves it. */
  lemma LaterNodeResolves(w: Way, n: Node)
    requires w.nodeIds == [n.id]
    ensures NewResponse("", "", 0.0, "", [WayElement(w), NodeElement(n)]).ways[0].nodes == [n]
  {
    var es := [WayElement(w), NodeElement(n)];
    ResponsePartition([WayElement(w)], [NodeElement(n)]);
    PartitionOne(n, w, NodeElement(n));
    assert es == [WayElement(w)] + [NodeElement(n)];
    assert NodesOf(es) == [n];
    assert CompactMap(AsWay, es) == [w];
    CorrelateSnoc([], n.id, [n]);
    assert [] + [n.id] == w.nodeIds;
    assert WayWith(w, [n]).nodes == [n];
  }

  lemma {:induction false} CompactMapWrapped<T>(f: Element -> Option<T>, wrap: T -> Element, s: seq<T>)
    requires forall x :: f(wrap(x)) == Some(x)
    ensures CompactMap(f, Map(wrap, s)) == s
  {
    if s != [] {
      assert Map(wrap, s) == [wrap(s[0])] + Map(wrap, s[1..]);
      CompactMapWrapped(f, wrap, s[1..]);
    }
  }

  lemma {:induction false} CompactMapSkipped<T, U>(f: Element -> Option<T>, wrap: U -> Element, s: seq<U>)
    requires forall x :: f(wrap(x)).None?
    ensures CompactMap(f, Map(wrap, s)) == []
  {
    if s != [] {
      assert Map(wrap, s) == [wrap(s[0])] + Map(wrap, s[1..]);
      CompactMapSkipped(f, wrap, s[1..]);
    }
  }

  /** Building a response from the elements of a response gives that
      response back: its nodes are found again, and correlating its ways
      once more against the same nodes changes nothing. */
  lemma ElementsRoundTrip(version: string, generator: string, timestamp: Date, copyright: string,
                          elements: seq<Element>)
    ensures var r := NewResponse(version, generator, timestamp, copyright, elements);
      NewResponse(version, generator, timestamp, copyright, Elements(r)) == r
  {
    var r := NewResponse(version, generator, timestamp, copyright, elements);
    var ns := Map(n => NodeElement(n), r.nodes);
    var ws := Map(w => WayElement(w), r.ways);
    CompactMapAppend(AsNode, ns, ws);
    CompactMapAppend(AsWay, ns, ws);
    CompactMapWrapped(AsNode, n => NodeElement(n), r.nodes);
    CompactMapSkipped(AsNode, w => WayElement(w), r.ways);
    CompactMapWrapped(AsWay, w => WayElement(w), r.ways);
    CompactMapSkipped(AsWay, n => NodeElement(n), r.nodes);
    assert NodesOf(Elements(r)) == r.nodes;
    assert CompactMap(AsWay, Elements(r)) == r.ways;
  }

  // ---------------------------------------------------------------------
  // Decoding

  datatype ElementKind = NodeKind | WayKind

  /** The `type` discriminant: only "node" and "way" are known. */
  function DecodeKind(o: map<string, Json>): (r: Result<ElementKind, DecodeError>)
    ensures r == Ok(NodeKind) <==> "type" in o && o["type"] == JString("node")
    ensures r == Ok(WayKind) <==> "type" in o && o["type"] == JString("way")
  {
    var j :- Get(o, "type");
    var s :- AsString(j, "type");
    if s == "node" then Ok(NodeKind)
    else if s == "way" then Ok(WayKind)
    else Err(DataCorrupted("type"))
  }

  /** `Element(from:)`: the discriminant, the `id`, the optional `tags`, then
      `lat` and `lon` for a node or the `nodes` id list for a way. */
  function DecodeElement(j: Json): Result<Element, DecodeError>
  {
    if !j.JObject? then Err(TypeMismatch(""))
    else
      var o := j.fields;
      var kind :- DecodeKind(o);
      var idValue :- Get(o, "id");
      var id :- AsInt(idValue, "id");
      var tags :- StringMapOrEmpty(o, "tags");
      match kind
      case NodeKind =>
        var latValue :- Get(o, "lat");
        var lat :- AsDouble(latValue, "lat");
        var lonValue :- Get(o, "lon");
        var lon :- AsDouble(lonValue, "lon");
        Ok(NodeElement(Node(id, Location(lat, lon), tags)))
      case WayKind =>
        var idsValue :- Get(o, "nodes");
        var nodeIds :- AsIntList(idsValue, "nodes");
        Ok(WayElement(NewWay(id, nodeIds, tags)))
  }

  /** What decoding an element promises: it fails unless the object names
      the type node or way and carries an `id`; it never yields a relation;
      a decoded way has no resolved nodes yet. */
  lemma DecodeElementShape(j: Json)
    ensures DecodeElement(j).Ok? ==> j.JObject? && "type" in j.fields && "id" in j.fields
    ensures DecodeElement(j).Ok? ==> j.fields["type"] == JString("node") || j.fields["type"] == JString("way")
    ensures DecodeElement(j).Ok? ==> !DecodeElement(j).value.RelationElement?
    ensures DecodeElement(j).Ok? && DecodeElement(j).value.WayElement? ==>
      j.fields["type"] == JString("way") && DecodeElement(j).value.way.nodes == []
    ensures DecodeElement(j).Ok? && DecodeElement(j).value.NodeElement? ==> j.fields["type"] == JString("node")
  {
  }

  /** What a decoded element is made of: the 64-bit `id`, the tags read from
      `tags` (empty when absent or `null`), and the `lat`/`lon` of a node or
      the integer list under `nodes` of a way. */
  lemma DecodeElementFields(j: Json)
    ensures DecodeElement(j).Ok? ==>
      j.JObject? && AsInt(j.fields["id"], "id").Ok? && StringMapOrEmpty(j.fields, "tags").Ok?
    ensures DecodeElement(j).Ok? && DecodeElement(j).value.NodeElement? ==>
      var n := DecodeElement(j).value.node;
      AsInt(j.fields["id"], "id") == Ok(n.id) && StringMapOrEmpty(j.fields, "tags") == Ok(n.tags)
      && "lat" in j.fields && AsDouble(j.fields["lat"], "lat") == Ok(n.location.latitude)
      && "lon" in j.fields && AsDouble(j.fields["lon"], "lon") == Ok(n.location.longitude)
    ensures DecodeElement(j).Ok? && DecodeElement(j).value.WayElement? ==>
      var w := DecodeElement(j).value.way;
      AsInt(j.fields["id"], "id") == Ok(w.id) && StringMapOrEmpty(j.fields, "tags") == Ok(w.tags)
      && "nodes" in j.fields && AsIntList(j.fields["nodes"], "nodes") == Ok(w.nodeIds)
  {
  }

  /** A way object with a 64-bit id and an integer `nodes` list decodes to
      the way with those ids, no resolved nodes and the tags of `tags`. */
  lemma DecodeWayObject(o: map<string, Json>, id: int, ids: seq<int>, tags: map<string, string>)
    requires "type" in o && o["type"] == JString("way")
    requires "id" in o && AsInt(o["id"], "id") == Ok(id)
    requires StringMapOrEmpty(o, "tags") == Ok(tags)
    requires "nodes" in o && AsIntList(o["nodes"], "nodes") == Ok(ids)
    ensures DecodeElement(JObject(o)) == Ok(WayElement(Way(id, ids, tags, [])))
  {
  }

  /** A way object without `tags` decodes with an empty tag map. */
  lemma WayWithoutTags(o: map<string, Json>, id: int, ids: seq<int>)
    requires "tags" !in o
    requires "type" in o && o["type"] == JString("way")
    requires "id" in o && o["id"] == JNumber(id as real) && IntMin <= id <= IntMax
    requires "nodes" in o && AsIntList(o["nodes"], "nodes") == Ok(ids)
    ensures DecodeElement(JObject(o)) == Ok(WayElement(Way(id, ids, map[], [])))
  {
    DecodeWayObject(o, id, ids, map[]);
  }

  /** A node object with a 64-bit id, readable or absent tags and numeric
      `lat` and `lon` decodes to that node, whatever its other keys. */
  lemma DecodeNodeObject(o: map<string, Json>, id: int, lat: real, lon: real, tags: map<string, string>)
    requires "type" in o && o["type"] == JString("node")
    requires "id" in o && AsInt(o["id"], "id") == Ok(id)
    requires StringMapOrEmpty(o, "tags") == Ok(tags)
    requires "lat" in o && o["lat"] == JNumber(lat) && "lon" in o && o["lon"] == JNumber(lon)
    ensures DecodeElement(JObject(o)) == Ok(NodeElement(Node(id, Location(lat, lon), tags)))
  {
  }

  /** A node object without `tags` decodes with an empty tag map. */
  lemma NodeWithoutTags(o: map<string, Json>, id: int, lat: real, lon: real)
    requires "tags" !in o
    requires "type" in o && o["type"] == JString("node")
    requires "id" in o && o["id"] == JNumber(id as real) && IntMin <= id <= IntMax
    requires "lat" in o && o["lat"] == JNumber(lat) && "lon" in o && o["lon"] == JNumber(lon)
    ensures DecodeElement(JObject(o)) == Ok(NodeElement(Node(id, Location(lat, lon), map[])))
  {
    DecodeNodeObject(o, id, lat, lon, map[]);
  }

  /** One JSON object for a node or a way, with every key present. */
  function EncodeElement(e: Element): Json
    requires !e.RelationElement?
  {
    match e
    case NodeElement(n) =>
      JObject(map["type" := JString("node"), "id" := JNumber(n.id as real),
                  "lat" := JNumber(n.location.latitude), "lon" := JNumber(n.location.longitude),
                  "tags" := EncodeTags(n.tags)])
    case WayElement(w) =>
      JObject(map["type" := JString("way"), "id" := JNumber(w.id as real),
                  "nodes" := JArray(Map(EncodeId, w.nodeIds)),
                  "tags" := EncodeTags(w.tags)])
  }

  /** A node id as a JSON number. */
  function EncodeId(i: int): Json
  {
    JNumber(i as real)
  }

  function EncodeTags(tags: map<string, string>): Json
  {
    JObject(map k | k in tags :: JString(tags[k]))
  }

  predicate FitsIntId(i: int)
  {
    IntMin <= i <= IntMax
  }

  /** Decoding the JSON of a node, or of a way that has no resolved nodes,
      gives that element back, provided its ids fit in 64 bits. */
  lemma DecodeEncode(e: Element)
    requires e.NodeElement? || (e.WayElement? && e.way.nodes == [])
    requires e.NodeElement? ==> FitsIntId(e.node.id)
    requires e.WayElement? ==> FitsIntId(e.way.id) && forall i :: 0 <= i < |e.way.nodeIds| ==> FitsIntId(e.way.nodeIds[i])
    ensures DecodeElement(EncodeElement(e)) == Ok(e)
  {
    if e.NodeElement? {
      DecodeEncodeTags(e.node.tags);
      DecodeEncodeNode(e.node);
    } else {
      DecodeEncodeTags(e.way.tags);
      DecodeEncodeIds(e.way.nodeIds);
      DecodeEncodeWay(e.way);
    }
  }

  lemma DecodeEncodeTags(tags: map<string, string>)
    ensures AsStringMap(EncodeTags(tags), "tags") == Ok(tags)
  {
    var m := map k | k in EncodeTags(tags).fields :: EncodeTags(tags).fields[k].s;
    assert m == tags;
  }

  lemma DecodeEncodeIds(ids: seq<int>)
    requires forall i :: 0 <= i < |ids| ==> FitsIntId(ids[i])
    ensures AsIntList(JArray(Map(EncodeId, ids)), "nodes") == Ok(ids)
  {
    var items := Map(EncodeId, ids);
    forall i | 0 <= i < |items| ensures AsInt(items[i], "nodes") == Ok(ids[i]) {
      assert items[i] == JNumber(ids[i] as real);
    }
    IntListOf(items, ids, "nodes");
  }

  /** An array whose items each read as the matching id reads as the ids. */
  lemma IntListOf(items: seq<Json>, ids: seq<int>, key: string)
    requires |items| == |ids| && forall i :: 0 <= i < |items| ==> AsInt(items[i], key) == Ok(ids[i])
    ensures AsIntList(JArray(items), key) == Ok(ids)
  {
    var decoded := AsIntList(JArray(items), key);
    assert decoded.Ok?;
    forall i | 0 <= i < |ids| ensures decoded.value[i] == ids[i] {
      assert AsInt(items[i], key) == Ok(decoded.value[i]);
    }
    assert decoded.value == ids;
  }

  lemma DecodeEncodeNode(n: Node)
    requires FitsIntId(n.id)
    requires AsStringMap(EncodeTags(n.tags), "tags") == Ok(n.tags)
    ensures DecodeElement(EncodeElement(NodeElement(n))) == Ok(NodeElement(n))
  {
    assert DecodeKind(EncodeElement(NodeElement(n)).fields) == Ok(NodeKind);
  }

  lemma DecodeEncodeWay(w: Way)
    requires FitsIntId(w.id) && w.nodes == []
    requires AsStringMap(EncodeTags(w.tags), "tags") == Ok(w.tags)
    requires AsIntList(JArray(Map(EncodeId, w.nodeIds)), "nodes") == Ok(w.nodeIds)
    ensures DecodeElement(EncodeElement(WayElement(w))) == Ok(WayElement(w))
  {
    assert DecodeKind(EncodeElement(WayElement(w)).fields) == Ok(WayKind);
  }

  /** The elements array: every item must decode, or the whole list fails. */
  function DecodeElements(items: seq<Json>): (r: Result<seq<Element>, DecodeError>)
    ensures r.Ok? <==> forall i :: 0 <= i < |items| ==> DecodeElement(items[i]).Ok?
    ensures r.Ok? ==> |r.value| == |items| && forall i :: 0 <= i < |items| ==> DecodeElement(items[i]) == Ok(r.value[i])
  {
    if items == [] then Ok([])
    else
      var first :- DecodeElement(items[0]);
      var rest :- DecodeElements(items[1..]);
      assert forall i :: 1 <= i < |items| ==> items[i] == items[1..][i - 1];
      Ok([first] + rest)
  }

  /** `version`: a number is turned into text by `fmt` (Swift's
      `String(Double)`); otherwise it must be a string. */
  function DecodeVersion(o: map<string, Json>, fmt: real -> string): (r: Result<string, DecodeError>)
    ensures "version" in o && o["version"].JNumber? ==> r == Ok(fmt(o["version"].n))
    ensures "version" in o && o["version"].JString? ==> r == Ok(o["version"].s)
    ensures r.Ok? ==> "version" in o && (o["version"].JNumber? || o["version"].JString?)
  {
    if "version" in o && o["version"].JNumber? then Ok(fmt(o["version"].n))
    else
      var j :- Get(o, "version");
      AsString(j, "version")
  }

  /** `Response(from:)`. `fmt` is Swift's textual form of a `Double`;
      `parseDate` is the fixed-format UTC timestamp reader. */
  function DecodeResponse(j: Json, fmt: real -> string, parseDate: string -> Option<Date>): Result<Response, DecodeError>
  {
    if !j.JObject? then Err(TypeMismatch(""))
    else
      var o := j.fields;
      var version :- DecodeVersion(o, fmt);
      var generatorValue :- Get(o, "generator");
      var generator :- AsString(generatorValue, "generator");
      var osm3s :- Get(o, "osm3s");
      if !osm3s.JObject? then Err(TypeMismatch("osm3s"))
      else
        var timestampValue :- Get(osm3s.fields, "timestamp_osm_base");
        var timestampText :- AsString(timestampValue, "timestamp_osm_base");
        match parseDate(timestampText)
        case None => Err(DataCorrupted("timestamp_osm_base"))
        case Some(timestamp) =>
          var copyrightValue :- Get(osm3s.fields, "copyright");
          var copyright :- AsString(copyrightValue, "copyright");
          var elementsValue :- Get(o, "elements");
          if !elementsValue.JArray? then Err(TypeMismatch("elements"))
          else
            var elements :- DecodeElements(elementsValue.items);
            Ok(NewResponse(version, generator, timestamp, copyright, elements))
  }

  /** One element that does not decode fails the whole response; a decoded
      response is assembled from all the decoded elements. */
  lemma DecodeResponseAllOrNothing(j: Json, fmt: real -> string, parseDate: string -> Option<Date>)
    ensures DecodeResponse(j, fmt, parseDate).Ok? ==>
      "elements" in j.fields && j.fields["elements"].JArray?
      && (forall i :: 0 <= i < |j.fields["elements"].items| ==> DecodeElement(j.fields["elements"].items[i]).Ok?)
    ensures DecodeResponse(j, fmt, parseDate).Ok? ==>
      var r := DecodeResponse(j, fmt, parseDate).value;
      var es := DecodeElements(j.fields["elements"].items).value;
      r == NewResponse(r.version, r.generator, r.timestamp, r.copyright, es)
  {
  }

  /** A well-formed envelope decodes: a version, a string `generator`, an
      `osm3s` object whose `timestamp_osm_base` parses and whose `copyright`
      is a string, and an `elements` array whose every item decodes give
      the response assembled from those parts. */
  lemma DecodeResponseEnvelope(o: map<string, Json>, fmt: real -> string, parseDate: string -> Option<Date>,
                               g: string, ts: string, t: Date, c: string, items: seq<Json>)
    requires DecodeVersion(o, fmt).Ok?
    requires "generator" in o && o["generator"] == JString(g)
    requires "osm3s" in o && o["osm3s"].JObject?
    requires "timestamp_osm_base" in o["osm3s"].fields && o["osm3s"].fields["timestamp_osm_base"] == JString(ts)
    requires parseDate(ts) == Some(t)
    requires "copyright" in o["osm3s"].fields && o["osm3s"].fields["copyright"] == JString(c)
    requires "elements" in o && o["elements"] == JArray(items)
    requires forall i :: 0 <= i < |items| ==> DecodeElement(items[i]).Ok?
    ensures DecodeResponse(JObject(o), fmt, parseDate)
         == Ok(NewResponse(DecodeVersion(o, fmt).value, g, t, c, DecodeElements(items).value))
  {
  }

  /** Conversely, a decoded response took its version, generator, timestamp
      and copyright from the envelope; a missing or malformed envelope field
      fails the whole decode. */
  lemma DecodeResponseFields(j: Json, fmt: real -> string, parseDate: string -> Option<Date>)
    ensures DecodeResponse(j, fmt, parseDate).Ok? ==>
      var r := DecodeResponse(j, fmt, parseDate).value;
      j.JObject? && DecodeVersion(j.fields, fmt) == Ok(r.version)
      && "generator" in j.fields && j.fields["generator"] == JString(r.generator)
      && "osm3s" in j.fields && j.fields["osm3s"].JObject?
      && "timestamp_osm_base" in j.fields["osm3s"].fields
      && j.fields["osm3s"].fields["timestamp_osm_base"].JString?
      && parseDate(j.fields["osm3s"].fields["timestamp_osm_base"].s) == Some(r.timestamp)
      && "copyright" in j.fields["osm3s"].fields && j.fields["osm3s"].fields["copyright"] == JString(r.copyright)
  {
  }
}
