/** The digraph builder shared by the three scripts (the `arc_set` and
    `node_set` loops). */
module Digraph {
  import opened Network
  import opened Sums
  import opened Strings

  /** A spoke-to-Halifax or Halifax-to-spoke journey has no direct flight
      and must transit a hub's buffer. */
  predicate ViaHubs(i: City, j: City)
  {
    (IsSpoke(i) && j == H) || (i == H && IsSpoke(j))
  }

  /** The arcs appended for the ordered pair (i, j), i != j, in the order
      the scripts append them. */
  function PairArcs(i: City, j: City): seq<Arc>
  {
    var od := OD(i, j);
    if i == T || i == M then [Arc(od, CityNode(j)), Arc(od, Sink)]
    else if i == V || i == W then
      if j == H then [Arc(od, Buffer(T)), Arc(od, Buffer(M)), Arc(od, Sink)]
      else [Arc(od, CityNode(j)), Arc(od, Sink)]
    else if j == T || j == M then [Arc(od, CityNode(j)), Arc(od, Sink)]
    else if j == W || j == V then
      [Arc(od, Buffer(T)), Arc(Buffer(T), CityNode(j)),
       Arc(od, Buffer(M)), Arc(Buffer(M), CityNode(j)), Arc(od, Sink)]
    else []
  }

  /** The inner `for j in cities` loop for origin `i`. */
  function PairsFrom(i: City, js: seq<City>): seq<Arc>
  {
    if |js| == 0 then []
    else (if i != js[0] then PairArcs(i, js[0]) else []) + PairsFrom(i, js[1..])
  }

  /** One pass of the outer loop: the airport's sink arc, then its pairs. */
  function CityBlock(i: City): seq<Arc>
  {
    [Arc(CityNode(i), Sink)] + PairsFrom(i, Cities)
  }

  function BlocksFrom(cs: seq<City>): seq<Arc>
  {
    if |cs| == 0 then [] else CityBlock(cs[0]) + BlocksFrom(cs[1..])
  }

  /** The list `arc_set` starts with. */
  const BufferToHalifax: seq<Arc> := [Arc(Buffer(T), CityNode(H)), Arc(Buffer(M), CityNode(H))]

  /** The scripts' `arc_set`, as typed arcs in list order. */
  function BuildArcs(): (arcs: seq<Arc>)
    ensures |arcs| == 55
  {
    BlocksLength();
    BufferToHalifax + BlocksFrom(Cities)
  }

  /** Each outer pass appends the airport's sink arc and its pairs' arcs:
      15 for Halifax, 9 for a hub, 10 for a western spoke. */
  lemma CityBlockLength(c: City)
    ensures |CityBlock(c)| == if c == H then 15 else if IsHub(c) then 9 else 10
  {
    var js := Cities;
    assert js[1..][1..][1..][1..][1..] == [];
  }

  lemma BlocksLength()
    ensures |BlocksFrom(Cities)| == 53
  {
    CityBlockLength(V);
    CityBlockLength(W);
    CityBlockLength(T);
    CityBlockLength(M);
    CityBlockLength(H);
  }

  /** String keys of a list of arcs, position by position. */
  function ArcKeysOf(arcs: seq<Arc>): (keys: seq<string>)
    ensures |keys| == |arcs|
  {
    seq(|arcs|, k requires 0 <= k < |arcs| => ArcName(arcs[k]))
  }

  function NodeKeysOf(nodes: seq<Node>): (keys: seq<string>)
    ensures |keys| == |nodes|
  {
    seq(|nodes|, k requires 0 <= k < |nodes| => NodeName(nodes[k]))
  }

  /** A listed arc's key is among the listed keys. */
  lemma KeyOfListed(arcs: seq<Arc>, a: Arc)
    requires a in arcs
    ensures ArcName(a) in ArcKeysOf(arcs)
  {
    var k :| 0 <= k < |arcs| && arcs[k] == a;
    assert ArcKeysOf(arcs)[k] == ArcName(a);
  }

  /** The scripts' `arc_set`: the string keys the solver variables use. */
  function ArcKeys(): (keys: seq<string>)
    ensures |keys| == 55
  {
    ArcKeysOf(BuildArcs())
  }

  /** The scripts' `node_set` as strings. */
  function NodeKeys(): (keys: seq<string>)
    ensures |keys| == 28
  {
    NodeKeysOf(BuildNodes())
  }

  function AirportNodes(cs: seq<City>): seq<Node>
  {
    if |cs| == 0 then [] else [CityNode(cs[0])] + AirportNodes(cs[1..])
  }

  function ODRow(i: City, js: seq<City>): seq<Node>
  {
    if |js| == 0 then []
    else (if i != js[0] then [OD(i, js[0])] else []) + ODRow(i, js[1..])
  }

  function ODFrom(cs: seq<City>): seq<Node>
  {
    if |cs| == 0 then [] else ODRow(cs[0], Cities) + ODFrom(cs[1..])
  }

  /** The twenty demand nodes, in the order the node loop appends them. */
  function ODNodes(): seq<Node>
  {
    ODFrom(Cities)
  }

  const BuffersAndSink: seq<Node> := [Buffer(T), Buffer(M), Sink]

  /** The scripts' `node_set`: airports, `T*`, `M*`, `t`, then the pairs. */
  function BuildNodes(): (nodes: seq<Node>)
    ensures |nodes| == 28
  {
    AirportNodes(Cities) + BuffersAndSink + ODNodes()
  }

  // ---------------------------------------------------------------------
  // Reference description of the network, independent of the loops.

  predicate IsNode(v: Node)
  {
    match v
    case CityNode(_) => true
    case Buffer(h) => IsHub(h)
    case Sink => true
    case OD(o, d) => o != d
  }

  /** Every airport discharges to the sink; a demand node discharges to the
      sink and otherwise flies direct, or enters both hub buffers when the
      pair must transit a hub; a buffer feeds the non-hub airports. */
  predicate IsArc(a: Arc)
  {
    match a.tail
    case CityNode(_) => a.head == Sink
    case OD(i, j) =>
      i != j &&
      (a.head == Sink ||
       (if ViaHubs(i, j) then a.head.Buffer? && IsHub(a.head.hub) else a.head == CityNode(j)))
    case Buffer(h) => IsHub(h) && a.head.CityNode? && !IsHub(a.head.city)
    case Sink => false
  }

  /** The arcs leaving demand node (i, j), per the routing rule. */
  function ODOut(i: City, j: City): seq<Arc>
  {
    if ViaHubs(i, j) then [Arc(OD(i, j), Buffer(T)), Arc(OD(i, j), Buffer(M)), Arc(OD(i, j), Sink)]
    else [Arc(OD(i, j), CityNode(j)), Arc(OD(i, j), Sink)]
  }

  // ---------------------------------------------------------------------
  // Membership

  lemma PairArcsAreArcs(i: City, j: City)
    requires i != j
    ensures forall a | a in PairArcs(i, j) :: IsArc(a)
  {
  }

  lemma {:induction false} PairsFromAreArcs(i: City, js: seq<City>)
    ensures forall a | a in PairsFrom(i, js) :: IsArc(a)
  {
    if |js| > 0 {
      if i != js[0] {
        PairArcsAreArcs(i, js[0]);
      }
      PairsFromAreArcs(i, js[1..]);
    }
  }

  lemma {:induction false} BlocksFromAreArcs(cs: seq<City>)
    ensures forall a | a in BlocksFrom(cs) :: IsArc(a)
  {
    if |cs| > 0 {
      PairsFromAreArcs(cs[0], Cities);
      BlocksFromAreArcs(cs[1..]);
    }
  }

  lemma {:induction false} PairsFromIncludes(i: City, j: City, js: seq<City>)
    requires i != j && j in js
    ensures forall a | a in PairArcs(i, j) :: a in PairsFrom(i, js)
  {
    if js[0] != j {
      PairsFromIncludes(i, j, js[1..]);
    }
  }

  lemma {:induction false} BlocksFromIncludes(c: City, cs: seq<City>)
    requires c in cs
    ensures forall a | a in CityBlock(c) :: a in BlocksFrom(cs)
  {
    if cs[0] != c {
      BlocksFromIncludes(c, cs[1..]);
    }
  }

  lemma ArcListed(a: Arc)
    requires IsArc(a)
    ensures a in BuildArcs()
  {
    match a.tail
    case CityNode(c) =>
      CityListed(c);
      BlocksFromIncludes(c, Cities);
      assert a in CityBlock(c);
    case OD(i, j) =>
      assert a in PairArcs(i, j);
      CityListed(i);
      CityListed(j);
      PairsFromIncludes(i, j, Cities);
      BlocksFromIncludes(i, Cities);
      assert a in CityBlock(i);
    case Buffer(h) =>
      if a.head != CityNode(H) {
        var j := a.head.city;
        assert a in PairArcs(H, j);
        CityListed(j);
        CityListed(H);
        PairsFromIncludes(H, j, Cities);
        BlocksFromIncludes(H, Cities);
        assert a in CityBlock(H);
      } else {
        assert a in BufferToHalifax;
      }
  }

  lemma ConcatAreArcs(p: seq<Arc>, q: seq<Arc>)
    requires forall a | a in p :: IsArc(a)
    requires forall a | a in q :: IsArc(a)
    ensures forall a | a in p + q :: IsArc(a)
  {
  }

  /** Everything the builder emits is an arc of the routing rules. */
  lemma BuiltArcsAreArcs()
    ensures forall a | a in BuildArcs() :: IsArc(a)
  {
    BlocksFromAreArcs(Cities);
    assert IsArc(BufferToHalifax[0]) && IsArc(BufferToHalifax[1]);
    ConcatAreArcs(BufferToHalifax, BlocksFrom(Cities));
  }

  /** The builder emits exactly the arcs the routing rules call for. */
  lemma ArcsCharacterized()
    ensures forall a :: a in BuildArcs() <==> IsArc(a)
  {
    BuiltArcsAreArcs();
    forall a | IsArc(a)
      ensures a in BuildArcs()
    {
      ArcListed(a);
    }
  }

  // ---------------------------------------------------------------------
  // Distinctness

  /** The ordered pair whose loop iteration appended the arc. */
  function PairOf(a: Arc): (City, City)
  {
    match a.tail
    case OD(o, d) => (o, d)
    case Buffer(_) => (H, if a.head.CityNode? then a.head.city else H)
    case _ => (H, H)
  }

  /** The outer-loop city whose pass appended the arc. */
  function BlockOf(a: Arc): City
  {
    match a.tail
    case CityNode(c) => c
    case OD(o, _) => o
    case _ => H
  }

  lemma PairArcsShape(i: City, j: City)
    requires i != j
    ensures NoDup(PairArcs(i, j))
    ensures forall a | a in PairArcs(i, j) ::
      PairOf(a) == (i, j) && !a.tail.CityNode? && BlockOf(a) == i && a !in BufferToHalifax
  {
  }

  lemma {:induction false} PairsFromShape(i: City, js: seq<City>)
    requires NoDup(js)
    ensures NoDup(PairsFrom(i, js))
    ensures forall a | a in PairsFrom(i, js) ::
      PairOf(a).0 == i && PairOf(a).1 in js && !a.tail.CityNode? && BlockOf(a) == i && a !in BufferToHalifax
  {
    if |js| > 0 {
      var first := if i != js[0] then PairArcs(i, js[0]) else [];
      if i != js[0] {
        PairArcsShape(i, js[0]);
      }
      TailDistinct(js);
      PairsFromShape(i, js[1..]);
      NoDupConcat(first, PairsFrom(i, js[1..]));
    }
  }

  lemma CitiesDistinct()
    ensures NoDup(Cities)
  {
  }

  lemma CityListed(c: City)
    ensures c in Cities
  {
    match c
    case V => assert Cities[0] == V;
    case W => assert Cities[1] == W;
    case T => assert Cities[2] == T;
    case M => assert Cities[3] == M;
    case H => assert Cities[4] == H;
  }

  lemma CityBlockShape(c: City)
    ensures NoDup(CityBlock(c))
    ensures forall a | a in CityBlock(c) :: BlockOf(a) == c && a !in BufferToHalifax
  {
    CitiesDistinct();
    PairsFromShape(c, Cities);
    NoDupConcat([Arc(CityNode(c), Sink)], PairsFrom(c, Cities));
  }

  lemma {:induction false} BlocksFromShape(cs: seq<City>)
    requires NoDup(cs)
    ensures NoDup(BlocksFrom(cs))
    ensures forall a | a in BlocksFrom(cs) :: BlockOf(a) in cs && a !in BufferToHalifax
  {
    if |cs| > 0 {
      CityBlockShape(cs[0]);
      TailDistinct(cs);
      BlocksFromShape(cs[1..]);
      var first, rest := CityBlock(cs[0]), BlocksFrom(cs[1..]);
      forall k | 0 <= k < |first|
        ensures first[k] !in rest
      {
        assert BlockOf(first[k]) == cs[0];
      }
      NoDupConcat(first, rest);
    }
  }

  /** `arc_set` has no repeated arc. */
  lemma ArcsDistinct()
    ensures NoDup(BuildArcs())
  {
    CitiesDistinct();
    BlocksFromShape(Cities);
    AfterBufferLegs(BlocksFrom(Cities));
  }

  /** Blocks free of repeats and of the two initial legs stay free of
      repeats behind those legs. */
  lemma AfterBufferLegs(blocks: seq<Arc>)
    requires NoDup(blocks)
    requires forall a | a in blocks :: a !in BufferToHalifax
    ensures NoDup(BufferToHalifax + blocks)
  {
    assert BufferToHalifax[0] !in blocks && BufferToHalifax[1] !in blocks;
    NoDupConcat(BufferToHalifax, blocks);
  }

  // ---------------------------------------------------------------------
  // Nodes

  lemma {:induction false} AirportNodesShape(cs: seq<City>)
    requires NoDup(cs)
    ensures NoDup(AirportNodes(cs))
    ensures forall v :: v in AirportNodes(cs) <==> v.CityNode? && v.city in cs
  {
    if |cs| > 0 {
      TailDistinct(cs);
      AirportNodesShape(cs[1..]);
      NoDupConcat([CityNode(cs[0])], AirportNodes(cs[1..]));
    }
  }

  lemma {:induction false} ODRowShape(i: City, js: seq<City>)
    requires NoDup(js)
    ensures NoDup(ODRow(i, js))
    ensures forall v :: v in ODRow(i, js) <==> v.OD? && v.orig == i && v.dest in js && v.dest != i
  {
    if |js| > 0 {
      TailDistinct(js);
      ODRowShape(i, js[1..]);
      var first := if i != js[0] then [OD(i, js[0])] else [];
      NoDupConcat(first, ODRow(i, js[1..]));
    }
  }

  lemma {:induction false} ODFromShape(cs: seq<City>)
    requires NoDup(cs)
    ensures NoDup(ODFrom(cs))
    ensures forall v :: v in ODFrom(cs) <==> v.OD? && v.orig in cs && v.orig != v.dest
  {
    if |cs| > 0 {
      CitiesDistinct();
      ODRowShape(cs[0], Cities);
      TailDistinct(cs);
      ODFromShape(cs[1..]);
      forall v: Node | v.OD? && v.orig != v.dest
        ensures v.dest in Cities
      {
        CityListed(v.dest);
      }
      NoDupConcat(ODRow(cs[0], Cities), ODFrom(cs[1..]));
    }
  }

  /** Three duplicate-free blocks of different node kinds concatenate to a
      duplicate-free list. */
  lemma NoDupByKind(a: seq<Node>, b: seq<Node>, c: seq<Node>)
    requires NoDup(a) && NoDup(b) && NoDup(c)
    requires forall k | 0 <= k < |a| :: a[k].CityNode?
    requires forall k | 0 <= k < |b| :: !b[k].CityNode? && !b[k].OD?
    requires forall k | 0 <= k < |c| :: c[k].OD?
    ensures NoDup(a + b + c)
  {
    NoDupConcat(a, b);
    forall k | 0 <= k < |a + b|
      ensures (a + b)[k] !in c
    {
      if k < |a| {
        assert (a + b)[k] == a[k];
      } else {
        assert (a + b)[k] == b[k - |a|];
      }
    }
    NoDupConcat(a + b, c);
  }

  lemma BuffersAndSinkShape()
    ensures NoDup(BuffersAndSink)
    ensures forall k | 0 <= k < |BuffersAndSink| :: !BuffersAndSink[k].CityNode? && !BuffersAndSink[k].OD?
  {
  }

  lemma AirportsShape()
    ensures NoDup(AirportNodes(Cities))
    ensures forall k | 0 <= k < |AirportNodes(Cities)| :: AirportNodes(Cities)[k].CityNode?
  {
    CitiesDistinct();
    AirportNodesShape(Cities);
    assert forall k | 0 <= k < |AirportNodes(Cities)| :: AirportNodes(Cities)[k] in AirportNodes(Cities);
  }

  lemma PairsShape()
    ensures NoDup(ODNodes())
    ensures forall k | 0 <= k < |ODNodes()| :: ODNodes()[k].OD?
  {
    CitiesDistinct();
    ODFromShape(Cities);
    assert forall k | 0 <= k < |ODNodes()| :: ODNodes()[k] in ODNodes();
  }

  lemma NodesDistinct()
    ensures NoDup(BuildNodes())
  {
    AirportsShape();
    PairsShape();
    BuffersAndSinkShape();
    NoDupByKind(AirportNodes(Cities), BuffersAndSink, ODNodes());
  }

  lemma NodeListedIn(cs: seq<City>, v: Node)
    requires NoDup(cs)
    requires forall c: City :: c in cs
    ensures v in AirportNodes(cs) + BuffersAndSink + ODFrom(cs) <==> IsNode(v)
  {
    AirportNodesShape(cs);
    ODFromShape(cs);
    assert v in AirportNodes(cs) + BuffersAndSink + ODFrom(cs) <==>
      v in AirportNodes(cs) || v in BuffersAndSink || v in ODFrom(cs);
  }

  lemma NodeListed(v: Node)
    ensures v in BuildNodes() <==> IsNode(v)
  {
    CitiesDistinct();
    forall c: City
      ensures c in Cities
    {
      CityListed(c);
    }
    NodeListedIn(Cities, v);
  }

  /** `node_set` holds each of its 28 nodes once, and exactly the nodes the
      network description calls for. */
  lemma NodesCharacterized()
    ensures NoDup(BuildNodes())
    ensures forall v :: v in BuildNodes() <==> IsNode(v)
  {
    NodesDistinct();
    forall v
      ensures v in BuildNodes() <==> IsNode(v)
    {
      NodeListed(v);
    }
  }

  lemma NodeListsShape()
    ensures NoDup(AirportNodes(Cities)) && NoDup(ODNodes())
    ensures forall v :: v in AirportNodes(Cities) <==> v.CityNode? && v.city in Cities
    ensures forall v :: v in ODNodes() <==> v.OD? && v.orig in Cities && v.orig != v.dest
  {
    CitiesDistinct();
    AirportNodesShape(Cities);
    ODFromShape(Cities);
  }

  lemma EndpointsIn(arcs: seq<Arc>, nodes: seq<Node>)
    requires forall a :: a in arcs <==> IsArc(a)
    requires forall v :: v in nodes <==> IsNode(v)
    ensures forall a | a in arcs :: a.tail in nodes && a.head in nodes && a.tail != a.head
  {
    forall a | a in arcs
      ensures a.tail in nodes && a.head in nodes && a.tail != a.head
    {
      assert IsArc(a);
      assert IsNode(a.tail) && IsNode(a.head);
    }
  }

  /** Every arc joins two distinct members of `node_set`, so each arc has a
      tail and a head the conservation loop visits. */
  lemma EndpointsAreNodes()
    ensures forall a | a in BuildArcs() :: a.tail in BuildNodes() && a.head in BuildNodes() && a.tail != a.head
  {
    ArcsCharacterized();
    NodesCharacterized();
    EndpointsIn(BuildArcs(), BuildNodes());
  }

  lemma KeysOfIn(arcs: seq<Arc>, nodes: seq<Node>)
    requires NoDup(arcs) && NoDup(nodes)
    requires forall a | a in arcs :: a.tail in nodes && a.head in nodes
    ensures NoDup(ArcKeysOf(arcs)) && NoDup(NodeKeysOf(nodes))
    ensures forall k | 0 <= k < |arcs| ::
      Occurrences(ArcKeysOf(arcs)[k], '-') == 1 &&
      |Split(ArcKeysOf(arcs)[k], '-')| == 2 &&
      Split(ArcKeysOf(arcs)[k], '-')[0] in NodeKeysOf(nodes) &&
      Split(ArcKeysOf(arcs)[k], '-')[1] in NodeKeysOf(nodes)
  {
    var keys, names := ArcKeysOf(arcs), NodeKeysOf(nodes);
    forall p, q | 0 <= p < q < |keys|
      ensures keys[p] != keys[q]
    {
      ArcNameInjective(arcs[p], arcs[q]);
    }
    forall p, q | 0 <= p < q < |names|
      ensures names[p] != names[q]
    {
      NodeNameInjective(nodes[p], nodes[q]);
    }
    forall k | 0 <= k < |arcs|
      ensures Occurrences(keys[k], '-') == 1 && |Split(keys[k], '-')| == 2
      ensures Split(keys[k], '-')[0] in names && Split(keys[k], '-')[1] in names
    {
      var a := arcs[k];
      OneDashPerArcName(a);
      SplitArcName(a);
      assert a in arcs;
      var i :| 0 <= i < |nodes| && nodes[i] == a.tail;
      var j :| 0 <= j < |nodes| && nodes[j] == a.head;
      assert names[i] == NodeName(a.tail) && names[j] == NodeName(a.head);
    }
  }

  /** `arc_set` holds 55 distinct strings, each with exactly one '-', whose
      two sides are both keys of `node_set`, itself 28 distinct strings. */
  lemma ArcKeysWellFormed()
    ensures NoDup(ArcKeys()) && NoDup(NodeKeys())
    ensures forall k | 0 <= k < |ArcKeys()| ::
      Occurrences(ArcKeys()[k], '-') == 1 &&
      |Split(ArcKeys()[k], '-')| == 2 &&
      Split(ArcKeys()[k], '-')[0] in NodeKeys() &&
      Split(ArcKeys()[k], '-')[1] in NodeKeys()
  {
    ArcsDistinct();
    NodesCharacterized();
    EndpointsAreNodes();
    KeysOfIn(BuildArcs(), BuildNodes());
  }

  // ---------------------------------------------------------------------
  // Demand nodes

  lemma ODOutDistinct(i: City, j: City)
    ensures NoDup(ODOut(i, j))
  {
    var s := ODOut(i, j);
    forall p, q | 0 <= p < q < |s|
      ensures s[p] != s[q]
    {
      assert s[p].head != s[q].head;
    }
  }

  lemma ODArcsExactIn(arcs: seq<Arc>, i: City, j: City)
    requires i != j
    requires forall a :: a in arcs <==> IsArc(a)
    ensures forall a | a in arcs :: !a.head.OD?
    ensures NoDup(ODOut(i, j))
    ensures forall a :: a in arcs && a.tail == OD(i, j) <==> a in ODOut(i, j)
  {
    ODOutDistinct(i, j);
    forall a | a in arcs
      ensures !a.head.OD?
    {
      assert IsArc(a);
    }
    forall a
      ensures a in arcs && a.tail == OD(i, j) <==> a in ODOut(i, j)
    {
      if a.tail == OD(i, j) {
        assert IsArc(a) <==> a in ODOut(i, j);
      } else {
        assert a !in ODOut(i, j);
      }
    }
  }

  /** No arc enters a demand node, and the arcs leaving demand node (i, j)
      are exactly its sink discharge plus either the direct leg or the two
      hub-buffer legs. */
  lemma ODArcsExact(i: City, j: City)
    requires i != j
    ensures forall a | a in BuildArcs() :: !a.head.OD?
    ensures NoDup(ODOut(i, j))
    ensures forall a :: a in BuildArcs() && a.tail == OD(i, j) <==> a in ODOut(i, j)
  {
    ArcsCharacterized();
    ODArcsExactIn(BuildArcs(), i, j);
  }

  // ---------------------------------------------------------------------
  // Flight arcs: everything except discharges into the sink

  function FlightArcs(arcs: seq<Arc>): (r: seq<Arc>)
    ensures forall a :: a in r <==> a in arcs && a.head != Sink
  {
    if |arcs| == 0 then []
    else (if arcs[0].head != Sink then [arcs[0]] else []) + FlightArcs(arcs[1..])
  }

  function SinkIndicator(a: Arc): int
  {
    if a.head == Sink then 1 else 0
  }

  lemma {:induction false} FlightsPlusDischarges(arcs: seq<Arc>)
    ensures |FlightArcs(arcs)| + SumI(arcs, SinkIndicator) == |arcs|
  {
    if |arcs| > 0 {
      FlightsPlusDischarges(arcs[1..]);
    }
  }

  lemma PairDischarges(i: City, j: City)
    requires i != j
    ensures SumI(PairArcs(i, j), SinkIndicator) == 1
  {
    PairArcsShape(i, j);
    SumISingle(PairArcs(i, j), SinkIndicator, Arc(OD(i, j), Sink));
  }

  lemma {:induction false} PairsFromDischarges(i: City, js: seq<City>)
    requires NoDup(js)
    ensures SumI(PairsFrom(i, js), SinkIndicator) == |js| - (if i in js then 1 else 0)
  {
    if |js| > 0 {
      var first := if i != js[0] then PairArcs(i, js[0]) else [];
      if i != js[0] {
        PairDischarges(i, js[0]);
      }
      TailDistinct(js);
      PairsFromDischarges(i, js[1..]);
      SumIConcat(first, PairsFrom(i, js[1..]), SinkIndicator);
      assert i in js <==> i == js[0] || i in js[1..];
    }
  }

  lemma {:induction false} BlocksFromDischarges(cs: seq<City>)
    ensures SumI(BlocksFrom(cs), SinkIndicator) == 5 * |cs|
  {
    if |cs| > 0 {
      CitiesDistinct();
      CityListed(cs[0]);
      PairsFromDischarges(cs[0], Cities);
      SumIConcat([Arc(CityNode(cs[0]), Sink)], PairsFrom(cs[0], Cities), SinkIndicator);
      BlocksFromDischarges(cs[1..]);
      SumIConcat(CityBlock(cs[0]), BlocksFrom(cs[1..]), SinkIndicator);
    }
  }

  /** Thirty of the 55 arcs are flights; the other 25 discharge into the sink. */
  lemma FlightArcCount()
    ensures |FlightArcs(BuildArcs())| == 30
  {
    BlocksFromDischarges(Cities);
    SumIConcat(BufferToHalifax, BlocksFrom(Cities), SinkIndicator);
    FlightsPlusDischarges(BuildArcs());
  }
}
