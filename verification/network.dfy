/** The routing network's vocabulary: the five airports, the four kinds of
    node, arcs as (tail, head) pairs, and the string names the scripts use
    as dictionary keys ("VH-T*", "HM-M", "t", ...). */
module Network {
  import opened Wrappers
  import opened Strings

  /** Vancouver, Winnipeg, Toronto, Montreal, Halifax. Toronto and Montreal
      are the hubs; Halifax is the far spoke. */
  datatype City = V | W | T | M | H

  /** An airport, a hub's transfer buffer (`T*`, `M*`), the sink `t`, or
      the demand bucket of an ordered airport pair (`"VH"`). */
  datatype Node = CityNode(city: City) | Buffer(hub: City) | Sink | OD(orig: City, dest: City)

  datatype Arc = Arc(tail: Node, head: Node)

  /** The scripts' `cities` list, in its order. */
  const Cities: seq<City> := [V, W, T, M, H]

  predicate IsHub(c: City) { c == T || c == M }

  /** The two western spokes; Halifax is reached from them only through a hub. */
  predicate IsSpoke(c: City) { c == V || c == W }

  function Letter(c: City): char
  {
    match c
    case V => 'V'
    case W => 'W'
    case T => 'T'
    case M => 'M'
    case H => 'H'
  }

  function CityOf(ch: char): (r: Option<City>)
    ensures r.Some? ==> Letter(r.value) == ch
    ensures forall c: City :: Letter(c) == ch ==> r == Some(c)
  {
    if ch == 'V' then Some(V)
    else if ch == 'W' then Some(W)
    else if ch == 'T' then Some(T)
    else if ch == 'M' then Some(M)
    else if ch == 'H' then Some(H)
    else None
  }

  /** The node's key in the scripts' `node_set`. */
  function NodeName(v: Node): string
  {
    match v
    case CityNode(c) => [Letter(c)]
    case Buffer(h) => [Letter(h), '*']
    case Sink => "t"
    case OD(o, d) => [Letter(o), Letter(d)]
  }

  /** The arc's key in the scripts' `arc_set`: "tail-head". */
  function ArcName(a: Arc): string
  {
    NodeName(a.tail) + ['-'] + NodeName(a.head)
  }

  /** Reads a node key back; `None` for a string that names no node. */
  function ParseNode(s: string): Option<Node>
  {
    if s == "t" then Some(Sink)
    else if |s| == 1 then
      match CityOf(s[0])
      case Some(c) => Some(CityNode(c))
      case None => None
    else if |s| == 2 then
      match CityOf(s[0])
      case None => None
      case Some(o) =>
        if s[1] == '*' then Some(Buffer(o))
        else
          match CityOf(s[1])
          case Some(d) => Some(OD(o, d))
          case None => None
    else None
  }

  /** Reads an arc key back the way the scripts do, by splitting on '-'. */
  function ParseArc(s: string): Option<Arc>
  {
    var parts := Split(s, '-');
    if |parts| != 2 then None
    else
      match (ParseNode(parts[0]), ParseNode(parts[1]))
      case (Some(u), Some(v)) => Some(Arc(u, v))
      case _ => None
  }

  lemma NodeNameParses(v: Node)
    ensures ParseNode(NodeName(v)) == Some(v)
  {
  }

  lemma ParseNodeExact(s: string, v: Node)
    requires ParseNode(s) == Some(v)
    ensures NodeName(v) == s
  {
    if s != "t" {
      if |s| == 1 {
        assert s == [s[0]];
      } else {
        assert s == [s[0], s[1]];
      }
    }
  }

  /** Distinct nodes have distinct keys. */
  lemma NodeNameInjective(u: Node, v: Node)
    ensures NodeName(u) == NodeName(v) <==> u == v
  {
    NodeNameParses(u);
    NodeNameParses(v);
  }

  lemma NoDashInNodeName(v: Node)
    ensures '-' !in NodeName(v)
  {
  }

  /** `arc.split("-")` yields exactly the tail key and the head key. */
  lemma SplitArcName(a: Arc)
    ensures Split(ArcName(a), '-') == [NodeName(a.tail), NodeName(a.head)]
  {
    var parts := [NodeName(a.tail), NodeName(a.head)];
    NoDashInNodeName(a.tail);
    NoDashInNodeName(a.head);
    assert Join(parts, '-') == ArcName(a);
    SplitJoin(parts, '-');
  }

  /** Every arc key contains exactly one '-'. */
  lemma OneDashPerArcName(a: Arc)
    ensures Occurrences(ArcName(a), '-') == 1
  {
    SplitArcName(a);
  }

  /** Arc keys round-trip through `ParseArc`. */
  lemma ArcNameParses(a: Arc)
    ensures ParseArc(ArcName(a)) == Some(a)
  {
    SplitArcName(a);
    NodeNameParses(a.tail);
    NodeNameParses(a.head);
  }

  /** `ParseArc` accepts only arc keys. */
  lemma ParseArcExact(s: string, a: Arc)
    requires ParseArc(s) == Some(a)
    ensures ArcName(a) == s
  {
    var parts := Split(s, '-');
    ParseNodeExact(parts[0], a.tail);
    ParseNodeExact(parts[1], a.head);
    JoinSplit(s, '-');
    assert Join(parts, '-') == parts[0] + ['-'] + parts[1];
  }

  /** Distinct arcs have distinct keys. */
  lemma ArcNameInjective(a: Arc, b: Arc)
    ensures ArcName(a) == ArcName(b) <==> a == b
  {
    ArcNameParses(a);
    ArcNameParses(b);
  }

  /** The scripts' endpoint tests `v == arc.split("-")[0]` and
      `v == arc.split("-")[1]` compare nodes exactly. */
  lemma EndpointTests(a: Arc, v: Node)
    ensures Split(ArcName(a), '-')[0] == NodeName(v) <==> a.tail == v
    ensures |Split(ArcName(a), '-')| == 2 && (Split(ArcName(a), '-')[1] == NodeName(v) <==> a.head == v)
  {
    SplitArcName(a);
    NodeNameInjective(a.tail, v);
    NodeNameInjective(a.head, v);
  }

  /** First character of a node key: the letter the scripts index tables by. */
  function Lead(v: Node): char
  {
    NodeName(v)[0]
  }

  /** The airport a node key starts with; only the sink has none. */
  function LeadCity(v: Node): (c: City)
    requires !v.Sink?
    ensures Letter(c) == Lead(v)
  {
    match v
    case CityNode(c) => c
    case Buffer(h) => h
    case OD(o, _) => o
  }

  /** Only the sink's key starts with (or contains) lower-case 't'. */
  lemma LowerTMarksSink(v: Node)
    ensures Lead(v) == 't' <==> v == Sink
    ensures 't' in NodeName(v) <==> v == Sink
  {
  }

  /** Only buffer keys contain '*'. */
  lemma StarMarksBuffer(v: Node)
    ensures '*' in NodeName(v) <==> v.Buffer?
  {
  }

  /** The scripts' sink-arc test `'t' not in arc` singles out exactly the
      arcs into the sink, for every arc that does not leave the sink. */
  lemma SinkArcTest(a: Arc)
    requires a.tail != Sink
    ensures 't' !in ArcName(a) <==> a.head != Sink
  {
    LowerTMarksSink(a.tail);
    LowerTMarksSink(a.head);
    var s := ArcName(a);
    if 't' in NodeName(a.head) {
      var k :| 0 <= k < |NodeName(a.head)| && NodeName(a.head)[k] == 't';
      assert s[|NodeName(a.tail)| + 1 + k] == 't';
    }
    assert forall k | 0 <= k < |s| :: s[k] in NodeName(a.tail) || s[k] == '-' || s[k] in NodeName(a.head) by {
      forall k | 0 <= k < |s|
        ensures s[k] in NodeName(a.tail) || s[k] == '-' || s[k] in NodeName(a.head)
      {
        if k < |NodeName(a.tail)| {
          assert s[k] == NodeName(a.tail)[k];
        } else if k > |NodeName(a.tail)| {
          assert s[k] == NodeName(a.head)[k - |NodeName(a.tail)| - 1];
        }
      }
    }
  }
}
