/** Flow conservation: one row per node and day, stating that the flow the
    arcs carry into a node minus the flow they carry out equals the node's
    net demand. */
module Flow {
  import opened Network
  import opened Digraph
  import opened Sums
  import opened Demands
  import opened Wrappers
  import opened Strings

  /** One day's passenger flow `X[arc, day]`, arc by arc. */
  type Flow = Arc -> real

  /** Row and column of a city in the demand and revenue tables
      (`table_index`). */
  function TableIndex(c: City): (k: nat)
    ensures k < 5
  {
    match c
    case H => 0
    case M => 1
    case T => 2
    case W => 3
    case V => 4
  }

  lemma TableIndexInjective(c: City, e: City)
    ensures TableIndex(c) == TableIndex(e) <==> c == e
  {
  }

  /** A table the scripts can index at every `table_index` pair. */
  predicate Square5(m: Table)
  {
    |m| >= 5 && forall r | 0 <= r < 5 :: |m[r]| >= 5
  }

  /** Entry (i, j) of a table, read through `table_index`; 0 outside the
      table, where the scripts would raise IndexError.  On a `Square5`
      table it is exactly the scripts' `m[table_index[i]][table_index[j]]`;
      the conservation lemmas below hold for any table, and only the
      diagonal lemmas ask for exactly five rows of five. */
  function Entry(m: Table, i: City, j: City): int
  {
    var r, c := TableIndex(i), TableIndex(j);
    if r < |m| && c < |m[r]| then m[r][c] else 0
  }

  // ---------------------------------------------------------------------
  // Coefficients

  /** Coefficient of an arc's flow in node v's row: the `if` tests the tail
      first, the `elif` the head, so each arc counts -1 at its tail, +1 at
      its head and nowhere else. */
  function Inc(a: Arc, v: Node): real
  {
    if v == a.tail then -1.0 else if v == a.head then 1.0 else 0.0
  }

  /** The same coefficient as the scripts compute it, on the strings:
      `v == arc.split("-")[0]`, then `v == arc.split("-")[1]`. */
  function KeyInc(v: string, arc: string): real
  {
    var parts := Split(arc, '-');
    if v == parts[0] then -1.0 else if |parts| > 1 && v == parts[1] then 1.0 else 0.0
  }

  /** Comparing keys is comparing nodes: the string coefficient agrees with
      the typed one on every node and arc. */
  lemma KeyIncMatches(v: Node, a: Arc)
    ensures KeyInc(NodeName(v), ArcName(a)) == Inc(a, v)
  {
    EndpointTests(a, v);
  }

  function Term(x: Flow, v: Node): Arc -> real
  {
    a => Inc(a, v) * x(a)
  }

  /** The left-hand side `v_constraint` of node v's row. */
  function Balance(arcs: seq<Arc>, x: Flow, v: Node): real
  {
    SumR(arcs, Term(x, v))
  }

  function Balances(arcs: seq<Arc>, x: Flow): Node -> real
  {
    v => Balance(arcs, x, v)
  }

  // ---------------------------------------------------------------------
  // Right-hand sides

  /** The right-hand side `v_demand` of node v's row, for a day with demand
      matrix `m` and total `total`: the sink absorbs the day's total,
      airports and buffers are transit nodes, and demand node (i, j)
      supplies the passengers wanting to fly from i to j. */
  function DayDemand(m: Table, total: int, v: Node): real
  {
    match v
    case Sink => total as real
    case CityNode(_) => 0.0
    case Buffer(_) => 0.0
    case OD(i, j) => -(Entry(m, i, j) as real)
  }

  function DayDemands(m: Table, total: int): Node -> real
  {
    v => DayDemand(m, total, v)
  }

  /** The scripts' classification on the key string: `t`, then one-letter
      keys, `T*` and `M*`, then two-letter pair keys; `None` where Python
      would fail on the lookup. */
  function KeyDemand(key: string, m: Table, total: int): Option<real>
  {
    if key == "t" then Some(total as real)
    else if |key| == 1 || key == "T*" || key == "M*" then Some(0.0)
    else if |key| >= 2 && CityOf(key[0]).Some? && CityOf(key[1]).Some? then
      Some(-(Entry(m, CityOf(key[0]).value, CityOf(key[1]).value) as real))
    else None
  }

  /** The string classification gives every node of the network its typed
      net demand. */
  lemma KeyDemandMatches(v: Node, m: Table, total: int)
    requires IsNode(v)
    ensures KeyDemand(NodeName(v), m, total) == Some(DayDemand(m, total, v))
  {
    match v
    case OD(i, j) =>
      assert CityOf(Letter(i)) == Some(i) && CityOf(Letter(j)) == Some(j);
    case _ =>
  }

  /** Every row of the day's system holds. */
  predicate Conserved(arcs: seq<Arc>, nodes: seq<Node>, x: Flow, m: Table, total: int)
  {
    forall v | v in nodes :: Balance(arcs, x, v) == DayDemand(m, total, v)
  }

  // ---------------------------------------------------------------------
  // Cancellation

  function OneArc(a: Arc, x: Flow, w: Node -> real): Node -> real
  {
    v => w(v) * Inc(a, v) * x(a)
  }

  function Weighted(arcs: seq<Arc>, x: Flow, w: Node -> real): Node -> real
  {
    v => w(v) * Balance(arcs, x, v)
  }

  function Lift(x: Flow, w: Node -> real): Arc -> real
  {
    a => x(a) * (w(a.head) - w(a.tail))
  }

  lemma OneArcSum(a: Arc, nodes: seq<Node>, x: Flow, w: Node -> real)
    requires NoDup(nodes) && a.tail in nodes && a.head in nodes && a.tail != a.head
    ensures SumR(nodes, OneArc(a, x, w)) == Lift(x, w)(a)
  {
    var ends := [a.tail, a.head];
    var f := OneArc(a, x, w);
    forall k | 0 <= k < |nodes| && nodes[k] !in ends
      ensures f(nodes[k]) == 0.0
    {
      OneArcElsewhere(a, x, w, nodes[k]);
    }
    SumRSupport(nodes, ends, f);
    SumRPair(a.tail, a.head, f);
    OneArcEnds(a, x, w);
  }

  lemma OneArcElsewhere(a: Arc, x: Flow, w: Node -> real, v: Node)
    requires v != a.tail && v != a.head
    ensures OneArc(a, x, w)(v) == 0.0
  {
    assert Inc(a, v) == 0.0;
  }

  /** An arc's terms at its two ends add up to its lift. */
  lemma OneArcEnds(a: Arc, x: Flow, w: Node -> real)
    requires a.tail != a.head
    ensures OneArc(a, x, w)(a.tail) + OneArc(a, x, w)(a.head) == Lift(x, w)(a)
  {
    assert OneArc(a, x, w)(a.tail) == w(a.tail) * -1.0 * x(a);
    assert OneArc(a, x, w)(a.head) == w(a.head) * 1.0 * x(a);
  }

  lemma WeightedStep(arcs: seq<Arc>, x: Flow, w: Node -> real, v: Node)
    requires |arcs| > 0
    ensures Weighted(arcs, x, w)(v) == OneArc(arcs[0], x, w)(v) + Weighted(arcs[1..], x, w)(v)
  {
    var b := Balance(arcs[1..], x, v);
    assert Balance(arcs, x, v) == Inc(arcs[0], v) * x(arcs[0]) + b;
    assert w(v) * (Inc(arcs[0], v) * x(arcs[0]) + b) == w(v) * Inc(arcs[0], v) * x(arcs[0]) + w(v) * b;
  }

  /** Weighting each node's row by `w(v)` and adding them up gives, arc by
      arc, the flow times the weight gained from tail to head. */
  lemma {:induction false} WeightedCancellation(arcs: seq<Arc>, nodes: seq<Node>, x: Flow, w: Node -> real)
    requires NoDup(nodes)
    requires forall a | a in arcs :: a.tail in nodes && a.head in nodes && a.tail != a.head
    ensures SumR(nodes, Weighted(arcs, x, w)) == SumR(arcs, Lift(x, w))
  {
    if |arcs| == 0 {
      SumRZero(nodes, Weighted(arcs, x, w));
    } else {
      var a, rest := arcs[0], arcs[1..];
      assert forall b | b in rest :: b in arcs;
      WeightedCancellation(rest, nodes, x, w);
      forall k | 0 <= k < |nodes|
        ensures Weighted(arcs, x, w)(nodes[k]) == OneArc(a, x, w)(nodes[k]) + Weighted(rest, x, w)(nodes[k])
      {
        WeightedStep(arcs, x, w, nodes[k]);
      }
      SumRAdd(nodes, OneArc(a, x, w), Weighted(rest, x, w), Weighted(arcs, x, w));
      assert a in arcs;
      OneArcSum(a, nodes, x, w);
    }
  }

  function One(v: Node): real { 1.0 }

  /** Each arc's flow leaves one node and enters another, so the rows'
      left-hand sides add up to zero over any node list holding every
      endpoint once. */
  lemma GlobalCancellation(arcs: seq<Arc>, nodes: seq<Node>, x: Flow)
    requires NoDup(nodes)
    requires forall a | a in arcs :: a.tail in nodes && a.head in nodes && a.tail != a.head
    ensures SumR(nodes, Balances(arcs, x)) == 0.0
  {
    WeightedCancellation(arcs, nodes, x, One);
    SumRZero(arcs, Lift(x, One));
    SumRCongruent(nodes, Balances(arcs, x), Weighted(arcs, x, One));
  }

  /** A day's system can only be satisfied when its right-hand sides add up
      to zero. */
  lemma ConservedNeedsZeroSum(arcs: seq<Arc>, nodes: seq<Node>, x: Flow, m: Table, total: int)
    requires NoDup(nodes)
    requires forall a | a in arcs :: a.tail in nodes && a.head in nodes && a.tail != a.head
    requires Conserved(arcs, nodes, x, m, total)
    ensures SumR(nodes, DayDemands(m, total)) == 0.0
  {
    GlobalCancellation(arcs, nodes, x);
    assert forall k | 0 <= k < |nodes| :: nodes[k] in nodes;
    SumRCongruent(nodes, Balances(arcs, x), DayDemands(m, total));
  }

  // ---------------------------------------------------------------------
  // The network's rows

  /** Sum over the ordered pairs of distinct cities. */
  function PairTerm(m: Table, i: City): City -> real
  {
    j => if i != j then Entry(m, i, j) as real else 0.0
  }

  function RowTerm(m: Table): City -> real
  {
    i => SumR(Cities, PairTerm(m, i))
  }

  /** Every off-diagonal entry of the day matrix, over the five cities. */
  function OffDiagonal(m: Table): real
  {
    SumR(Cities, RowTerm(m))
  }

  function DiagonalTerm(m: Table): City -> real
  {
    c => Entry(m, c, c) as real
  }

  /** The entries that pair a city with itself. */
  function Diagonal(m: Table): real
  {
    SumR(Cities, DiagonalTerm(m))
  }

  lemma {:induction false} ODRowSum(i: City, js: seq<City>, m: Table, total: int)
    ensures SumR(ODRow(i, js), DayDemands(m, total)) == -SumR(js, PairTerm(m, i))
  {
    if |js| > 0 {
      var head := if i != js[0] then [OD(i, js[0])] else [];
      ODRowSum(i, js[1..], m, total);
      SumRConcat(head, ODRow(i, js[1..]), DayDemands(m, total));
    }
  }

  lemma {:induction false} ODFromSum(cs: seq<City>, m: Table, total: int)
    ensures SumR(ODFrom(cs), DayDemands(m, total)) == -SumR(cs, RowTerm(m))
  {
    if |cs| > 0 {
      ODRowSum(cs[0], Cities, m, total);
      ODFromSum(cs[1..], m, total);
      SumRConcat(ODRow(cs[0], Cities), ODFrom(cs[1..]), DayDemands(m, total));
    }
  }

  lemma {:induction false} AirportsCarryNoDemand(cs: seq<City>, m: Table, total: int)
    ensures SumR(AirportNodes(cs), DayDemands(m, total)) == 0.0
  {
    if |cs| > 0 {
      AirportsCarryNoDemand(cs[1..], m, total);
    }
  }

  lemma BuffersAndSinkDemand(m: Table, total: int)
    ensures SumR(BuffersAndSink, DayDemands(m, total)) == total as real
  {
    assert BuffersAndSink[1..][1..][1..] == [];
  }

  lemma NodeDemandTotalOver(cs: seq<City>, m: Table, total: int)
    ensures SumR(AirportNodes(cs) + BuffersAndSink + ODFrom(cs), DayDemands(m, total))
      == total as real - SumR(cs, RowTerm(m))
  {
    var d := DayDemands(m, total);
    AirportsCarryNoDemand(cs, m, total);
    BuffersAndSinkDemand(m, total);
    ODFromSum(cs, m, total);
    SumRConcat(AirportNodes(cs), BuffersAndSink, d);
    SumRConcat(AirportNodes(cs) + BuffersAndSink, ODFrom(cs), d);
  }

  /** Summed over `node_set`, the right-hand sides are the day's total less
      every off-diagonal demand. */
  lemma NodeDemandTotal(m: Table, total: int)
    ensures SumR(BuildNodes(), DayDemands(m, total)) == total as real - OffDiagonal(m)
  {
    NodeDemandTotalOver(Cities, m, total);
  }

  /** A satisfiable day has a total equal to the sum of its off-diagonal
      demands. */
  lemma DayTotalIsOffDiagonal(x: Flow, m: Table, total: int)
    requires Conserved(BuildArcs(), BuildNodes(), x, m, total)
    ensures total as real == OffDiagonal(m)
  {
    NodesCharacterized();
    EndpointsAreNodes();
    NodeDemandTotal(m, total);
    TotalFromRows(BuildArcs(), BuildNodes(), x, m, total);
  }

  /** On any closed listing, a satisfiable day whose right-hand sides add up
      to the total less the off-diagonal demands has exactly that total. */
  lemma TotalFromRows(arcs: seq<Arc>, nodes: seq<Node>, x: Flow, m: Table, total: int)
    requires NoDup(nodes)
    requires forall a | a in arcs :: a.tail in nodes && a.head in nodes && a.tail != a.head
    requires Conserved(arcs, nodes, x, m, total)
    requires SumR(nodes, DayDemands(m, total)) == total as real - OffDiagonal(m)
    ensures total as real == OffDiagonal(m)
  {
    ConservedNeedsZeroSum(arcs, nodes, x, m, total);
  }

  lemma CitiesSum(g: City -> real)
    ensures SumR(Cities, g) == g(V) + g(W) + g(T) + g(M) + g(H)
  {
  }

  lemma SumIFive<X>(s: seq<X>, f: X -> int)
    requires |s| == 5
    ensures SumI(s, f) == f(s[0]) + f(s[1]) + f(s[2]) + f(s[3]) + f(s[4])
  {
    assert s[1..][1..] == s[2..] && s[1..][0] == s[1];
    assert s[2..][1..] == s[3..] && s[2..][0] == s[2];
    assert s[3..][1..] == s[4..] && s[3..][0] == s[3];
    assert s[4..][1..] == [] && s[4..][0] == s[4];
    assert SumI(s[4..], f) == f(s[4]);
    assert SumI(s[3..], f) == f(s[3]) + f(s[4]);
    assert SumI(s[2..], f) == f(s[2]) + f(s[3]) + f(s[4]);
  }

  /** One row of a 5 by 5 table: its diagonal entry plus its off-diagonal
      entries. */
  lemma RowSplits(m: Table, i: City)
    requires |m| == 5 && forall r | 0 <= r < 5 :: |m[r]| == 5
    ensures RowSum(m[TableIndex(i)]) as real == DiagonalTerm(m)(i) + RowTerm(m)(i)
  {
    SumIFive(m[TableIndex(i)], Id);
    CitiesSum(PairTerm(m, i));
  }

  /** A 5 by 5 table's sum is its diagonal plus its off-diagonal part. */
  lemma TableSumSplits(m: Table)
    requires |m| == 5 && forall r | 0 <= r < 5 :: |m[r]| == 5
    ensures TableSum(m) as real == Diagonal(m) + OffDiagonal(m)
  {
    SumIFive(m, RowSum);
    RowSplits(m, H);
    RowSplits(m, M);
    RowSplits(m, T);
    RowSplits(m, W);
    RowSplits(m, V);
    CitiesSum(DiagonalTerm(m));
    CitiesSum(RowTerm(m));
  }

  /** With the total the grouping computes (every entry, diagonal
      included), a satisfiable day has diagonal demands summing to zero. */
  lemma DiagonalMustVanish(x: Flow, m: Table)
    requires |m| == 5 && forall r | 0 <= r < 5 :: |m[r]| == 5
    requires Conserved(BuildArcs(), BuildNodes(), x, m, TableSum(m))
    ensures Diagonal(m) == 0.0
  {
    TableSumSplits(m);
    DayTotalIsOffDiagonal(x, m, TableSum(m));
  }

  // ---------------------------------------------------------------------
  // Demand nodes

  lemma ODOutflowIn(arcs: seq<Arc>, x: Flow, i: City, j: City)
    requires i != j && NoDup(arcs)
    requires forall a :: a in arcs <==> IsArc(a)
    ensures Balance(arcs, x, OD(i, j)) == -SumR(ODOut(i, j), x)
  {
    var v, out := OD(i, j), ODOut(i, j);
    ODArcsExactIn(arcs, i, j);
    forall k | 0 <= k < |arcs| && arcs[k] !in out
      ensures Term(x, v)(arcs[k]) == 0.0
    {
      assert arcs[k] in arcs;
      assert Inc(arcs[k], v) == 0.0;
    }
    forall k | 0 <= k < |out|
      ensures out[k] in arcs
    {
      assert out[k] in out;
    }
    SumRSupport(arcs, out, Term(x, v));
    forall k | 0 <= k < |out|
      ensures Term(x, v)(out[k]) == -1.0 * x(out[k])
    {
      assert out[k].tail == v;
    }
    SumRScale(out, -1.0, x, Term(x, v));
  }

  /** The row of demand node (i, j) forces its outgoing arcs (the sink
      discharge plus the direct leg, or plus both hub-buffer legs) to carry
      exactly the day's demand from i to j.  Stated for any duplicate-free
      listing of the network, `arc_set` and `node_set` among them. */
  lemma ODOutflow(arcs: seq<Arc>, nodes: seq<Node>, x: Flow, m: Table, total: int, i: City, j: City)
    requires NoDup(arcs) && forall a :: a in arcs <==> IsArc(a)
    requires forall v :: v in nodes <==> IsNode(v)
    requires i != j
    requires Conserved(arcs, nodes, x, m, total)
    ensures SumR(ODOut(i, j), x) == Entry(m, i, j) as real
  {
    assert OD(i, j) in nodes;
    ODOutflowIn(arcs, x, i, j);
  }

  // ---------------------------------------------------------------------
  // Discharging every demand to the sink

  /** Every passenger goes straight to the sink: pair (i, j) sends its
      day's demand on `ij-t`, and no other arc carries anything. */
  function Discharge(m: Table): Flow
  {
    (a: Arc) => if a.tail.OD? && a.head == Sink then Entry(m, a.tail.orig, a.tail.dest) as real else 0.0
  }

  lemma DischargeOutflow(m: Table, i: City, j: City)
    ensures SumR(ODOut(i, j), Discharge(m)) == Entry(m, i, j) as real
  {
    ODOutDistinct(i, j);
    var e := Arc(OD(i, j), Sink);
    assert e in ODOut(i, j);
    SumRSingle(ODOut(i, j), Discharge(m), e);
  }

  /** Away from the sink, the discharge meets every row of the day. */
  lemma DischargeRow(arcs: seq<Arc>, m: Table, total: int, v: Node)
    requires NoDup(arcs) && forall a :: a in arcs <==> IsArc(a)
    requires IsNode(v) && v != Sink
    ensures Balance(arcs, Discharge(m), v) == DayDemand(m, total, v)
  {
    var x := Discharge(m);
    if v.OD? {
      ODOutflowIn(arcs, x, v.orig, v.dest);
      DischargeOutflow(m, v.orig, v.dest);
    } else {
      forall k | 0 <= k < |arcs|
        ensures Term(x, v)(arcs[k]) == 0.0
      {
        var a := arcs[k];
        assert x(a) != 0.0 ==> a.tail.OD? && a.head == Sink;
      }
      SumRZero(arcs, Term(x, v));
    }
  }

  /** The rows are dependent: when every row but the sink's holds and the
      right-hand sides add up to zero, the sink's row holds as well. */
  lemma SinkRowFollows(arcs: seq<Arc>, nodes: seq<Node>, x: Flow, m: Table, total: int)
    requires NoDup(nodes) && Sink in nodes
    requires forall a | a in arcs :: a.tail in nodes && a.head in nodes && a.tail != a.head
    requires forall v | v in nodes && v != Sink :: Balance(arcs, x, v) == DayDemand(m, total, v)
    requires SumR(nodes, DayDemands(m, total)) == 0.0
    ensures Balance(arcs, x, Sink) == DayDemand(m, total, Sink)
  {
    var b, d := Balances(arcs, x), DayDemands(m, total);
    var gap := (v: Node) => b(v) - d(v);
    GlobalCancellation(arcs, nodes, x);
    SumRAdd(nodes, d, gap, b);
    forall k | 0 <= k < |nodes| && nodes[k] != Sink
      ensures gap(nodes[k]) == 0.0
    {
      assert nodes[k] in nodes;
    }
    SumRSingle(nodes, gap, Sink);
  }

  /** On any listing of the network, the right-hand sides add up as they do
      over `node_set`. */
  lemma NodeDemandTotalAny(nodes: seq<Node>, m: Table, total: int)
    requires NoDup(nodes) && forall v :: v in nodes <==> IsNode(v)
    ensures SumR(nodes, DayDemands(m, total)) == total as real - OffDiagonal(m)
  {
    NodesCharacterized();
    NodeDemandTotal(m, total);
    var built := BuildNodes();
    forall k | 0 <= k < |built|
      ensures built[k] in nodes
    {
      assert built[k] in built;
    }
    forall k | 0 <= k < |nodes|
      ensures nodes[k] in built
    {
      assert nodes[k] in nodes;
    }
    SumRSupport(nodes, built, DayDemands(m, total));
  }

  /** A day whose total equals its off-diagonal demand is met by
      discharging every demand straight to the sink. */
  lemma DischargeConserved(arcs: seq<Arc>, nodes: seq<Node>, m: Table, total: int)
    requires NoDup(arcs) && forall a :: a in arcs <==> IsArc(a)
    requires NoDup(nodes) && forall v :: v in nodes <==> IsNode(v)
    requires total as real == OffDiagonal(m)
    ensures Conserved(arcs, nodes, Discharge(m), m, total)
  {
    var x := Discharge(m);
    EndpointsIn(arcs, nodes);
    NodeDemandTotalAny(nodes, m, total);
    forall v | v in nodes && v != Sink
      ensures Balance(arcs, x, v) == DayDemand(m, total, v)
    {
      DischargeRow(arcs, m, total, v);
    }
    assert IsNode(Sink);
    SinkRowFollows(arcs, nodes, x, m, total);
  }

  /** The converse of `DiagonalMustVanish`: on a 5 by 5 day with the total
      the grouping computes, a zero diagonal makes the rows satisfiable. */
  lemma ZeroDiagonalSuffices(arcs: seq<Arc>, nodes: seq<Node>, m: Table)
    requires NoDup(arcs) && forall a :: a in arcs <==> IsArc(a)
    requires NoDup(nodes) && forall v :: v in nodes <==> IsNode(v)
    requires |m| == 5 && forall r | 0 <= r < 5 :: |m[r]| == 5
    requires Diagonal(m) == 0.0
    ensures Conserved(arcs, nodes, Discharge(m), m, TableSum(m))
  {
    TableSumSplits(m);
    DischargeConserved(arcs, nodes, m, TableSum(m));
  }

  /** On `arc_set` and `node_set`, a 5 by 5 day with the grouped total can
      be routed exactly when its diagonal vanishes. */
  lemma DayFeasibleIff(m: Table)
    requires |m| == 5 && forall r | 0 <= r < 5 :: |m[r]| == 5
    ensures (exists x: Flow :: Conserved(BuildArcs(), BuildNodes(), x, m, TableSum(m))) <==> Diagonal(m) == 0.0
  {
    if Diagonal(m) == 0.0 {
      ArcsDistinct();
      ArcsCharacterized();
      NodesCharacterized();
      ZeroDiagonalSuffices(BuildArcs(), BuildNodes(), m);
    }
    if x: Flow :| Conserved(BuildArcs(), BuildNodes(), x, m, TableSum(m)) {
      DiagonalMustVanish(x, m);
    }
  }

  // ---------------------------------------------------------------------
  // Hub buffers

  /** The arcs at buffer `h*`: four transit legs in, three legs out. */
  function BufferArcs(h: City): seq<Arc>
  {
    [Arc(OD(V, H), Buffer(h)), Arc(OD(W, H), Buffer(h)), Arc(OD(H, V), Buffer(h)), Arc(OD(H, W), Buffer(h)),
     Arc(Buffer(h), CityNode(H)), Arc(Buffer(h), CityNode(V)), Arc(Buffer(h), CityNode(W))]
  }

  /** Flow into buffer `h*` less flow out of it. */
  function BufferNet(x: Flow, h: City): real
  {
    x(Arc(OD(V, H), Buffer(h))) + x(Arc(OD(W, H), Buffer(h))) + x(Arc(OD(H, V), Buffer(h))) + x(Arc(OD(H, W), Buffer(h)))
    - x(Arc(Buffer(h), CityNode(H))) - x(Arc(Buffer(h), CityNode(V))) - x(Arc(Buffer(h), CityNode(W)))
  }

  lemma BufferArcsShape(h: City)
    requires IsHub(h)
    ensures NoDup(BufferArcs(h))
    ensures forall k | 0 <= k < |BufferArcs(h)| :: IsArc(BufferArcs(h)[k])
    ensures forall a | IsArc(a) && (a.tail == Buffer(h) || a.head == Buffer(h)) :: a in BufferArcs(h)
  {
  }

  lemma SumRSeven<X>(s: seq<X>, f: X -> real)
    requires |s| == 7
    ensures SumR(s, f) == f(s[0]) + f(s[1]) + f(s[2]) + f(s[3]) + f(s[4]) + f(s[5]) + f(s[6])
  {
    SumRStep(s, 0, f);
    SumRStep(s, 1, f);
    SumRStep(s, 2, f);
    SumRStep(s, 3, f);
    SumRStep(s, 4, f);
    SumRStep(s, 5, f);
    SumRStep(s, 6, f);
    assert s[0..] == s && s[7..] == [];
  }

  /** The four legs into h* count +1 in its row, the three legs out -1. */
  lemma BufferTerms(x: Flow, h: City)
    ensures var s, f := BufferArcs(h), Term(x, Buffer(h));
      f(s[0]) == x(s[0]) && f(s[1]) == x(s[1]) && f(s[2]) == x(s[2]) && f(s[3]) == x(s[3]) &&
      f(s[4]) == -x(s[4]) && f(s[5]) == -x(s[5]) && f(s[6]) == -x(s[6])
  {
  }

  lemma BufferArcsSum(x: Flow, h: City)
    ensures SumR(BufferArcs(h), Term(x, Buffer(h))) == BufferNet(x, h)
  {
    SumRSeven(BufferArcs(h), Term(x, Buffer(h)));
    BufferTerms(x, h);
  }

  /** The left-hand side of buffer h*'s conservation row. */
  lemma BufferBalance(arcs: seq<Arc>, x: Flow, h: City)
    requires IsHub(h) && NoDup(arcs)
    requires forall a :: a in arcs <==> IsArc(a)
    ensures Balance(arcs, x, Buffer(h)) == BufferNet(x, h)
  {
    var v, touching := Buffer(h), BufferArcs(h);
    BufferArcsShape(h);
    forall k | 0 <= k < |arcs| && arcs[k] !in touching
      ensures Term(x, v)(arcs[k]) == 0.0
    {
      assert IsArc(arcs[k]);
      assert Inc(arcs[k], v) == 0.0;
    }
    forall k | 0 <= k < |touching|
      ensures touching[k] in arcs
    {
      assert IsArc(touching[k]);
    }
    SumRSupport(arcs, touching, Term(x, v));
    BufferArcsSum(x, h);
  }

  /** The six layover equalities: Halifax-bound passengers leave a buffer
      for Halifax, and Halifax passengers bound for a spoke leave the buffer
      they entered toward that spoke. */
  predicate Layover(x: Flow)
  {
    x(Arc(OD(V, H), Buffer(T))) + x(Arc(OD(W, H), Buffer(T))) == x(Arc(Buffer(T), CityNode(H))) &&
    x(Arc(OD(V, H), Buffer(M))) + x(Arc(OD(W, H), Buffer(M))) == x(Arc(Buffer(M), CityNode(H))) &&
    x(Arc(OD(H, V), Buffer(T))) == x(Arc(Buffer(T), CityNode(V))) &&
    x(Arc(OD(H, V), Buffer(M))) == x(Arc(Buffer(M), CityNode(V))) &&
    x(Arc(OD(H, W), Buffer(T))) == x(Arc(Buffer(T), CityNode(W))) &&
    x(Arc(OD(H, W), Buffer(M))) == x(Arc(Buffer(M), CityNode(W)))
  }

  /** Both buffer rows of the conservation system hold. */
  predicate BuffersConserved(arcs: seq<Arc>, x: Flow)
  {
    Balance(arcs, x, Buffer(T)) == 0.0 && Balance(arcs, x, Buffer(M)) == 0.0
  }

  /** The fourteen keys the layover rows read name the transit legs listed
      in `BufferArcs`. */
  lemma LayoverKeys()
    ensures ArcName(Arc(OD(V, H), Buffer(T))) == "VH-T*" && ArcName(Arc(OD(W, H), Buffer(T))) == "WH-T*"
    ensures ArcName(Arc(OD(V, H), Buffer(M))) == "VH-M*" && ArcName(Arc(OD(W, H), Buffer(M))) == "WH-M*"
    ensures ArcName(Arc(OD(H, V), Buffer(T))) == "HV-T*" && ArcName(Arc(OD(H, V), Buffer(M))) == "HV-M*"
    ensures ArcName(Arc(OD(H, W), Buffer(T))) == "HW-T*" && ArcName(Arc(OD(H, W), Buffer(M))) == "HW-M*"
    ensures ArcName(Arc(Buffer(T), CityNode(H))) == "T*-H" && ArcName(Arc(Buffer(M), CityNode(H))) == "M*-H"
    ensures ArcName(Arc(Buffer(T), CityNode(V))) == "T*-V" && ArcName(Arc(Buffer(M), CityNode(V))) == "M*-V"
    ensures ArcName(Arc(Buffer(T), CityNode(W))) == "T*-W" && ArcName(Arc(Buffer(M), CityNode(W))) == "M*-W"
  {
  }

  /** The layover equalities imply the conservation rows of both buffers. */
  lemma LayoverConservesBuffers(arcs: seq<Arc>, x: Flow)
    requires NoDup(arcs) && forall a :: a in arcs <==> IsArc(a)
    requires Layover(x)
    ensures BuffersConserved(arcs, x)
  {
    BufferBalance(arcs, x, T);
    BufferBalance(arcs, x, M);
  }

  /** Halifax-to-Vancouver passengers entering `T*` and leaving it toward
      Winnipeg. */
  function Diverted(): Flow
  {
    a => if a == Arc(OD(H, V), Buffer(T)) || a == Arc(Buffer(T), CityNode(W)) then 1.0 else 0.0
  }

  /** The layover equalities are strictly stronger than buffer
      conservation: the diverted flow balances at both buffers, yet sends a
      Halifax-to-Vancouver passenger on to Winnipeg. */
  lemma LayoverStrictlyStronger(arcs: seq<Arc>)
    requires NoDup(arcs) && forall a :: a in arcs <==> IsArc(a)
    ensures BuffersConserved(arcs, Diverted()) && !Layover(Diverted())
  {
    BufferBalance(arcs, Diverted(), T);
    BufferBalance(arcs, Diverted(), M);
  }

  // ---------------------------------------------------------------------
  // No flow without demand

  /** Every arc climbs this ranking by at least one step: demand nodes,
      then buffers, then airports, then the sink. */
  function Rank(v: Node): real
  {
    match v
    case OD(_, _) => 0.0
    case Buffer(_) => 1.0
    case CityNode(_) => 2.0
    case Sink => 3.0
  }

  lemma ArcsClimb(a: Arc)
    requires IsArc(a)
    ensures Rank(a.head) - Rank(a.tail) >= 1.0
  {
  }

  /** Weighted by rank, a conserved day's rows vanish everywhere except at
      the sink, where the row is three times the day's total. */
  lemma RankedRows(arcs: seq<Arc>, nodes: seq<Node>, x: Flow, m: Table, total: int, v: Node)
    requires Conserved(arcs, nodes, x, m, total)
    requires v in nodes
    ensures v != Sink ==> Weighted(arcs, x, Rank)(v) == 0.0
    ensures v == Sink ==> Weighted(arcs, x, Rank)(v) == 3.0 * (total as real)
  {
    assert Balance(arcs, x, v) == DayDemand(m, total, v);
    assert Weighted(arcs, x, Rank)(v) == Rank(v) * Balance(arcs, x, v);
  }

  /** Summed over the nodes, the rank-weighted rows give three times the
      day's total. */
  lemma RankedTotal(arcs: seq<Arc>, nodes: seq<Node>, x: Flow, m: Table, total: int)
    requires NoDup(nodes) && Sink in nodes
    requires Conserved(arcs, nodes, x, m, total)
    ensures SumR(nodes, Weighted(arcs, x, Rank)) == 3.0 * (total as real)
  {
    var g := Weighted(arcs, x, Rank);
    forall k | 0 <= k < |nodes| && nodes[k] != Sink
      ensures g(nodes[k]) == 0.0
    {
      RankedRows(arcs, nodes, x, m, total, nodes[k]);
    }
    RankedRows(arcs, nodes, x, m, total, Sink);
    SumRSingle(nodes, g, Sink);
  }

  /** A non-negative flow on a climbing arc is at most its rank-weighted
      lift. */
  lemma LiftDominates(arcs: seq<Arc>, x: Flow)
    requires forall a | a in arcs :: IsArc(a) && x(a) >= 0.0
    ensures SumR(arcs, x) <= SumR(arcs, Lift(x, Rank))
  {
    forall k | 0 <= k < |arcs|
      ensures x(arcs[k]) <= Lift(x, Rank)(arcs[k])
    {
      var a := arcs[k];
      assert a in arcs;
      ArcsClimb(a);
      MulAtLeast(x(a), Rank(a.head) - Rank(a.tail));
    }
    SumRMono(arcs, x, Lift(x, Rank));
  }

  lemma MulAtLeast(p: real, q: real)
    requires p >= 0.0 && q >= 1.0
    ensures p <= p * q
  {
    assert p * q - p == p * (q - 1.0);
  }

  /** With non-negative flows, a day's rows bound the total flow on all
      arcs by three times the day's total: no journey uses more than three
      arcs (demand node, buffer, airport, sink). */
  lemma FlowBound(arcs: seq<Arc>, nodes: seq<Node>, x: Flow, m: Table, total: int)
    requires forall a :: a in arcs <==> IsArc(a)
    requires NoDup(nodes) && forall v :: v in nodes <==> IsNode(v)
    requires forall a | a in arcs :: x(a) >= 0.0
    requires Conserved(arcs, nodes, x, m, total)
    ensures SumR(arcs, x) <= 3.0 * (total as real)
  {
    EndpointsIn(arcs, nodes);
    WeightedCancellation(arcs, nodes, x, Rank);
    assert IsNode(Sink);
    RankedTotal(arcs, nodes, x, m, total);
    LiftDominates(arcs, x);
  }

  /** A day whose total is zero carries no flow on any arc. */
  lemma NoDemandNoFlow(arcs: seq<Arc>, nodes: seq<Node>, x: Flow, m: Table)
    requires forall a :: a in arcs <==> IsArc(a)
    requires NoDup(nodes) && forall v :: v in nodes <==> IsNode(v)
    requires forall a | a in arcs :: x(a) >= 0.0
    requires Conserved(arcs, nodes, x, m, 0)
    ensures forall a | a in arcs :: x(a) == 0.0
  {
    FlowBound(arcs, nodes, x, m, 0);
    assert forall k | 0 <= k < |arcs| :: arcs[k] in arcs;
    SumRNonNeg(arcs, x);
    SumRZeroNonNeg(arcs, x);
    forall a | a in arcs
      ensures x(a) == 0.0
    {
      var k :| 0 <= k < |arcs| && arcs[k] == a;
    }
  }
}
