/** The three scripts' integer programs, stated as predicates over an
    assignment: `X[arc, day]` passengers, `n[arc, day]` flights and
    `Z[city, day]` planes.  `draft_model.py` has the revenue objective and
    flow conservation; `playingaround.py` adds flights, a flat cost per
    flight, capacity and a profit guard; `Costs_added.py` prices each arc,
    pairs the layovers, keeps the capacity, reuses a profit guard and adds
    the plane ledger. */
module Assembly {
  import opened Wrappers
  import opened Strings
  import opened Sums
  import opened Network
  import opened Digraph
  import opened Demands
  import opened Flow
  import opened Costs
  import opened Fleet

  /** Which script's program. */
  datatype Script = Draft | Playground | Detailed

  /** `plane_capacity`, seats on a B767. */
  const PlaneCapacity: int := 211

  /** `FuelCost + LandingCost + DepartureCost` in `playingaround.py`. */
  const FlatCost: int := 1000 + 500 + 500

  /** `range(0, 5)`. */
  const Week: seq<nat> := [0, 1, 2, 3, 4]

  /** The built network: `arc_set` and `node_set` as typed lists. */
  ghost predicate Built(arcs: seq<Arc>, nodes: seq<Node>)
  {
    NoDup(arcs) && (forall a :: a in arcs <==> IsArc(a)) &&
    NoDup(nodes) && (forall v :: v in nodes <==> IsNode(v))
  }

  lemma BuildersBuild()
    ensures Built(BuildArcs(), BuildNodes())
  {
    ArcsDistinct();
    ArcsCharacterized();
    NodesCharacterized();
  }

  // ---------------------------------------------------------------------
  // Fares and costs

  /** `revenues_matrix[table_index[tail[0]]][table_index[head[0]]]`; the
      scripts never read a fare for an arc touching the sink, and the model
      gives those 0. */
  function FareOf(r: Table, a: Arc): int
  {
    if a.tail == Sink || a.head == Sink then 0
    else Entry(r, LeadCity(a.tail), LeadCity(a.head))
  }

  /** The fare lookup on an arc key, `None` where Python raises: a letter
      outside `table_index`, or a row or column past the table's end. */
  function KeyFare(r: Table, key: string): Option<int>
    requires Readable(key)
  {
    var d, v := CityOf(Departure(key)), CityOf(Arrival(key));
    if d.None? || v.None? then None
    else
      var i, j := TableIndex(d.value), TableIndex(v.value);
      if i < |r| && j < |r[i]| then Some(r[i][j]) else None
  }

  /** `cost` in `Costs_added.py`: fuel and landing per flight, AIF per
      passenger. */
  function ArcCost(a: Arc, x: real, n: int): real
  {
    ArcKeyReadable(a);
    var key := ArcName(a);
    FuelCost(key) * (n as real) + LandingFee(key) * (n as real) + (Aif(key) as real) * x
  }

  /** One arc's contribution `revenue - cost` to each script's objective. */
  function ArcProfit(s: Script, r: Table, a: Arc, x: real, n: int): real
  {
    var revenue := (FareOf(r, a) as real) * x;
    match s
    case Draft => revenue
    case Playground => revenue - ((FlatCost * n) as real)
    case Detailed => revenue - ArcCost(a, x, n)
  }

  /** The objective loop body: arcs whose head key starts with 't' add
      nothing. */
  function ProfitTerm(s: Script, r: Table, x: Flow, n: Flights): Arc -> real
  {
    (a: Arc) => if Lead(a.head) == 't' then 0.0 else ArcProfit(s, r, a, x(a), n(a))
  }

  function DayObjective(s: Script, r: Table, arcs: seq<Arc>, x: Flow, n: Flights): real
  {
    SumR(arcs, ProfitTerm(s, r, x, n))
  }

  function DayTerm(s: Script, r: Table, arcs: seq<Arc>, xs: nat -> Flow, ns: nat -> Flights): nat -> real
  {
    (d: nat) => DayObjective(s, r, arcs, xs(d), ns(d))
  }

  /** `obj_fn` after both loops. */
  function Objective(s: Script, r: Table, arcs: seq<Arc>, xs: nat -> Flow, ns: nat -> Flights): real
  {
    SumR(Week, DayTerm(s, r, arcs, xs, ns))
  }

  function FlatCostTerm(n: Flights): Arc -> real
  {
    (a: Arc) => if Lead(a.head) == 't' then 0.0 else (FlatCost * n(a)) as real
  }

  function CostTerm(x: Flow, n: Flights): Arc -> real
  {
    (a: Arc) => if Lead(a.head) == 't' then 0.0 else ArcCost(a, x(a), n(a))
  }

  // ---------------------------------------------------------------------
  // Constraints on one day

  /** Passenger and flight variables are bounded below by 0. */
  predicate NonNegative(arcs: seq<Arc>, x: Flow, n: Flights)
  {
    forall a | a in arcs :: x(a) >= 0.0 && n(a) >= 0
  }

  /** `X[arc] <= 211 * n[arc]` for every key without a lower-case 't'. */
  predicate Capacity(arcs: seq<Arc>, x: Flow, n: Flights)
  {
    forall a | a in arcs && 't' !in ArcName(a) :: x(a) <= (PlaneCapacity * n(a)) as real
  }

  /** The arcs the capacity and profit loops emit a row for. */
  function GuardedArcs(arcs: seq<Arc>): (g: seq<Arc>)
    ensures forall a :: a in g <==> a in arcs && 't' !in ArcName(a)
  {
    if |arcs| == 0 then []
    else (if 't' !in ArcName(arcs[0]) then [arcs[0]] else []) + GuardedArcs(arcs[1..])
  }

  /** `playingaround.py`'s guard: 2000 per flight is covered by the fare
      times passengers. */
  predicate FlatProfit(arcs: seq<Arc>, r: Table, x: Flow, n: Flights)
  {
    forall a | a in arcs && 't' !in ArcName(a) :: ((FlatCost * n(a)) as real) <= (FareOf(r, a) as real) * x(a)
  }

  /** The evidently intended guard of `Costs_added.py`: each arc's own
      fuel, landing and AIF cost is covered by its own fare revenue. */
  predicate PerArcProfit(arcs: seq<Arc>, r: Table, x: Flow, n: Flights)
  {
    forall a | a in arcs && 't' !in ArcName(a) :: ArcCost(a, x(a), n(a)) <= (FareOf(r, a) as real) * x(a)
  }

  /** The value the variable `cost` is left holding by the objective loop
      over `arcs` on its last day: the cost of the last arc whose head key
      does not start with 't'; `None` when no arc set it. */
  function LeftoverCost(arcs: seq<Arc>, x: Flow, n: Flights): Option<real>
  {
    if |arcs| == 0 then None
    else
      var last := arcs[|arcs| - 1];
      if Lead(last.head) != 't' then Some(ArcCost(last, x(last), n(last)))
      else LeftoverCost(arcs[..|arcs| - 1], x, n)
  }

  /** The guard as `Costs_added.py` writes it: every row multiplies the
      leftover `cost` of day 4's last arc by the row's own `n`. */
  predicate AsWrittenProfit(arcs: seq<Arc>, r: Table, xs: nat -> Flow, ns: nat -> Flights)
  {
    var leftover := LeftoverCost(arcs, xs(4), ns(4));
    leftover.Some? &&
    forall d, a | 0 <= d < 5 && a in arcs && 't' !in ArcName(a) ::
      leftover.value * (ns(d)(a) as real) <= (FareOf(r, a) as real) * xs(d)(a)
  }

  // ---------------------------------------------------------------------
  // Each script's program

  /** `draft_model.py`: non-negative passengers and conservation on each
      of the five days; fewer than five grouped days is an IndexError. */
  predicate DraftFeasible(arcs: seq<Arc>, nodes: seq<Node>, g: Grouping, xs: nat -> Flow)
  {
    |g.matrices| >= 5 && |g.totals| >= 5 &&
    forall d | 0 <= d < 5 ::
      (forall a | a in arcs :: xs(d)(a) >= 0.0) &&
      Conserved(arcs, nodes, xs(d), g.matrices[d], g.totals[d])
  }

  /** `playingaround.py`: the draft's rows plus flights, capacity and the
      flat profit guard. */
  predicate PlaygroundFeasible(arcs: seq<Arc>, nodes: seq<Node>, g: Grouping, r: Table, xs: nat -> Flow, ns: nat -> Flights)
  {
    DraftFeasible(arcs, nodes, g, xs) &&
    forall d | 0 <= d < 5 ::
      NonNegative(arcs, xs(d), ns(d)) && Capacity(arcs, xs(d), ns(d)) && FlatProfit(arcs, r, xs(d), ns(d))
  }

  /** The rows `Costs_added.py` adds to the draft other than its profit
      guard: layover pairing, capacity, and the plane ledger over
      non-negative `Z`. */
  predicate DetailedRows(arcs: seq<Arc>, nodes: seq<Node>, g: Grouping,
                         xs: nat -> Flow, ns: nat -> Flights, zs: nat -> Planes)
  {
    DraftFeasible(arcs, nodes, g, xs) &&
    (forall d | 0 <= d < 5 ::
      Layover(xs(d)) && NonNegative(arcs, xs(d), ns(d)) && Capacity(arcs, xs(d), ns(d))) &&
    Ledger(arcs, ns, zs) &&
    (forall d, c: City | 0 <= d <= 5 :: zs(d)(c) >= 0)
  }

  /** `Costs_added.py` as written: its rows and the leftover-cost guard. */
  predicate AsWrittenDetailedFeasible(arcs: seq<Arc>, nodes: seq<Node>, g: Grouping, r: Table,
                                      xs: nat -> Flow, ns: nat -> Flights, zs: nat -> Planes)
  {
    DetailedRows(arcs, nodes, g, xs, ns, zs) && AsWrittenProfit(arcs, r, xs, ns)
  }

  /** `Costs_added.py` with the per-arc guard it evidently intends. */
  predicate DetailedFeasible(arcs: seq<Arc>, nodes: seq<Node>, g: Grouping, r: Table,
                             xs: nat -> Flow, ns: nat -> Flights, zs: nat -> Planes)
  {
    DetailedRows(arcs, nodes, g, xs, ns, zs) &&
    forall d | 0 <= d < 5 :: PerArcProfit(arcs, r, xs(d), ns(d))
  }

  // ---------------------------------------------------------------------
  // Lemmas: fares

  /** The key lookup reads the typed fare for every arc that touches no
      sink, and fails for arcs into the sink. */
  lemma KeyFareMatches(r: Table, a: Arc)
    requires Square5(r)
    ensures Readable(ArcName(a))
    ensures a.tail != Sink && a.head != Sink ==> KeyFare(r, ArcName(a)) == Some(FareOf(r, a))
    ensures a.head == Sink ==> KeyFare(r, ArcName(a)) == None
  {
    ArcKeyReadable(a);
    LowerTMarksSink(a.head);
    if a.tail != Sink && a.head != Sink {
      var p, q := LeadCity(a.tail), LeadCity(a.head);
      assert CityOf(Letter(p)) == Some(p) && CityOf(Letter(q)) == Some(q);
    }
  }

  /** A buffer leg is priced at its key's letters: `VH-T*` earns the
      Vancouver-to-Toronto fare, and `T*-H` the Toronto-to-Halifax one. */
  lemma BufferLegFares(r: Table)
    requires Square5(r)
    ensures Readable("VH-T*") && KeyFare(r, "VH-T*") == Some(Entry(r, V, T))
    ensures Readable("T*-H") && KeyFare(r, "T*-H") == Some(Entry(r, T, H))
  {
    LayoverKeys();
    KeyFareMatches(r, Arc(OD(V, H), Buffer(T)));
    KeyFareMatches(r, Arc(Buffer(T), CityNode(H)));
  }

  // ---------------------------------------------------------------------
  // Lemmas: objectives

  /** Sink arcs contribute nothing: two assignments that agree on every
      arc not into the sink have the same objective, in every script. */
  lemma DayObjectiveIgnoresSinkArcs(s: Script, r: Table, arcs: seq<Arc>, x: Flow, n: Flights, x': Flow, n': Flights)
    requires forall a | a in arcs && a.head != Sink :: x(a) == x'(a) && n(a) == n'(a)
    ensures DayObjective(s, r, arcs, x, n) == DayObjective(s, r, arcs, x', n')
  {
    forall k | 0 <= k < |arcs|
      ensures ProfitTerm(s, r, x, n)(arcs[k]) == ProfitTerm(s, r, x', n')(arcs[k])
    {
      LowerTMarksSink(arcs[k].head);
    }
    SumRCongruent(arcs, ProfitTerm(s, r, x, n), ProfitTerm(s, r, x', n'));
  }

  lemma ObjectiveIgnoresSinkArcs(s: Script, r: Table, arcs: seq<Arc>, xs: nat -> Flow, ns: nat -> Flights,
                                 xs': nat -> Flow, ns': nat -> Flights)
    requires forall d, a | 0 <= d < 5 && a in arcs && a.head != Sink :: xs(d)(a) == xs'(d)(a) && ns(d)(a) == ns'(d)(a)
    ensures Objective(s, r, arcs, xs, ns) == Objective(s, r, arcs, xs', ns')
  {
    forall k | 0 <= k < |Week|
      ensures DayTerm(s, r, arcs, xs, ns)(Week[k]) == DayTerm(s, r, arcs, xs', ns')(Week[k])
    {
      DayObjectiveIgnoresSinkArcs(s, r, arcs, xs(Week[k]), ns(Week[k]), xs'(Week[k]), ns'(Week[k]));
    }
    SumRCongruent(Week, DayTerm(s, r, arcs, xs, ns), DayTerm(s, r, arcs, xs', ns'));
  }

  /** The three objectives share the revenue: the flat model subtracts
      2000 per flight and the detailed one each arc's own cost. */
  lemma ObjectivesShareRevenue(r: Table, arcs: seq<Arc>, x: Flow, n: Flights)
    ensures DayObjective(Playground, r, arcs, x, n) == DayObjective(Draft, r, arcs, x, n) - SumR(arcs, FlatCostTerm(n))
    ensures DayObjective(Detailed, r, arcs, x, n) == DayObjective(Draft, r, arcs, x, n) - SumR(arcs, CostTerm(x, n))
  {
    SumRAdd(arcs, ProfitTerm(Playground, r, x, n), FlatCostTerm(n), ProfitTerm(Draft, r, x, n));
    SumRAdd(arcs, ProfitTerm(Detailed, r, x, n), CostTerm(x, n), ProfitTerm(Draft, r, x, n));
  }

  /** Guarded arcs are exactly the arcs that pay into the objective. */
  lemma GuardTestMatchesObjectiveTest(a: Arc)
    requires a.tail != Sink
    ensures 't' !in ArcName(a) <==> Lead(a.head) != 't'
  {
    SinkArcTest(a);
    LowerTMarksSink(a.head);
  }

  /** Under the flat guard every flown arc pays for itself, so the day's
      objective is never negative. */
  lemma FlatProfitPays(r: Table, arcs: seq<Arc>, x: Flow, n: Flights)
    requires forall a | a in arcs :: a.tail != Sink
    requires FlatProfit(arcs, r, x, n)
    ensures DayObjective(Playground, r, arcs, x, n) >= 0.0
  {
    forall k | 0 <= k < |arcs|
      ensures ProfitTerm(Playground, r, x, n)(arcs[k]) >= 0.0
    {
      assert arcs[k] in arcs;
      GuardTestMatchesObjectiveTest(arcs[k]);
    }
    SumRNonNeg(arcs, ProfitTerm(Playground, r, x, n));
  }

  /** Under the per-arc guard the detailed objective is never negative. */
  lemma PerArcProfitPays(r: Table, arcs: seq<Arc>, x: Flow, n: Flights)
    requires forall a | a in arcs :: a.tail != Sink
    requires PerArcProfit(arcs, r, x, n)
    ensures DayObjective(Detailed, r, arcs, x, n) >= 0.0
  {
    forall k | 0 <= k < |arcs|
      ensures ProfitTerm(Detailed, r, x, n)(arcs[k]) >= 0.0
    {
      assert arcs[k] in arcs;
      GuardTestMatchesObjectiveTest(arcs[k]);
    }
    SumRNonNeg(arcs, ProfitTerm(Detailed, r, x, n));
  }

  // ---------------------------------------------------------------------
  // Lemmas: capacity and the flat guard

  lemma {:induction false} GuardedArcsAreFlights(arcs: seq<Arc>)
    requires forall a | a in arcs :: a.tail != Sink
    ensures GuardedArcs(arcs) == FlightArcs(arcs)
  {
    if |arcs| > 0 {
      assert arcs[0] in arcs;
      SinkArcTest(arcs[0]);
      assert forall a | a in arcs[1..] :: a in arcs;
      GuardedArcsAreFlights(arcs[1..]);
    }
  }

  /** The capacity and profit loops emit one row per day for each of the
      30 arcs not into the sink. */
  lemma GuardedArcCount()
    ensures |GuardedArcs(BuildArcs())| == 30
    ensures forall a :: a in GuardedArcs(BuildArcs()) <==> IsArc(a) && a.head != Sink
  {
    ArcsCharacterized();
    GuardedArcsAreFlights(BuildArcs());
    FlightArcCount();
  }

  /** Without a flight no passenger travels the arc, and a carried
      passenger needs at least one flight. */
  lemma NoFlightNoPassengers(arcs: seq<Arc>, x: Flow, n: Flights, a: Arc)
    requires Capacity(arcs, x, n)
    requires a in arcs && a.tail != Sink && a.head != Sink && x(a) >= 0.0
    ensures n(a) == 0 ==> x(a) == 0.0
    ensures x(a) > 0.0 ==> n(a) >= 1
  {
    SinkArcTest(a);
  }

  /** With capacity, the flat guard pins each arc between `2000 n / fare`
      and `211 n` passengers; a fare of 0 or less grounds the arc, and an
      arc flies only when 211 seats at its fare cover 2000. */
  lemma FlatGuardBounds(r: Table, arcs: seq<Arc>, x: Flow, n: Flights, a: Arc)
    requires Capacity(arcs, x, n) && FlatProfit(arcs, r, x, n)
    requires a in arcs && a.tail != Sink && a.head != Sink
    requires x(a) >= 0.0 && n(a) >= 0
    ensures ((FlatCost * n(a)) as real) <= (FareOf(r, a) as real) * x(a) <= ((FareOf(r, a) * PlaneCapacity * n(a)) as real)
    ensures FareOf(r, a) <= 0 ==> n(a) == 0 && x(a) == 0.0
    ensures n(a) > 0 ==> FareOf(r, a) * PlaneCapacity >= FlatCost
  {
    SinkArcTest(a);
    var fare, count := FareOf(r, a), n(a);
    assert 2000.0 * (count as real) <= (fare as real) * x(a);
    GuardArithmetic(fare as real, x(a), count as real);
    var seats := fare * PlaneCapacity;
    CastMul(fare, PlaneCapacity);
    CastMul(seats, count);
    assert (seats * count) as real == ((fare as real) * 211.0) * (count as real);
  }

  /** The flat guard's arithmetic on reals: `2000 n <= f x` and
      `x <= 211 n`. */
  lemma GuardArithmetic(f: real, xa: real, na: real)
    requires na >= 0.0 && xa >= 0.0
    requires 2000.0 * na <= f * xa && xa <= 211.0 * na
    ensures f * xa <= (f * 211.0) * na
    ensures f <= 0.0 ==> na == 0.0 && xa == 0.0
    ensures na > 0.0 ==> f * 211.0 >= 2000.0
  {
    MulAssoc(f, 211.0, na);
    if f <= 0.0 {
      MulMono(xa, f, 0.0);
    } else {
      MulMono(f, xa, 211.0 * na);
      if na > 0.0 {
        CancelPositive(2000.0, f * 211.0, na);
      }
    }
  }

  lemma CastMul(i: int, j: int)
    ensures (i * j) as real == (i as real) * (j as real)
  {
  }

  lemma MulMono(a: real, b: real, c: real)
    requires a >= 0.0 && b <= c
    ensures a * b <= a * c
  {
  }

  lemma MulAssoc(a: real, b: real, c: real)
    ensures a * (b * c) == (a * b) * c
  {
  }

  lemma CancelPositive(p: real, q: real, m: real)
    requires m > 0.0 && p * m <= q * m
    ensures p <= q
  {
    assert (q - p) * m >= 0.0;
  }

  // ---------------------------------------------------------------------
  // Lemmas: the profit guard of Costs_added.py as written

  /** The list ends with `HM-M`, `HM-t`. */
  predicate EndsWithHalifaxMontreal(arcs: seq<Arc>)
  {
    |arcs| >= 2 && arcs[|arcs| - 2] == Arc(OD(H, M), CityNode(M)) && arcs[|arcs| - 1] == Arc(OD(H, M), Sink)
  }

  lemma EndingConcat(a: seq<Arc>, b: seq<Arc>)
    requires EndsWithHalifaxMontreal(b)
    ensures EndsWithHalifaxMontreal(a + b)
  {
    assert (a + b)[|a + b| - 1] == b[|b| - 1];
    assert (a + b)[|a + b| - 2] == b[|b| - 2];
  }

  lemma {:induction false} PairsFromEnding(js: seq<City>)
    requires |js| >= 2 && js[|js| - 2] == M && js[|js| - 1] == H
    ensures EndsWithHalifaxMontreal(PairsFrom(H, js))
  {
    if |js| == 2 {
      assert js[1..] == [H];
      assert PairsFrom(H, js[1..]) == [];
      assert PairsFrom(H, js) == PairArcs(H, M) + [];
    } else {
      PairsFromEnding(js[1..]);
      EndingConcat(if H != js[0] then PairArcs(H, js[0]) else [], PairsFrom(H, js[1..]));
    }
  }

  lemma {:induction false} BlocksFromEnding(cs: seq<City>)
    requires |cs| >= 1 && cs[|cs| - 1] == H
    ensures EndsWithHalifaxMontreal(BlocksFrom(cs))
  {
    if |cs| == 1 {
      PairsFromEnding(Cities);
      EndingConcat([Arc(CityNode(H), Sink)], PairsFrom(H, Cities));
      assert cs == [H];
      assert BlocksFrom(cs) == CityBlock(H) + BlocksFrom([]);
      assert BlocksFrom(cs) == CityBlock(H);
    } else {
      BlocksFromEnding(cs[1..]);
      EndingConcat(CityBlock(cs[0]), BlocksFrom(cs[1..]));
    }
  }

  /** When the list ends with `HM-M`, `HM-t`, the objective loop leaves
      `cost` holding `HM-M`'s cost. */
  lemma LeftoverOfEnding(arcs: seq<Arc>, x: Flow, n: Flights)
    requires EndsWithHalifaxMontreal(arcs)
    ensures LeftoverCost(arcs, x, n) ==
      Some(ArcCost(Arc(OD(H, M), CityNode(M)), x(Arc(OD(H, M), CityNode(M))), n(Arc(OD(H, M), CityNode(M)))))
  {
    LowerTMarksSink(Sink);
    LowerTMarksSink(CityNode(M));
    var init := arcs[..|arcs| - 1];
    assert init[|init| - 1] == arcs[|arcs| - 2];
  }

  /** The objective's last costed arc is `HM-M` (the list ends `HM-M`,
      `HM-t`), so the leftover `cost` is that arc's cost on day 4. */
  lemma LeftoverIsHalifaxMontreal(x: Flow, n: Flights)
    ensures LeftoverCost(BuildArcs(), x, n) ==
      Some(ArcCost(Arc(OD(H, M), CityNode(M)), x(Arc(OD(H, M), CityNode(M))), n(Arc(OD(H, M), CityNode(M)))))
  {
    BlocksFromEnding(Cities);
    EndingConcat(BufferToHalifax, BlocksFrom(Cities));
    LeftoverOfEnding(BuildArcs(), x, n);
  }

  /** Every flight of the network costs something: fuel and landing per
      flight and the AIF per passenger are all positive. */
  lemma FlightCostsPositive(a: Arc)
    requires IsArc(a) && a.head != Sink
    ensures Readable(ArcName(a))
    ensures FuelCost(ArcName(a)) > 0.0 && LandingFee(ArcName(a)) > 0.0 && Aif(ArcName(a)) > 0
    ensures ArcCost(a, 0.0, 0) == 0.0 && ArcCost(a, 0.0, 1) > 0.0
  {
    FuelCostOnNetwork(a);
    LandingFeeOnNetwork(a);
    AifOnNetwork(a);
    FlightsHaveDistances(a);
    var p, q := LeadCity(a.tail), LeadCity(a.head);
    DistanceLookupMatches(p, q);
    var km := Km(p, q).value as real;
    assert km > 0.0 && Price(p) > 0.0;
    assert km * FuelPerKm > 0.0;
    assert km * FuelPerKm * Price(p) > 0.0;
    assert Landing(q) * MtowTonnes > 0.0;
  }

  /** No passengers anywhere. */
  function Idle(d: nat): Flow
  {
    (a: Arc) => 0.0
  }

  /** One empty flight on arc f every day, and nothing else. */
  function Lonely(f: Arc): nat -> Flights
  {
    (d: nat) => (a: Arc) => if a == f then 1 else 0
  }

  /** Without passengers an arc earns nothing; without flights it also
      costs nothing. */
  lemma NoPassengersProfit(r: Table, a: Arc)
    ensures ArcProfit(Detailed, r, a, 0.0, 0) == 0.0
    ensures ArcProfit(Detailed, r, a, 0.0, 1) == -ArcCost(a, 0.0, 1)
  {
    assert (FareOf(r, a) as real) * 0.0 == 0.0;
  }

  /** The lonely plan's objective terms: only the flown arc contributes,
      minus its cost. */
  lemma LonelyTerms(r: Table, arcs: seq<Arc>, f: Arc, d: nat)
    requires f.head != Sink
    ensures ProfitTerm(Detailed, r, Idle(d), Lonely(f)(d))(f) == -ArcCost(f, 0.0, 1)
    ensures forall k | 0 <= k < |arcs| && arcs[k] != f :: ProfitTerm(Detailed, r, Idle(d), Lonely(f)(d))(arcs[k]) == 0.0
  {
    var term, x, n := ProfitTerm(Detailed, r, Idle(d), Lonely(f)(d)), Idle(d), Lonely(f)(d);
    LowerTMarksSink(f.head);
    assert x(f) == 0.0 && n(f) == 1;
    NoPassengersProfit(r, f);
    assert term(f) == ArcProfit(Detailed, r, f, 0.0, 1);
    forall k | 0 <= k < |arcs| && arcs[k] != f
      ensures term(arcs[k]) == 0.0
    {
      var a := arcs[k];
      assert x(a) == 0.0 && n(a) == 0;
      NoPassengersProfit(r, a);
    }
  }

  /** An empty flight loses money and breaks the per-arc guard. */
  lemma LonelyFlightLoses(r: Table, arcs: seq<Arc>, f: Arc, d: nat)
    requires NoDup(arcs) && forall a :: a in arcs <==> IsArc(a)
    requires IsArc(f) && f.head != Sink
    ensures Capacity(arcs, Idle(d), Lonely(f)(d))
    ensures !PerArcProfit(arcs, r, Idle(d), Lonely(f)(d))
    ensures DayObjective(Detailed, r, arcs, Idle(d), Lonely(f)(d)) < 0.0
  {
    SinkArcTest(f);
    FlightCostsPositive(f);
    LonelyTerms(r, arcs, f, d);
    SumRSingle(arcs, ProfitTerm(Detailed, r, Idle(d), Lonely(f)(d)), f);
  }

  /** A 5 by 5 demand matrix of zeros. */
  function ZeroTable(): (m: Table)
    ensures Square5(m)
  {
    seq(5, _ => seq(5, _ => 0))
  }

  /** Five days without passengers, as the grouping reports them. */
  function Quiet(): Grouping
  {
    Grouping([ZeroTable(), ZeroTable(), ZeroTable(), ZeroTable(), ZeroTable()], [0, 0, 0, 0, 0])
  }

  /** Five planes at every city on day 0; each day the lonely flight moves
      one plane from its departure city to its arrival city. */
  function Parked(f: Arc): nat -> Planes
  {
    (d: nat) => (c: City) => 5 + (if InOf(f, c) then d else 0) - (if OutOf(f, c) then d else 0)
  }

  /** With no passengers and no demand, every conservation row reads 0 = 0. */
  lemma IdleConserved(arcs: seq<Arc>, nodes: seq<Node>, d: nat)
    ensures Conserved(arcs, nodes, Idle(d), ZeroTable(), 0)
  {
    forall v | v in nodes
      ensures Balance(arcs, Idle(d), v) == DayDemand(ZeroTable(), 0, v)
    {
      forall k | 0 <= k < |arcs|
        ensures Term(Idle(d), v)(arcs[k]) == 0.0
      {
      }
      SumRZero(arcs, Term(Idle(d), v));
    }
  }

  /** The lonely flight is the only departure (arrival) the ledger counts. */
  lemma LonelyCounts(arcs: seq<Arc>, f: Arc, d: nat, c: City)
    requires NoDup(arcs) && f in arcs
    ensures Out(arcs, Lonely(f)(d), c) == if OutOf(f, c) then 1 else 0
    ensures In(arcs, Lonely(f)(d), c) == if InOf(f, c) then 1 else 0
  {
    SumISingle(arcs, OutTerm(Lonely(f)(d), c), f);
    SumISingle(arcs, InTerm(Lonely(f)(d), c), f);
  }

  /** The parked planes satisfy every ledger row and stay non-negative. */
  lemma ParkedLedger(arcs: seq<Arc>, f: Arc)
    requires NoDup(arcs) && f in arcs
    ensures Ledger(arcs, Lonely(f), Parked(f))
    ensures forall d, c: City | 0 <= d <= 5 :: Parked(f)(d)(c) >= 0
  {
    forall d | 0 <= d < Days
      ensures LedgerDay(arcs, Lonely(f)(d), Parked(f)(d), Parked(f)(d + 1))
    {
      forall c: City
        ensures Parked(f)(d)(c) >= Out(arcs, Lonely(f)(d), c)
        ensures Parked(f)(d + 1)(c) == Parked(f)(d)(c) + In(arcs, Lonely(f)(d), c) - Out(arcs, Lonely(f)(d), c)
      {
        LonelyCounts(arcs, f, d, c);
      }
    }
  }

  lemma WeekSum(g: nat -> real)
    ensures SumR(Week, g) == g(0) + g(1) + g(2) + g(3) + g(4)
  {
  }

  /** The guard as written lets a losing plan through, on any listing of
      the network that ends with `HM-M`, `HM-t`: with one empty flight a
      day on an arc other than `HM-M`, the leftover `cost` is `HM-M`'s on
      day 4, which is 0, so every guard row reads `0 <= fare * 0`. */
  lemma AsWrittenAdmitsLosingPlan(r: Table, arcs: seq<Arc>, nodes: seq<Node>, f: Arc)
    requires Built(arcs, nodes) && EndsWithHalifaxMontreal(arcs)
    requires IsArc(f) && f.head != Sink && f != Arc(OD(H, M), CityNode(M))
    ensures AsWrittenDetailedFeasible(arcs, nodes, Quiet(), r, Idle, Lonely(f), Parked(f))
    ensures !DetailedFeasible(arcs, nodes, Quiet(), r, Idle, Lonely(f), Parked(f))
    ensures Objective(Detailed, r, arcs, Idle, Lonely(f)) < 0.0
  {
    QuietDraft(arcs, nodes);
    LonelyRows(r, arcs, nodes, f);
    LonelyPassesAsWritten(r, arcs, f);
    LonelyLosesWeek(r, arcs, f);
  }

  lemma QuietDraft(arcs: seq<Arc>, nodes: seq<Node>)
    ensures DraftFeasible(arcs, nodes, Quiet(), Idle)
  {
    var g := Quiet();
    forall d | 0 <= d < 5
      ensures (forall a | a in arcs :: Idle(d)(a) >= 0.0) && Conserved(arcs, nodes, Idle(d), g.matrices[d], g.totals[d])
    {
      assert g.matrices[d] == ZeroTable() && g.totals[d] == 0;
      IdleConserved(arcs, nodes, d);
    }
  }

  lemma LonelyRows(r: Table, arcs: seq<Arc>, nodes: seq<Node>, f: Arc)
    requires NoDup(arcs) && forall a :: a in arcs <==> IsArc(a)
    requires DraftFeasible(arcs, nodes, Quiet(), Idle)
    requires IsArc(f) && f.head != Sink
    ensures DetailedRows(arcs, nodes, Quiet(), Idle, Lonely(f), Parked(f))
  {
    forall d | 0 <= d < 5
      ensures Layover(Idle(d)) && NonNegative(arcs, Idle(d), Lonely(f)(d)) && Capacity(arcs, Idle(d), Lonely(f)(d))
    {
      LonelyFlightLoses(r, arcs, f, d);
    }
    ParkedLedger(arcs, f);
  }

  lemma LonelyPassesAsWritten(r: Table, arcs: seq<Arc>, f: Arc)
    requires EndsWithHalifaxMontreal(arcs) && f != Arc(OD(H, M), CityNode(M))
    ensures AsWrittenProfit(arcs, r, Idle, Lonely(f))
  {
    var hm := Arc(OD(H, M), CityNode(M));
    LeftoverOfEnding(arcs, Idle(4), Lonely(f)(4));
    assert IsArc(hm);
    FlightCostsPositive(hm);
    assert LeftoverCost(arcs, Idle(4), Lonely(f)(4)) == Some(0.0);
  }

  lemma LonelyLosesWeek(r: Table, arcs: seq<Arc>, f: Arc)
    requires NoDup(arcs) && forall a :: a in arcs <==> IsArc(a)
    requires IsArc(f) && f.head != Sink
    ensures forall d | 0 <= d < 5 :: !PerArcProfit(arcs, r, Idle(d), Lonely(f)(d))
    ensures Objective(Detailed, r, arcs, Idle, Lonely(f)) < 0.0
  {
    forall d | 0 <= d < 5
      ensures !PerArcProfit(arcs, r, Idle(d), Lonely(f)(d))
      ensures DayObjective(Detailed, r, arcs, Idle(d), Lonely(f)(d)) < 0.0
    {
      LonelyFlightLoses(r, arcs, f, d);
    }
    WeekSum(DayTerm(Detailed, r, arcs, Idle, Lonely(f)));
  }

  /** `arc_set` ends with `HM-M`, `HM-t`. */
  lemma BuiltEnding()
    ensures EndsWithHalifaxMontreal(BuildArcs())
  {
    BlocksFromEnding(Cities);
    EndingConcat(BufferToHalifax, BlocksFrom(Cities));
  }

  /** On the scripts' own network: one empty flight a day on any arc but
      `HM-M`, with five planes per city and no passengers, meets every row
      `Costs_added.py` writes, yet fails the per-arc guard and makes the
      objective negative. */
  lemma AsWrittenGuardAdmitsLoss(r: Table, f: Arc)
    requires IsArc(f) && f.head != Sink && f != Arc(OD(H, M), CityNode(M))
    ensures AsWrittenDetailedFeasible(BuildArcs(), BuildNodes(), Quiet(), r, Idle, Lonely(f), Parked(f))
    ensures !DetailedFeasible(BuildArcs(), BuildNodes(), Quiet(), r, Idle, Lonely(f), Parked(f))
    ensures Objective(Detailed, r, BuildArcs(), Idle, Lonely(f)) < 0.0
  {
    BuildersBuild();
    BuiltEnding();
    AsWrittenAdmitsLosingPlan(r, BuildArcs(), BuildNodes(), f);
  }

  // ---------------------------------------------------------------------
  // Lemmas: each script's program

  /** Every arc of the network has its key in `arc_set`, and the key reads
      back as the arc. */
  lemma KeyListedAndParses(a: Arc)
    requires IsArc(a)
    ensures ArcName(a) in ArcKeys()
    ensures ParseArc(ArcName(a)) == Some(a)
  {
    ArcNameParses(a);
    ArcListed(a);
    KeyOfListed(BuildArcs(), a);
  }

  /** `draft_model.py` reads `X["VW-W", 1]` after solving: that key is in
      `arc_set` (appended when i = V, j = W) and day 1 is modelled. */
  lemma DraftReadsExistingKey()
    ensures "VW-W" in ArcKeys()
    ensures ParseArc("VW-W") == Some(Arc(OD(V, W), CityNode(W)))
    ensures 1 in Week
  {
    VancouverWinnipegKey();
    KeyListedAndParses(Arc(OD(V, W), CityNode(W)));
  }

  lemma VancouverWinnipegKey()
    ensures ArcName(Arc(OD(V, W), CityNode(W))) == "VW-W"
  {
  }

  /** In a feasible draft plan each pair's passengers leave its demand
      node exactly as the day's matrix asks. */
  lemma DraftServesDemand(arcs: seq<Arc>, nodes: seq<Node>, g: Grouping, xs: nat -> Flow, d: nat, i: City, j: City)
    requires Built(arcs, nodes)
    requires DraftFeasible(arcs, nodes, g, xs)
    requires d < 5 && i != j
    ensures SumR(ODOut(i, j), xs(d)) == Entry(g.matrices[d], i, j) as real
  {
    ODOutflow(arcs, nodes, xs(d), g.matrices[d], g.totals[d], i, j);
  }

  /** A feasible draft plan needs each day's total to equal the day's
      off-diagonal demand. */
  lemma DraftNeedsBalancedDays(arcs: seq<Arc>, nodes: seq<Node>, g: Grouping, xs: nat -> Flow, d: nat)
    requires Built(arcs, nodes)
    requires DraftFeasible(arcs, nodes, g, xs)
    requires d < 5
    ensures SumR(nodes, DayDemands(g.matrices[d], g.totals[d])) == 0.0
  {
    ArcsCharacterized();
    EndpointsIn(arcs, nodes);
    ConservedNeedsZeroSum(arcs, nodes, xs(d), g.matrices[d], g.totals[d]);
  }

  /** Any feasible plan of `playingaround.py` earns a non-negative
      objective. */
  lemma PlaygroundPays(arcs: seq<Arc>, nodes: seq<Node>, g: Grouping, r: Table, xs: nat -> Flow, ns: nat -> Flights)
    requires Built(arcs, nodes)
    requires PlaygroundFeasible(arcs, nodes, g, r, xs, ns)
    ensures Objective(Playground, r, arcs, xs, ns) >= 0.0
  {
    forall k | 0 <= k < |Week|
      ensures DayTerm(Playground, r, arcs, xs, ns)(Week[k]) >= 0.0
    {
      FlatProfitPays(r, arcs, xs(Week[k]), ns(Week[k]));
    }
    SumRNonNeg(Week, DayTerm(Playground, r, arcs, xs, ns));
  }

  /** Any plan meeting the rows of `Costs_added.py` (under either guard)
      keeps both hub buffers balanced and the same number of planes on
      every day. */
  lemma DetailedKeepsBuffersAndFleet(arcs: seq<Arc>, nodes: seq<Node>, g: Grouping,
                                     xs: nat -> Flow, ns: nat -> Flights, zs: nat -> Planes)
    requires Built(arcs, nodes)
    requires DetailedRows(arcs, nodes, g, xs, ns, zs)
    ensures forall d | 0 <= d < 5 :: BuffersConserved(arcs, xs(d))
    ensures forall d | 0 <= d <= 5 :: FleetSize(zs(d)) == FleetSize(zs(0))
  {
    forall d | 0 <= d < 5
      ensures BuffersConserved(arcs, xs(d))
    {
      LayoverConservesBuffers(arcs, xs(d));
    }
    FleetConserved(arcs, ns, zs);
  }

  /** With the per-arc guard, any feasible plan of `Costs_added.py` earns
      a non-negative objective; the guard as written does not promise
      this (see `AsWrittenGuardAdmitsLoss`). */
  lemma DetailedPays(arcs: seq<Arc>, nodes: seq<Node>, g: Grouping, r: Table,
                     xs: nat -> Flow, ns: nat -> Flights, zs: nat -> Planes)
    requires Built(arcs, nodes)
    requires DetailedFeasible(arcs, nodes, g, r, xs, ns, zs)
    ensures Objective(Detailed, r, arcs, xs, ns) >= 0.0
  {
    forall k | 0 <= k < |Week|
      ensures DayTerm(Detailed, r, arcs, xs, ns)(Week[k]) >= 0.0
    {
      PerArcProfitPays(r, arcs, xs(Week[k]), ns(Week[k]));
    }
    SumRNonNeg(Week, DayTerm(Detailed, r, arcs, xs, ns));
  }

  // ---------------------------------------------------------------------
  // The sink keeps every program feasible

  /** The first five grouped days, each a 5 by 5 table carrying the total
      the grouping loop computes for it. */
  predicate FiveGroupedDays(g: Grouping)
  {
    |g.matrices| >= 5 && |g.totals| >= 5 &&
    forall d | 0 <= d < 5 ::
      |g.matrices[d]| == 5 && (forall r | 0 <= r < 5 :: |g.matrices[d][r]| == 5) &&
      g.totals[d] == TableSum(g.matrices[d])
  }

  /** A day the network can serve: nobody travels from a city to itself,
      and no demand between two cities is negative. */
  predicate Servable(m: Table)
  {
    Diagonal(m) == 0.0 && forall i: City, j: City | i != j :: Entry(m, i, j) >= 0
  }

  /** Every day's passengers go straight to the sink. */
  function Discharges(g: Grouping): nat -> Flow
  {
    (d: nat) => if d < |g.matrices| then Discharge(g.matrices[d]) else Idle(d)
  }

  /** No flights, and no planes anywhere. */
  function Grounded(d: nat): Flights
  {
    (a: Arc) => 0
  }

  function Hangar(d: nat): Planes
  {
    (c: City) => 0
  }

  /** A servable day is met, with non-negative flows, by discharging every
      demand to the sink. */
  lemma ServableDayDischarges(arcs: seq<Arc>, nodes: seq<Node>, m: Table)
    requires Built(arcs, nodes)
    requires |m| == 5 && forall r | 0 <= r < 5 :: |m[r]| == 5
    requires Servable(m)
    ensures Conserved(arcs, nodes, Discharge(m), m, TableSum(m))
    ensures forall a | a in arcs :: Discharge(m)(a) >= 0.0
  {
    ZeroDiagonalSuffices(arcs, nodes, m);
    forall a | a in arcs
      ensures Discharge(m)(a) >= 0.0
    {
      assert IsArc(a);
      if a.tail.OD? {
        assert Entry(m, a.tail.orig, a.tail.dest) >= 0;
      }
    }
  }

  /** A day some non-negative flow meets is servable. */
  lemma FeasibleDayServable(arcs: seq<Arc>, nodes: seq<Node>, x: Flow, m: Table)
    requires Built(arcs, nodes)
    requires |m| == 5 && forall r | 0 <= r < 5 :: |m[r]| == 5
    requires forall a | a in arcs :: x(a) >= 0.0
    requires Conserved(arcs, nodes, x, m, TableSum(m))
    ensures Servable(m)
  {
    EndpointsIn(arcs, nodes);
    ConservedNeedsZeroSum(arcs, nodes, x, m, TableSum(m));
    NodeDemandTotalAny(nodes, m, TableSum(m));
    TableSumSplits(m);
    forall i: City, j: City | i != j
      ensures Entry(m, i, j) >= 0
    {
      ODOutflow(arcs, nodes, x, m, TableSum(m), i, j);
      ODArcsExactIn(arcs, i, j);
      forall k | 0 <= k < |ODOut(i, j)|
        ensures x(ODOut(i, j)[k]) >= 0.0
      {
        assert ODOut(i, j)[k] in ODOut(i, j);
      }
      SumRNonNeg(ODOut(i, j), x);
    }
  }

  /** `draft_model.py` has a plan for five grouped days exactly when every
      one of them is servable; the plan discharging all demand to the sink
      is one. */
  lemma DraftFeasibleIff(arcs: seq<Arc>, nodes: seq<Node>, g: Grouping)
    requires Built(arcs, nodes)
    requires FiveGroupedDays(g)
    ensures (forall d | 0 <= d < 5 :: Servable(g.matrices[d])) ==> DraftFeasible(arcs, nodes, g, Discharges(g))
    ensures (exists xs: nat -> Flow :: DraftFeasible(arcs, nodes, g, xs)) <==>
      forall d | 0 <= d < 5 :: Servable(g.matrices[d])
  {
    if forall d | 0 <= d < 5 :: Servable(g.matrices[d]) {
      forall d | 0 <= d < 5
        ensures (forall a | a in arcs :: Discharges(g)(d)(a) >= 0.0) &&
          Conserved(arcs, nodes, Discharges(g)(d), g.matrices[d], g.totals[d])
      {
        ServableDayDischarges(arcs, nodes, g.matrices[d]);
      }
      assert DraftFeasible(arcs, nodes, g, Discharges(g));
    }
    if xs: nat -> Flow :| DraftFeasible(arcs, nodes, g, xs) {
      forall d | 0 <= d < 5
        ensures Servable(g.matrices[d])
      {
        FeasibleDayServable(arcs, nodes, xs(d), g.matrices[d]);
      }
    }
  }

  /** An arc nobody flies and nobody rides costs nothing. */
  lemma IdleArcCost(a: Arc)
    ensures ArcCost(a, 0.0, 0) == 0.0
  {
  }

  /** An arc nobody flies or rides meets both profit guards at any fare. */
  lemma IdleArcGuards(a: Arc, r: Table, x: real, n: int)
    requires x == 0.0 && n == 0
    ensures ((FlatCost * n) as real) <= (FareOf(r, a) as real) * x
    ensures ArcCost(a, x, n) <= (FareOf(r, a) as real) * x
  {
    var f := FareOf(r, a) as real;
    assert f * x == 0.0;
    IdleArcCost(a);
  }

  /** A guarded arc of a grounded plan carries nobody when only sink arcs
      carry passengers, so its capacity row and both guards hold. */
  lemma GroundedArc(a: Arc, r: Table, x: Flow, n: Flights)
    requires IsArc(a) && 't' !in ArcName(a)
    requires n(a) == 0 && (a.head != Sink ==> x(a) == 0.0)
    ensures x(a) <= (PlaneCapacity * n(a)) as real
    ensures ((FlatCost * n(a)) as real) <= (FareOf(r, a) as real) * x(a)
    ensures ArcCost(a, x(a), n(a)) <= (FareOf(r, a) as real) * x(a)
  {
    SinkArcTest(a);
    IdleArcGuards(a, r, x(a), n(a));
  }

  /** Grounding every plane and discharging every passenger meets the
      flight rows of both other scripts: capacity, the flat guard and the
      per-arc guard. */
  lemma GroundedRows(arcs: seq<Arc>, r: Table, x: Flow)
    requires forall a | a in arcs :: IsArc(a) && x(a) >= 0.0
    requires forall a | a in arcs && a.head != Sink :: x(a) == 0.0
    ensures NonNegative(arcs, x, Grounded(0)) && Capacity(arcs, x, Grounded(0))
    ensures FlatProfit(arcs, r, x, Grounded(0)) && PerArcProfit(arcs, r, x, Grounded(0))
  {
    forall a | a in arcs && 't' !in ArcName(a)
      ensures x(a) <= (PlaneCapacity * Grounded(0)(a)) as real
      ensures ((FlatCost * Grounded(0)(a)) as real) <= (FareOf(r, a) as real) * x(a)
      ensures ArcCost(a, x(a), Grounded(0)(a)) <= (FareOf(r, a) as real) * x(a)
    {
      GroundedArc(a, r, x, Grounded(0));
    }
  }

  /** With no flights anywhere, an empty fleet balances every day. */
  lemma HangarLedger(arcs: seq<Arc>)
    ensures Ledger(arcs, Grounded, Hangar)
  {
    forall d, c: City | 0 <= d < Days
      ensures Out(arcs, Grounded(d), c) == 0 && In(arcs, Grounded(d), c) == 0
    {
      SumIZero(arcs, OutTerm(Grounded(d), c));
      SumIZero(arcs, InTerm(Grounded(d), c));
    }
  }

  /** A servable day's discharge meets every row of both other scripts that
      concerns one day. */
  lemma DischargeDayRows(arcs: seq<Arc>, nodes: seq<Node>, m: Table, r: Table)
    requires Built(arcs, nodes)
    requires |m| == 5 && forall r | 0 <= r < 5 :: |m[r]| == 5
    requires Servable(m)
    ensures Layover(Discharge(m))
    ensures NonNegative(arcs, Discharge(m), Grounded(0)) && Capacity(arcs, Discharge(m), Grounded(0))
    ensures FlatProfit(arcs, r, Discharge(m), Grounded(0)) && PerArcProfit(arcs, r, Discharge(m), Grounded(0))
  {
    ServableDayDischarges(arcs, nodes, m);
    GroundedRows(arcs, r, Discharge(m));
  }

  /** The day rows for each of the five grouped days. */
  lemma DischargeWeekRows(arcs: seq<Arc>, nodes: seq<Node>, g: Grouping, r: Table)
    requires Built(arcs, nodes)
    requires FiveGroupedDays(g)
    requires forall d | 0 <= d < 5 :: Servable(g.matrices[d])
    ensures forall d | 0 <= d < 5 ::
      Layover(Discharges(g)(d)) &&
      NonNegative(arcs, Discharges(g)(d), Grounded(d)) && Capacity(arcs, Discharges(g)(d), Grounded(d)) &&
      FlatProfit(arcs, r, Discharges(g)(d), Grounded(d)) && PerArcProfit(arcs, r, Discharges(g)(d), Grounded(d))
  {
    forall d | 0 <= d < 5
      ensures Layover(Discharges(g)(d))
      ensures NonNegative(arcs, Discharges(g)(d), Grounded(d)) && Capacity(arcs, Discharges(g)(d), Grounded(d))
      ensures FlatProfit(arcs, r, Discharges(g)(d), Grounded(d)) && PerArcProfit(arcs, r, Discharges(g)(d), Grounded(d))
    {
      DischargeDayRows(arcs, nodes, g.matrices[d], r);
      assert Discharges(g)(d) == Discharge(g.matrices[d]);
      assert Grounded(d) == Grounded(0);
    }
  }

  /** Whatever the fares, the sink keeps every script's program feasible
      on servable days: the discharge plan flies nothing, so capacity
      never binds. */
  lemma SinkKeepsFeasible(arcs: seq<Arc>, nodes: seq<Node>, g: Grouping, r: Table)
    requires Built(arcs, nodes)
    requires FiveGroupedDays(g)
    requires forall d | 0 <= d < 5 :: Servable(g.matrices[d])
    ensures DraftFeasible(arcs, nodes, g, Discharges(g))
    ensures PlaygroundFeasible(arcs, nodes, g, r, Discharges(g), Grounded)
    ensures DetailedFeasible(arcs, nodes, g, r, Discharges(g), Grounded, Hangar)
  {
    DraftFeasibleIff(arcs, nodes, g);
    DischargeWeekRows(arcs, nodes, g, r);
    HangarLedger(arcs);
    assert DetailedRows(arcs, nodes, g, Discharges(g), Grounded, Hangar);
  }

  /** The Findings instance: one empty `VW-W` flight a day. */
  lemma EmptyVancouverWinnipegFlight(r: Table)
    ensures AsWrittenDetailedFeasible(BuildArcs(), BuildNodes(), Quiet(), r, Idle, Lonely(Arc(OD(V, W), CityNode(W))),
                                      Parked(Arc(OD(V, W), CityNode(W))))
    ensures Objective(Detailed, r, BuildArcs(), Idle, Lonely(Arc(OD(V, W), CityNode(W)))) < 0.0
  {
    AsWrittenGuardAdmitsLoss(r, Arc(OD(V, W), CityNode(W)));
  }
}
