/** The plane ledger of the detailed model: for each city and day, the
    planes on the ground must cover the day's departures, and tomorrow's
    planes are today's plus arrivals less departures. */
module Fleet {
  import opened Strings
  import opened Sums
  import opened Network
  import opened Digraph

  /** One day's flight counts `n[arc, day]`. */
  type Flights = Arc -> int

  /** One day's plane counts `Z[c, day]`. */
  type Planes = City -> int

  /** Days 0..4 carry flights; the ledger runs over `Z` for days 0..5. */
  const Days: nat := 5

  // ---------------------------------------------------------------------
  // Which arcs the ledger counts

  /** The ledger's filter `'*' not in depart and 't' not in arrive`. */
  predicate Counted(a: Arc)
  {
    !a.tail.Buffer? && a.head != Sink
  }

  /** The arc's flights leave city c: the `if depart[0] == c` branch. */
  predicate OutOf(a: Arc, c: City)
  {
    Counted(a) && Lead(a.tail) == Letter(c)
  }

  /** The arc's flights land at city c: the `elif arrive[0] == c` branch. */
  predicate InOf(a: Arc, c: City)
  {
    Counted(a) && Lead(a.tail) != Letter(c) && Lead(a.head) == Letter(c)
  }

  /** Arc keys the ledger can read: two sides, both non-empty. */
  predicate LedgerReadable(arc: string)
  {
    var parts := Split(arc, '-');
    |parts| >= 2 && |parts[0]| > 0 && |parts[1]| > 0
  }

  /** The ledger loop body on one key and city letter: whether `n[arc]`
      joins `out_flights`, and whether it joins `in_flights`. */
  function KeyContribution(arc: string, c: char): (bool, bool)
    requires LedgerReadable(arc)
  {
    var parts := Split(arc, '-');
    var depart, arrive := parts[0], parts[1];
    if '*' !in depart && 't' !in arrive then
      if depart[0] == c then (true, false)
      else if arrive[0] == c then (false, true)
      else (false, false)
    else (false, false)
  }

  /** On arc keys, the string tests pick out exactly the typed arcs. */
  lemma KeyContributionMatches(a: Arc, c: City)
    ensures LedgerReadable(ArcName(a))
    ensures KeyContribution(ArcName(a), Letter(c)) == (OutOf(a, c), InOf(a, c))
  {
    SplitArcName(a);
    StarMarksBuffer(a.tail);
    LowerTMarksSink(a.head);
  }

  function OutTerm(n: Flights, c: City): Arc -> int
  {
    a => if OutOf(a, c) then n(a) else 0
  }

  function InTerm(n: Flights, c: City): Arc -> int
  {
    a => if InOf(a, c) then n(a) else 0
  }

  /** `out_flights` for city c. */
  function Out(arcs: seq<Arc>, n: Flights, c: City): int
  {
    SumI(arcs, OutTerm(n, c))
  }

  /** `in_flights` for city c. */
  function In(arcs: seq<Arc>, n: Flights, c: City): int
  {
    SumI(arcs, InTerm(n, c))
  }

  /** The two ledger rows for every city on one day. */
  predicate LedgerDay(arcs: seq<Arc>, n: Flights, z: Planes, z': Planes)
  {
    forall c: City :: z(c) >= Out(arcs, n, c) && z'(c) == z(c) + In(arcs, n, c) - Out(arcs, n, c)
  }

  /** The ledger over days 0..4, linking `Z` on days 0..5. */
  predicate Ledger(arcs: seq<Arc>, n: nat -> Flights, z: nat -> Planes)
  {
    forall d | 0 <= d < Days :: LedgerDay(arcs, n(d), z(d), z(d + 1))
  }

  /** Planes across all five cities. */
  function FleetSize(z: Planes): int
  {
    SumI(Cities, z)
  }

  // ---------------------------------------------------------------------
  // Lemmas

  /** A counted arc of the network joins two different cities, so its
      flights leave one city and land at another. */
  lemma CountedJoinsTwoCities(a: Arc)
    requires IsArc(a) && Counted(a)
    ensures a.tail != Sink && a.head != Sink
    ensures LeadCity(a.tail) != LeadCity(a.head)
    ensures forall c: City :: OutOf(a, c) <==> c == LeadCity(a.tail)
    ensures forall c: City :: InOf(a, c) <==> c == LeadCity(a.head)
  {
  }

  /** Flights out of a buffer are counted nowhere: changing them leaves
      every city's departures and arrivals as they were. */
  lemma BufferLegsUncounted(arcs: seq<Arc>, n: Flights, n': Flights, c: City)
    requires forall a | a in arcs && !a.tail.Buffer? :: n(a) == n'(a)
    ensures Out(arcs, n, c) == Out(arcs, n', c) && In(arcs, n, c) == In(arcs, n', c)
  {
    assert forall k | 0 <= k < |arcs| :: arcs[k] in arcs;
    SumICongruent(arcs, OutTerm(n, c), OutTerm(n', c));
    SumICongruent(arcs, InTerm(n, c), InTerm(n', c));
  }

  function Counts(n: Flights): Arc -> int
  {
    a => if Counted(a) then n(a) else 0
  }

  function Nothing(c: City): int { 0 }

  function Outs(arcs: seq<Arc>, n: Flights): City -> int
  {
    c => Out(arcs, n, c)
  }

  function Ins(arcs: seq<Arc>, n: Flights): City -> int
  {
    c => In(arcs, n, c)
  }

  /** One arc's departure (arrival) term, as a function of the city. */
  function OutAt(n: Flights, a: Arc): City -> int
  {
    c => OutTerm(n, c)(a)
  }

  function InAt(n: Flights, a: Arc): City -> int
  {
    c => InTerm(n, c)(a)
  }

  lemma OneArcTerms(a: Arc, n: Flights, c: City)
    ensures OutAt(n, a)(c) == if OutOf(a, c) then n(a) else 0
    ensures InAt(n, a)(c) == if InOf(a, c) then n(a) else 0
  {
    assert OutAt(n, a)(c) == OutTerm(n, c)(a);
    assert InAt(n, a)(c) == InTerm(n, c)(a);
  }

  lemma OneArcCounted(a: Arc, n: Flights)
    requires IsArc(a)
    ensures SumI(Cities, OutAt(n, a)) == Counts(n)(a)
    ensures SumI(Cities, InAt(n, a)) == Counts(n)(a)
  {
    CitiesDistinct();
    forall c: City
      ensures OutAt(n, a)(c) == if OutOf(a, c) then n(a) else 0
      ensures InAt(n, a)(c) == if InOf(a, c) then n(a) else 0
    {
      OneArcTerms(a, n, c);
    }
    if Counted(a) {
      CountedJoinsTwoCities(a);
      var p, q := LeadCity(a.tail), LeadCity(a.head);
      CityListed(p);
      CityListed(q);
      SumISingle(Cities, OutAt(n, a), p);
      SumISingle(Cities, InAt(n, a), q);
    } else {
      SumIZero(Cities, OutAt(n, a));
      SumIZero(Cities, InAt(n, a));
    }
  }

  /** Over all cities, departures and arrivals each count every counted
      flight exactly once. */
  lemma {:induction false} EachFlightCountedOnce(arcs: seq<Arc>, n: Flights)
    requires forall a | a in arcs :: IsArc(a)
    ensures SumI(Cities, Outs(arcs, n)) == SumI(arcs, Counts(n))
    ensures SumI(Cities, Ins(arcs, n)) == SumI(arcs, Counts(n))
  {
    if |arcs| == 0 {
      SumIZero(Cities, Outs(arcs, n));
      SumIZero(Cities, Ins(arcs, n));
    } else {
      var a, rest := arcs[0], arcs[1..];
      assert forall b | b in rest :: b in arcs;
      EachFlightCountedOnce(rest, n);
      assert a in arcs;
      OneArcCounted(a, n);
      SumIAddSub(Cities, OutAt(n, a), Outs(rest, n), Nothing, Outs(arcs, n));
      SumIAddSub(Cities, InAt(n, a), Ins(rest, n), Nothing, Ins(arcs, n));
      SumIZero(Cities, Nothing);
    }
  }

  /** Over all cities, a day's arrivals equal its departures. */
  lemma ArrivalsMatchDepartures(arcs: seq<Arc>, n: Flights)
    requires forall a | a in arcs :: IsArc(a)
    ensures SumI(Cities, Ins(arcs, n)) == SumI(Cities, Outs(arcs, n))
  {
    EachFlightCountedOnce(arcs, n);
  }

  /** One day of the ledger leaves the fleet size unchanged. */
  lemma LedgerDayKeepsFleet(arcs: seq<Arc>, n: Flights, z: Planes, z': Planes)
    requires forall a | a in arcs :: IsArc(a)
    requires LedgerDay(arcs, n, z, z')
    ensures FleetSize(z') == FleetSize(z)
  {
    ArrivalsMatchDepartures(arcs, n);
    SumIAddSub(Cities, z, Ins(arcs, n), Outs(arcs, n), z');
  }

  lemma {:induction false} FleetSizeFrom(arcs: seq<Arc>, n: nat -> Flights, z: nat -> Planes, d: nat)
    requires forall a | a in arcs :: IsArc(a)
    requires Ledger(arcs, n, z)
    requires d <= Days
    ensures FleetSize(z(d)) == FleetSize(z(0))
  {
    if d > 0 {
      FleetSizeFrom(arcs, n, z, d - 1);
      LedgerDayKeepsFleet(arcs, n(d - 1), z(d - 1), z(d));
    }
  }

  /** The ledger keeps the total number of planes the same on every day
      0..5. */
  lemma FleetConserved(arcs: seq<Arc>, n: nat -> Flights, z: nat -> Planes)
    requires forall a | a in arcs :: IsArc(a)
    requires Ledger(arcs, n, z)
    ensures forall d | 0 <= d <= Days :: FleetSize(z(d)) == FleetSize(z(0))
  {
    forall d | 0 <= d <= Days
      ensures FleetSize(z(d)) == FleetSize(z(0))
    {
      FleetSizeFrom(arcs, n, z, d);
    }
  }

  /** Covering departures leaves each city at least its arrivals the next
      day, and arrivals are never negative when flight counts are not. */
  lemma PlanesCoverArrivals(arcs: seq<Arc>, n: nat -> Flights, z: nat -> Planes, d: nat, c: City)
    requires Ledger(arcs, n, z) && d < Days
    requires forall a | a in arcs :: n(d)(a) >= 0
    ensures z(d + 1)(c) >= In(arcs, n(d), c) >= 0
  {
    assert LedgerDay(arcs, n(d), z(d), z(d + 1));
    assert forall k | 0 <= k < |arcs| :: arcs[k] in arcs;
    SumINonNeg(arcs, InTerm(n(d), c));
  }
}
