/** The per-arc cost helpers of the detailed model: fuel for a flight,
    landing fee at the destination, airport improvement fee at the
    departure.  Each reads the arc key's first letter and the first letter
    after the '-', and looks them up in small constant tables. */
module Costs {
  import opened Wrappers
  import opened Strings
  import opened Network
  import opened Digraph

  /** `airports`. */
  const Airports: seq<char> := ['M', 'T', 'W', 'V', 'H']

  /** `distances`, in km, keyed by an ordered pair of city letters; eight
      of the ten unordered pairs are present (not H-W, not H-V). */
  function DistanceEntry(p: char, q: char): Option<int>
  {
    if p == 'H' && q == 'M' then Some(804)
    else if p == 'H' && q == 'T' then Some(1288)
    else if p == 'M' && q == 'T' then Some(507)
    else if p == 'M' && q == 'W' then Some(1818)
    else if p == 'M' && q == 'V' then Some(3682)
    else if p == 'T' && q == 'W' then Some(1504)
    else if p == 'T' && q == 'V' then Some(3345)
    else if p == 'W' && q == 'V' then Some(1864)
    else None
  }

  /** `fuel_prices`, per unit of fuel, by departure letter. */
  function FuelPrice(c: char): Option<real>
  {
    if c == 'H' then Some(1.28)
    else if c == 'M' then Some(1.17)
    else if c == 'T' then Some(1.29)
    else if c == 'W' then Some(1.19)
    else if c == 'V' then Some(1.30)
    else None
  }

  /** `city_map`, shared by the landing-fee and AIF helpers. */
  function CityName(c: char): Option<string>
  {
    if c == 'H' then Some("Halifax")
    else if c == 'M' then Some("Montreal")
    else if c == 'T' then Some("Toronto")
    else if c == 'W' then Some("Winnipeg")
    else if c == 'V' then Some("Vancouver")
    else None
  }

  /** `landing_fees`, per tonne. */
  function LandingRate(name: string): Option<real>
  {
    if name == "Halifax" then Some(11.29)
    else if name == "Montreal" then Some(11.64)
    else if name == "Toronto" then Some(18.97)
    else if name == "Winnipeg" then Some(7.50)
    else if name == "Vancouver" then Some(7.98)
    else None
  }

  /** `aif_rates`, per passenger. */
  function AifRate(name: string): Option<int>
  {
    if name == "Halifax" then Some(28)
    else if name == "Montreal" then Some(35)
    else if name == "Toronto" then Some(30)
    else if name == "Winnipeg" then Some(25)
    else if name == "Vancouver" then Some(25)
    else None
  }

  /** Python's `d.get(key, default)`. */
  function GetOr<X>(o: Option<X>, default: X): X
  {
    if o.Some? then o.value else default
  }

  const FuelPerKm: real := 2.86
  const MtowTonnes: real := 70.535

  /** The arc keys the helpers can read: a first character, and a first
      character after the first '-'. */
  predicate Readable(arc: string)
  {
    |arc| > 0 && |Split(arc, '-')| >= 2 && |Split(arc, '-')[1]| > 0
  }

  /** `arc[0]`. */
  function Departure(arc: string): char
    requires Readable(arc)
  {
    arc[0]
  }

  /** `arc.split("-")[1][0]`. */
  function Arrival(arc: string): char
    requires Readable(arc)
  {
    Split(arc, '-')[1][0]
  }

  /** `distances.get((d, a), 0) or distances.get((a, d), 0)`: Python's `or`
      falls through to the reversed key when the first lookup gives 0. */
  function DistanceLookup(d: char, a: char): int
  {
    var forward := GetOr(DistanceEntry(d, a), 0);
    if forward != 0 then forward else GetOr(DistanceEntry(a, d), 0)
  }

  /** `calculate_fuel_cost`: zero for the sink, for '*' letters and (with a
      warning) for unknown letters; otherwise distance times 2.86 times the
      departure's fuel price. */
  function FuelCost(arc: string): real
    requires Readable(arc)
  {
    var d, a := Departure(arc), Arrival(arc);
    if d == 't' || a == 't' || '*' in [d] || '*' in [a] then 0.0
    else if d !in Airports || a !in Airports then 0.0
    else (DistanceLookup(d, a) as real) * FuelPerKm * FuelPrice(d).value
  }

  /** `get_landing_fee`: the destination's rate times 70.535 tonnes, 0 when
      the letter names no city. */
  function LandingFee(arc: string): real
    requires Readable(arc)
  {
    GetOr(LandingRate(GetOr(CityName(Arrival(arc)), "")), 0.0) * MtowTonnes
  }

  /** `get_aif`: the departure's per-passenger fee, 0 when the letter names
      no city. */
  function Aif(arc: string): int
    requires Readable(arc)
  {
    GetOr(AifRate(GetOr(CityName(Departure(arc)), "")), 0)
  }

  // ---------------------------------------------------------------------
  // Reference tables on typed cities

  /** The distance table on typed cities, symmetric, one entry per unordered pair the
      network flies; `None` for the pairs it never flies direct. */
  function Km(p: City, q: City): Option<int>
  {
    match (p, q)
    case (H, M) => Some(804)  case (M, H) => Some(804)
    case (H, T) => Some(1288) case (T, H) => Some(1288)
    case (M, T) => Some(507)  case (T, M) => Some(507)
    case (M, W) => Some(1818) case (W, M) => Some(1818)
    case (M, V) => Some(3682) case (V, M) => Some(3682)
    case (T, W) => Some(1504) case (W, T) => Some(1504)
    case (T, V) => Some(3345) case (V, T) => Some(3345)
    case (W, V) => Some(1864) case (V, W) => Some(1864)
    case _ => None
  }

  function Price(c: City): real
  {
    match c
    case H => 1.28
    case M => 1.17
    case T => 1.29
    case W => 1.19
    case V => 1.30
  }

  function Landing(c: City): real
  {
    match c
    case H => 11.29
    case M => 11.64
    case T => 18.97
    case W => 7.50
    case V => 7.98
  }

  function AifOf(c: City): int
  {
    match c
    case H => 28
    case M => 35
    case T => 30
    case W => 25
    case V => 25
  }

  /** The airports a flight joins: the first letters of its two keys. */
  predicate IsFlight(a: Arc)
  {
    !a.tail.Sink? && !a.head.Sink?
  }

  /** Every flight of the network joins two cities the distance table
      knows, in one orientation or the other. */
  predicate Flown(a: Arc)
    requires IsFlight(a)
  {
    Km(LeadCity(a.tail), LeadCity(a.head)).Some?
  }

  // ---------------------------------------------------------------------
  // Lemmas

  lemma LetterIsAirport(c: City)
    ensures Letter(c) in Airports
    ensures Letter(c) != 't' && Letter(c) != '*'
    ensures CityName(Letter(c)).Some?
  {
  }

  lemma ArcKeyReadable(a: Arc)
    ensures Readable(ArcName(a))
    ensures Departure(ArcName(a)) == Lead(a.tail) && Arrival(ArcName(a)) == Lead(a.head)
  {
    SplitArcName(a);
  }

  /** The '*' test in `calculate_fuel_cost` never fires: both letters it
      reads are plain city letters or the sink's 't', so a buffer leg such
      as `T*-H` is costed exactly as the key `T-H` would be. */
  lemma StarTestDead(a: Arc)
    ensures Readable(ArcName(a))
    ensures '*' !in [Departure(ArcName(a))] && '*' !in [Arrival(ArcName(a))]
    ensures a.tail.Buffer? ==> (Readable(ArcName(Arc(CityNode(a.tail.hub), a.head))) &&
      FuelCost(ArcName(a)) == FuelCost(ArcName(Arc(CityNode(a.tail.hub), a.head))))
  {
    ArcKeyReadable(a);
    if a.tail.Buffer? {
      ArcKeyReadable(Arc(CityNode(a.tail.hub), a.head));
    }
  }

  /** The dictionary lookup with its reversed-key fallback agrees with the
      symmetric table, and finds nothing exactly where the table has no
      entry. */
  lemma DistanceLookupMatches(p: City, q: City)
    ensures DistanceLookup(Letter(p), Letter(q)) == GetOr(Km(p, q), 0)
    ensures Km(p, q).Some? ==> Km(p, q).value > 0
  {
  }

  /** Every flight arc of the network (sink discharges excluded) joins a
      pair the distance table holds, so the 0 default is never used. */
  lemma FlightsHaveDistances(a: Arc)
    requires IsArc(a) && a.head != Sink
    ensures IsFlight(a) && Flown(a)
    ensures DistanceLookup(Lead(a.tail), Lead(a.head)) > 0
  {
    DistanceLookupMatches(LeadCity(a.tail), LeadCity(a.head));
  }

  /** Fuel is charged exactly on the arcs that do not end at the sink, at
      distance times 2.86 times the departure airport's price. */
  lemma FuelCostOnNetwork(a: Arc)
    requires IsArc(a)
    ensures Readable(ArcName(a))
    ensures a.head == Sink ==> FuelCost(ArcName(a)) == 0.0
    ensures a.head != Sink ==>
      FuelCost(ArcName(a)) ==
        (Km(LeadCity(a.tail), LeadCity(a.head)).value as real) * FuelPerKm * Price(LeadCity(a.tail))
    ensures FuelCost(ArcName(a)) == 0.0 <==> a.head == Sink
  {
    ArcKeyReadable(a);
    LowerTMarksSink(a.head);
    LowerTMarksSink(a.tail);
    if a.head != Sink {
      FlightsHaveDistances(a);
      var p, q := LeadCity(a.tail), LeadCity(a.head);
      LetterIsAirport(p);
      LetterIsAirport(q);
      DistanceLookupMatches(p, q);
      assert FuelPrice(Letter(p)) == Some(Price(p));
    }
  }

  /** The landing fee is zero exactly for arcs into the sink, and otherwise
      the destination's rate times 70.535 tonnes. */
  lemma LandingFeeOnNetwork(a: Arc)
    ensures Readable(ArcName(a))
    ensures a.head == Sink ==> LandingFee(ArcName(a)) == 0.0
    ensures a.head != Sink ==> LandingFee(ArcName(a)) == Landing(LeadCity(a.head)) * MtowTonnes
    ensures LandingFee(ArcName(a)) == 0.0 <==> a.head == Sink
  {
    ArcKeyReadable(a);
    LowerTMarksSink(a.head);
    if a.head != Sink {
      var q := LeadCity(a.head);
      assert LandingRate(CityName(Letter(q)).value) == Some(Landing(q));
    }
  }

  /** The AIF is the departure airport's fee, positive on every arc that
      leaves a node other than the sink. */
  lemma AifOnNetwork(a: Arc)
    requires a.tail != Sink
    ensures Readable(ArcName(a))
    ensures Aif(ArcName(a)) == AifOf(LeadCity(a.tail)) > 0
  {
    ArcKeyReadable(a);
    var p := LeadCity(a.tail);
    assert AifRate(CityName(Letter(p)).value) == Some(AifOf(p));
  }
}
