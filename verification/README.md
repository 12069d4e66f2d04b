# Airline routing programs, modelled in Dafny

The repository holds three near-identical Python scripts. Each builds a daily passenger-routing
integer program over five Canadian airports and hands it to Gurobi. The airports are
Vancouver `V`, Winnipeg `W`, Toronto `T`, Montreal `M` and Halifax `H`.

- `draft_model.py` maximises fare revenue subject to flow conservation.
- `playingaround.py` adds flight counts `n`, a flat cost of 2000 per flight, seat capacity (211
  per flight) and a per-arc profit guard.
- `Costs_added.py` prices each arc by fuel, landing fee and airport improvement fee (AIF). It
  pairs layovers at the hub buffers, keeps capacity, writes a profit guard and adds a plane
  ledger `Z`.

This project models everything the scripts do before calling the solver, as pure functions
and predicates:

- the arc and node builders (`arc_set`, `node_set`);
- the demand-file grouping at `end` lines, and the revenue table reading;
- the string tests the scripts apply to arc keys;
- the three cost helpers;
- every constraint family and objective, as predicates over an assignment
  `X[arc, day]`, `n[arc, day]`, `Z[city, day]`.

The model proves structural facts about the builders' output and about any assignment that
satisfies the rows. It also characterises when the rows can be met. A five-day grouping has a
feasible draft plan exactly when, on every day, the demands from a city to itself sum to 0 and
no demand between two cities is negative. The plan that sends every passenger straight down its `ij-t` arc to the
sink, with no flights, then meets all three scripts' rows. Nothing is solved.

Modules, one per file:

- `Wrappers` (`wrappers.dfy`): `Option` and `Result`.
- `Sums` (`sums.dfy`): sums over sequences and their algebra.
- `Strings` (`strings.dfy`): Python's `str.split` on one separator, and its inverse `Join`.
- `Network` (`network.dfy`): cities, nodes, arcs, and their key strings (`"VH-T*"`, `"t"`,
  `"HM"`), with parsing back.
- `Digraph` (`digraph.dfy`):
  - the builder loops, as `BuildArcs` and `BuildNodes`;
  - an independent routing rule, `IsArc` and `IsNode`, that they are proved to meet.
- `Demands` (`demands.dfy`): table reading and the day-grouping loop (`GroupDays`).
- `Flow` (`flow.dfy`): node net demand, flow conservation, layover pairing and the
  consequences of each.
- `Costs` (`costs.dfy`): `calculate_fuel_cost`, `get_landing_fee` and `get_aif`, over the
  scripts' tables.
- `Fleet` (`fleet.dfy`): the plane ledger.
- `Assembly` (`assembly.dfy`): fares, the three objectives, capacity, both profit guards, each
  script's full program, and the profit-guard finding.

Arcs and nodes are typed (`Arc(tail, head)`), and the scripts' string keys are `ArcName` and
`NodeName`. The lemmas of `Network` show that each string test the scripts apply is the same
as the corresponding typed test:

- `arc.split("-")`;
- `v == arc.split("-")[0]`;
- `'t' not in arc`;
- `'*' not in depart`.

A fact proved on typed arcs is therefore a fact about the scripts' dictionaries.

## Model

| member | source | states |
|---|---|---|
| Network.CityOf | Costs_added.py:106 | reading a letter as a city is the inverse of the city's letter, and fails on any other character |
| Network.NodeNameParses | Costs_added.py:164-168 | every node key reads back as its node |
| Network.ParseNodeExact | Costs_added.py:164-168 | the node reader accepts only node keys |
| Network.NodeNameInjective | Costs_added.py:164-168 | two nodes have the same key exactly when they are the same node |
| Network.SplitArcName | Costs_added.py:189-190 | `arc.split("-")` on an arc key yields exactly the tail key and the head key |
| Network.OneDashPerArcName | Costs_added.py:140-162 | every arc key contains exactly one `-` |
| Network.ArcNameParses | Costs_added.py:140-162 | every arc key reads back, by splitting on `-`, as its arc |
| Network.ParseArcExact | Costs_added.py:217-219 | the split-based reader accepts only arc keys |
| Network.ArcNameInjective | Costs_added.py:178-179 | two arcs have the same key exactly when they are the same arc, so `X` and `n` keyed by string are keyed by arc |
| Network.EndpointTests | Costs_added.py:216-220 | `v == arc.split("-")[0]` holds exactly when v is the tail; the split has two parts, and `[1]` matches exactly the head |
| Network.LowerTMarksSink | Costs_added.py:192 | a node key starts with, or contains, lower-case `t` exactly when the node is the sink |
| Network.StarMarksBuffer | Costs_added.py:264 | a node key contains `*` exactly when the node is a hub buffer |
| Network.SinkArcTest | Costs_added.py:238 | for arcs not leaving the sink, `'t' not in arc` holds exactly when the head is not the sink |
| Digraph.BuildArcs | Costs_added.py:137-162 | `arc_set` has 55 arcs |
| Digraph.CityBlockLength | Costs_added.py:140-162 | one pass of the outer loop appends 15 arcs for Halifax, 9 for Toronto or Montreal, 10 for Vancouver or Winnipeg |
| Digraph.BuiltArcsAreArcs | Costs_added.py:137-162 | every arc the builder appends is an arc of the routing rule |
| Digraph.ArcListed | Costs_added.py:140-162 | every arc the routing rule calls for is appended by the builder loop |
| Digraph.ArcsCharacterized | Costs_added.py:137-162 | `arc_set` holds exactly the arcs of the routing rule (airport to sink; pair to sink and direct, or through both hub buffers for Halifax to or from V, W; buffer to Halifax, V and W) |
| Digraph.ArcsDistinct | Costs_added.py:137-162 | no arc is appended twice |
| Digraph.BuildNodes | Costs_added.py:164-168 | `node_set` has 28 nodes |
| Digraph.NodesCharacterized | Costs_added.py:164-168 | `node_set` is duplicate-free and holds exactly the five airports, `T*`, `M*`, `t` and the 20 ordered pairs of distinct cities |
| Digraph.EndpointsAreNodes | Costs_added.py:137-168 | every arc joins two different members of `node_set` |
| Digraph.KeysOfIn | Costs_added.py:137-168 | for any duplicate-free arc and node lists with closed endpoints, the key lists are duplicate-free, and each arc key has one `-` and two sides that are node keys |
| Digraph.ArcKeysWellFormed | Costs_added.py:137-168 | `arc_set` is 55 distinct strings, each with one `-`, and both sides of each are among `node_set`'s 28 distinct strings; `playingaround.py` and `draft_model.py` build the same lists |
| Digraph.ODArcsExactIn | Costs_added.py:143-162 | on any listing of the network, no arc enters a pair node, and pair (i, j) leaves by exactly `ij-j`, `ij-t`, or by `ij-T*`, `ij-M*`, `ij-t` for the hub-transit pairs |
| Digraph.ODArcsExact | Costs_added.py:143-162 | the same on `arc_set` itself |
| Digraph.FlightArcs | Costs_added.py:236-238 | filtering keeps exactly the listed arcs whose head is not the sink |
| Digraph.FlightArcCount | Costs_added.py:236-242 | 30 of the 55 arcs are flights; the other 25 discharge into the sink |
| Demands.ParseCells | Costs_added.py:130 | a row parses exactly when every cell parses, cell by cell |
| Demands.ReadTable | Costs_added.py:126-130 | the revenue table reads exactly when every line parses, one row per line, in order |
| Demands.EndMarker | Costs_added.py:116 | the split-based marker test accepts exactly the lines `end` and `end\n` |
| Demands.Pieces | Costs_added.py:114-124 | cutting at markers gives one more piece than there are markers |
| Demands.PiecesMarkerFree | Costs_added.py:116-124 | no piece contains a marker line |
| Demands.PiecesCoverData | Costs_added.py:114-124 | the pieces, laid end to end, are the data lines in order: none lost, none reordered |
| Demands.TrailingRowsDropped | Costs_added.py:114-124 | rows after the last `end` never become a day |
| Demands.GroupedEnd | Costs_added.py:116-120 | a marker closes the open day, appending its matrix and its running total |
| Demands.GroupedRow | Costs_added.py:121-124 | a data row joins the open day and adds its sum to the running total |
| Demands.ReadAllSpec | Costs_added.py:114-124 | the loop succeeds exactly when every data line parses; it then holds one matrix and one total per closed day; otherwise it stops at the first bad line |
| Demands.GroupDays | Costs_added.py:114-124 | as many matrices and totals as `end` lines; day k's matrix is the k-th closed segment; its total is the sum of all its entries, diagonal included; a non-integer row is reported at its index; the loops of the other two scripts are the same |
| Flow.TableIndex | Costs_added.py:106 | every city has a row and column below 5 |
| Flow.TableIndexInjective | Costs_added.py:106 | different cities have different table indices |
| Flow.KeyIncMatches | Costs_added.py:216-220 | the string coefficient (-1 at the split's first part, else +1 at its second) is the typed one: -1 at the tail, +1 at the head, 0 elsewhere |
| Flow.KeyDemandMatches | Costs_added.py:205-213 | the key classification gives the day total at `t`, 0 at airports and buffers, and minus the day's demand at pair `ij` |
| Flow.WeightedCancellation | Costs_added.py:215-220 | weighting each node's row by w and summing gives each arc's flow times w(head) - w(tail) |
| Flow.GlobalCancellation | Costs_added.py:203-222 | the left-hand sides of all conservation rows sum to 0 |
| Flow.ConservedNeedsZeroSum | Costs_added.py:203-222 | a day can satisfy its rows only if its right-hand sides sum to 0 |
| Flow.NodeDemandTotal | Costs_added.py:205-213 | over `node_set` the right-hand sides sum to the day's total minus every off-diagonal demand |
| Flow.DayTotalIsOffDiagonal | Costs_added.py:203-222 | a satisfiable day has a total equal to the sum of its off-diagonal demands |
| Flow.TableSumSplits | Costs_added.py:123 | a 5 by 5 day's sum is its diagonal plus its off-diagonal part |
| Flow.DiagonalMustVanish | Costs_added.py:119 | with the total the grouping computes, a satisfiable day has diagonal demands summing to 0 |
| Flow.DischargeOutflow | Costs_added.py:143-162 | sending each pair's passengers down its `ij-t` arc puts exactly the day's demand from i to j on the pair node's outgoing arcs |
| Flow.DischargeRow | Costs_added.py:203-222 | that plan meets the row of every node other than `t`: pair nodes lose their demand, airports and buffers carry nothing |
| Flow.SinkRowFollows | Costs_added.py:205-206 | once every other row holds and the right-hand sides sum to 0, the sink's row holds too |
| Flow.NodeDemandTotalAny | Costs_added.py:205-213 | over any duplicate-free listing of the nodes the right-hand sides sum to the day's total minus every off-diagonal demand |
| Flow.DischargeConserved | Costs_added.py:203-222 | when the day's total equals its off-diagonal demand, discharging to the sink meets every conservation row |
| Flow.ZeroDiagonalSuffices | Costs_added.py:119-123 | a 5 by 5 day whose diagonal sums to 0, with the total the grouping computes, is met by the discharge plan |
| Flow.DayFeasibleIff | Costs_added.py:203-222 | a 5 by 5 day with the grouping's total has a solution of its rows exactly when its diagonal sums to 0 |
| Flow.ODOutflow | Costs_added.py:210-222 | pair node (i, j)'s row forces its outgoing arcs to carry exactly the day's demand from i to j |
| Flow.BufferArcsShape | Costs_added.py:149-161 | buffer h* touches exactly seven arcs: four legs in, three legs out |
| Flow.BufferTerms | Costs_added.py:216-220 | in h*'s row the four legs into the buffer count +1 and the three legs out count -1 |
| Flow.BufferBalance | Costs_added.py:215-220 | buffer h*'s row is its inflow less its outflow over those seven arcs |
| Flow.LayoverKeys | Costs_added.py:226-231 | the fourteen keys the layover rows read name the buffer legs |
| Flow.LayoverConservesBuffers | Costs_added.py:225-231 | the six layover equalities imply conservation at `T*` and `M*` |
| Flow.LayoverStrictlyStronger | Costs_added.py:225-231 | conservation at the buffers does not imply the layover equalities: a Halifax-to-Vancouver passenger can leave `T*` for Winnipeg |
| Flow.ArcsClimb | Costs_added.py:140-162 | every arc climbs the ranking pair, buffer, airport, sink by at least one step |
| Flow.FlowBound | Costs_added.py:203-222 | with non-negative flows, the total flow on all arcs is at most three times the day's total |
| Flow.NoDemandNoFlow | Costs_added.py:203-222 | a day whose total is 0 carries no flow anywhere |
| Costs.LetterIsAirport | Costs_added.py:6 | every city letter is in `airports`, is neither `t` nor `*`, and is in the city map |
| Costs.ArcKeyReadable | Costs_added.py:52-53 | every arc key can be read by the helpers, and they read the tail's and head's first letters |
| Costs.StarTestDead | Costs_added.py:56 | the `*` test never fires, so `T*-H` is costed exactly as `T-H` would be |
| Costs.DistanceLookupMatches | Costs_added.py:65 | the lookup with its reversed-key fallback agrees with the symmetric distance table |
| Costs.FlightsHaveDistances | Costs_added.py:9-18 | every flight of the network joins a pair the distance table holds, so the 0 default is never used |
| Costs.FuelCostOnNetwork | Costs_added.py:48-68 | fuel is 0 exactly on arcs into the sink, and otherwise distance times 2.86 times the departure's price |
| Costs.LandingFeeOnNetwork | Costs_added.py:71-79 | the landing fee is 0 exactly on arcs into the sink, and otherwise the destination's rate times 70.535 |
| Costs.AifOnNetwork | Costs_added.py:82-89 | the AIF is the departure airport's positive fee |
| Fleet.KeyContributionMatches | Costs_added.py:261-268 | the ledger's string tests send `n` to the departure city's `out` or the arrival city's `in` exactly as the typed tests do |
| Fleet.CountedJoinsTwoCities | Costs_added.py:264-268 | a counted arc leaves one city and lands at a different one |
| Fleet.BufferLegsUncounted | Costs_added.py:264 | flights out of a buffer change no city's departures or arrivals |
| Fleet.OneArcCounted | Costs_added.py:261-268 | over all cities, one arc's flights are counted once as departures and once as arrivals, or not at all |
| Fleet.EachFlightCountedOnce | Costs_added.py:257-268 | summed over cities, departures and arrivals each equal the counted flights |
| Fleet.ArrivalsMatchDepartures | Costs_added.py:257-268 | over all cities a day's arrivals equal its departures |
| Fleet.LedgerDayKeepsFleet | Costs_added.py:270-271 | one day of the ledger keeps the total number of planes |
| Fleet.FleetConserved | Costs_added.py:256-271 | the total number of planes is the same on days 0 to 5 |
| Fleet.PlanesCoverArrivals | Costs_added.py:270-271 | covering departures leaves each city at least its arrivals the next day, and arrivals are non-negative |
| Assembly.BuildersBuild | Costs_added.py:137-168 | the builders produce a duplicate-free listing of exactly the network's arcs and nodes |
| Assembly.KeyFareMatches | Costs_added.py:189-193 | the fare read from the key's letters is the typed fare on every arc that touches no sink, and fails on arcs into the sink |
| Assembly.BufferLegFares | playingaround.py:106-110 | `VH-T*` earns the Vancouver-to-Toronto fare and `T*-H` the Toronto-to-Halifax fare |
| Assembly.DayObjectiveIgnoresSinkArcs | draft_model.py:91-97 | two assignments that agree on every arc not into the sink have the same day objective |
| Assembly.ObjectiveIgnoresSinkArcs | Costs_added.py:186-198 | the same over the five days, in every script |
| Assembly.ObjectivesShareRevenue | playingaround.py:103-113 | the flat objective is the draft's revenue less 2000 per flight; the detailed one is the revenue less each arc's own cost |
| Assembly.GuardTestMatchesObjectiveTest | playingaround.py:154 | the guard's `'t' not in arc` picks exactly the arcs whose head does not start with `t` |
| Assembly.GuardedArcs | Costs_added.py:236-238 | the guarded arcs are exactly the listed arcs whose key has no `t` |
| Assembly.GuardedArcsAreFlights | Costs_added.py:236-238 | on arcs not leaving the sink, the guarded arcs are the flights |
| Assembly.GuardedArcCount | Costs_added.py:236-242 | capacity emits one row per day for each of the 30 flights |
| Assembly.NoFlightNoPassengers | Costs_added.py:236-242 | with capacity, n = 0 forces X = 0, and X > 0 needs n >= 1 |
| Assembly.FlatGuardBounds | playingaround.py:143-160 | with capacity, the flat guard pins fare times X between 2000 n and 211 fare n; a fare <= 0 grounds the arc; an arc flies only if 211 seats cover 2000 |
| Assembly.FlatProfitPays | playingaround.py:152-160 | under the flat guard, a day's flat objective is non-negative |
| Assembly.PlaygroundPays | playingaround.py:103-160 | every feasible plan of `playingaround.py` has a non-negative objective |
| Assembly.KeyListedAndParses | Costs_added.py:178-179 | every arc of the network has its key in `arc_set`, and that key reads back as the arc |
| Assembly.DraftReadsExistingKey | draft_model.py:133 | `VW-W` is a key of `arc_set` naming the direct Vancouver-Winnipeg leg, and day 1 exists |
| Assembly.DraftServesDemand | draft_model.py:103-122 | in a feasible draft plan each pair's passengers leave its node exactly as the day's matrix asks |
| Assembly.DraftNeedsBalancedDays | draft_model.py:103-122 | a feasible draft plan has right-hand sides summing to 0 on each day |
| Assembly.DetailedKeepsBuffersAndFleet | Costs_added.py:225-271 | any plan meeting the rows of `Costs_added.py` keeps both buffers balanced and the number of planes constant |
| Assembly.LeftoverOfEnding | Costs_added.py:187-197 | when the list ends `HM-M`, `HM-t`, the objective loop leaves `cost` holding `HM-M`'s cost |
| Assembly.BuiltEnding | Costs_added.py:155-162 | `arc_set` ends with `HM-M`, `HM-t` |
| Assembly.LeftoverIsHalifaxMontreal | Costs_added.py:186-197 | the leftover `cost` is `HM-M`'s cost on the last day |
| Assembly.FlightCostsPositive | Costs_added.py:194-197 | every flight's fuel, landing fee and AIF are positive: no flight or passenger costs nothing, and one flight costs more than nothing |
| Assembly.NoPassengersProfit | Costs_added.py:193-198 | without passengers an arc earns nothing, and one flight's contribution is minus its cost |
| Assembly.LonelyFlightLoses | Costs_added.py:186-198 | one empty flight meets capacity but breaks the per-arc guard, and makes the day's objective negative |
| Assembly.ParkedLedger | Costs_added.py:256-271 | five planes per city, moved by that flight each day, satisfy every ledger row and stay non-negative |
| Assembly.IdleConserved | Costs_added.py:203-222 | with no passengers and a zero demand matrix every conservation row holds |
| Assembly.LonelyPassesAsWritten | Costs_added.py:244-253 | the guard as written admits that flight on every day |
| Assembly.AsWrittenAdmitsLosingPlan | Costs_added.py:244-253 | on any listing ending `HM-M`, `HM-t`, the plan meets every row as written, fails the per-arc guard and has a negative objective |
| Assembly.AsWrittenGuardAdmitsLoss | Costs_added.py:244-253 | the same on `arc_set` and `node_set`, for every flight other than `HM-M` |
| Assembly.EmptyVancouverWinnipegFlight | Costs_added.py:244-253 | one empty `VW-W` flight a day is feasible as written and loses money |
| Assembly.PerArcProfitPays | Costs_added.py:186-198 | under the per-arc guard, a day's detailed objective is non-negative |
| Assembly.DetailedPays | Costs_added.py:186-253 | every plan feasible under the per-arc guard has a non-negative objective |
| Assembly.ServableDayDischarges | draft_model.py:101-122 | a 5 by 5 day with no self-demand and no negative demand is met by a non-negative discharge plan |
| Assembly.FeasibleDayServable | draft_model.py:101-122 | a 5 by 5 day that some non-negative flow meets has diagonal sum 0 and no negative demand between two cities |
| Assembly.DraftFeasibleIff | draft_model.py:101-122 | five grouped 5 by 5 days have a feasible draft plan exactly when every day is servable, and the discharge plan is then one |
| Assembly.GroundedArc | Costs_added.py:236-253 | a flight nobody flies or rides, in a plan that only fills sink arcs, meets its capacity row and both profit guards |
| Assembly.GroundedRows | playingaround.py:143-160 | with no flights and passengers only on sink arcs, every capacity, flat-guard and per-arc-guard row holds |
| Assembly.HangarLedger | Costs_added.py:256-271 | with no flights, an empty fleet satisfies every ledger row |
| Assembly.DischargeDayRows | Costs_added.py:225-253 | a servable day's discharge plan meets the layovers, the bounds, capacity and both guards |
| Assembly.DischargeWeekRows | Costs_added.py:225-253 | the same on each of the five grouped days |
| Assembly.SinkKeepsFeasible | Costs_added.py:203-271 | on servable days, discharging every passenger to the sink with no flights is feasible for all three scripts, whatever the fares |

## Left out

- File reading. The demand and revenue files are given as their lines. Python's `int` on a cell
  is a parameter `parse` that returns `None` where `int` raises.
- All solver calls (model creation, `addVars`, `addConstr`, `setObjective`, `optimize`). The rows
  are predicates over an assignment. Optimality is not modelled, and neither is the solver's
  treatment of bounds.
- Integrality. `Costs_added.py` declares `X` integer; the model takes passenger flows as reals.
  Every stated property holds for integer flows as well.
- Printing and reporting, including the warning `calculate_fuel_cost` prints for an unknown
  letter. The 0 it then returns is modelled.
- Floating point. Rates and factors are exact Dafny reals, so rounding is not modelled.
- Flow.Entry: it reads 0 outside the table where Python raises IndexError. So the lemmas that
  read demand entries without a shape requirement also cover tables the scripts would reject:
  `Flow.NodeDemandTotal`, `Flow.DayTotalIsOffDiagonal`, `Flow.ODOutflow`, `Flow.FlowBound`,
  `Flow.NoDemandNoFlow`, `Assembly.DraftServesDemand`, `Assembly.DraftNeedsBalancedDays`,
  `Assembly.PlaygroundPays` and `Assembly.DetailedPays`. On such a table they speak about that
  0, not about an IndexError. The same holds for fares: the lemmas that read the revenue table
  through `Assembly.FareOf` without a shape requirement also read 0 outside it, namely
  `Assembly.FlatGuardBounds`, `Assembly.FlatProfitPays`, `Assembly.PerArcProfitPays`,
  `Assembly.NoPassengersProfit`, `Assembly.LonelyFlightLoses`, `Assembly.AsWrittenAdmitsLosingPlan`,
  `Assembly.GroundedArc`, `Assembly.GroundedRows` and `Assembly.SinkKeepsFeasible`. On a table with
  five rows of at least five entries (`Flow.Square5`), `Entry` is the scripts' own indexing.
- Table shape is required only where a lemma needs it:
  - `Flow.RowSplits`, `Flow.TableSumSplits`, `Flow.DiagonalMustVanish`,
    `Flow.ZeroDiagonalSuffices` and `Flow.DayFeasibleIff` require exactly five rows of five, and
    so do the Assembly lemmas from `Assembly.ServableDayDischarges` to
    `Assembly.SinkKeepsFeasible` for the five grouped days (`Assembly.FiveGroupedDays`);
  - `Assembly.KeyFareMatches` and `Assembly.BufferLegFares` require a `Square5` revenue table;
  - `Assembly.KeyFare` models the raising lookup itself.
- Assembly.DraftFeasible: a grouping with fewer than five days is excluded (Python would raise).
  Whether a row of the demand matrix has five entries is stated only where a lemma needs it.
- The revenue table is read by `Demands.ReadTable`. Its shape is not checked, as in the scripts.
- Assembly.Idle, Assembly.Lonely and Assembly.Parked form one concrete plan. It witnesses the
  finding below, with a zero demand file of five days (`Assembly.Quiet`).

## Findings

| source | as written | input that shows it | evidently intended | confidence | as-written member | corrected member |
|---|---|---|---|---|---|---|
| Costs_added.py:244-253 | each profit row multiplies `cost` by the row's own `n`. `cost` is left over from the objective loop and is the cost expression of arc `HM-M` on day 4, so the guard is quadratic and the same on every arc | five days with no demand; five planes per city; no passengers; one flight a day on `VW-W`. With no `HM-M` flight, `cost` is 0, every guard row reads `0 <= fare * 0`, and each day's objective is minus the cost of the `VW-W` flight | each arc's own fuel and landing cost per flight plus its AIF per passenger is covered by its fare times its passengers | high; not executed | Assembly.AsWrittenGuardAdmitsLoss | Assembly.DetailedPays |
