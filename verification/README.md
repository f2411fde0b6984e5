# Taxi-Simulator core, modelled and verified in Dafny

This project models the core of the Taxi-Simulator, a Java program that dispatches
taxis over a road graph. It also proves properties of that model.

- **Graph store** (`Graph.java`): vertices are created on first mention. Each
  vertex keeps its directed, integer-weighted edges in insertion order.
- **Shortest-path run** (`Graph.dijkstra`): a lazy-deletion Dijkstra. It works on
  per-vertex scratch state: distance, predecessor, processed mark and the
  equal-cost tie flag `duplicatePathsFound`. A negative edge throws
  `GraphException`.
- **Simulators** (`TaxiSimulator.java` and `SimulatorOne.java`): each extends the
  graph and adds:
  - cost lookups (`getCost` with one or two names);
  - the path display (`displayPath`);
  - the four `find*` loops, which run Dijkstra once per candidate shop and keep
    the cheapest candidates;
  - in `TaxiSimulator` only, the fare (`getTaxiFare`) and the amount a client
    owes, summed over every nearest taxi and every nearest shop.

Files:
- `common.dfy`: `Option`, `Result`, the two exceptions and `Dist` (a finite cost
  or the `INFINITY` sentinel).
- `walks.dfy`: routes, route costs, `ShortestDist` (the reference definition of a
  shortest distance), and `Trace`, which follows a predecessor chain.
- `dijkstra_invariant.dfy`: the run's loop invariant and one lemma per step.
- `graph.dfy`: the `Graph` class and the run's loops.
- `text.dfy`: `equalsIgnoreCase`, folding the case of ASCII letters only.
- `matching.dfy`: the minimum-cost selection of the `find*` loops, over plain
  values.
- `simulation.dfy`: what both simulators share.
- `fares.dfy`: `getTaxiFare`, the fare sum of `main` as a function, and its
  closed forms.
- `taxi_simulator.dfy` and `simulator_one.dfy`: the two candidate filters, and
  the loops of `main` that sum the amount due.

Each simulator is modelled as the `Graph` it extends. Its operations are
methods that take that graph and change only its scratch state. The iteration
order of `vertexMap.keySet()` is an input, `keys`. The lemmas
`CandidatesOfKeySet`, `NearestOutcomeMeaning` and `FirstOutcomeMeaning` say what
the loops compute when `keys` lists every vertex exactly once.

Where the code and its documentation disagree, the model follows the code:

- **Tie flag not reset.** Before each run, every vertex is reset to an infinite
  distance, no predecessor and not processed. The tie flag is *not* cleared:
  `Vertex.reset` does not touch it. A run clears it only on a strict
  improvement. So after a run, every unreachable vertex keeps the flag it had
  before. The start keeps its old flag too, unless some tight edge enters it (a
  zero-cost cycle back to the start, such as s→u and u→s both of cost 0), which
  sets it. Any other reachable vertex has the flag set exactly when two distinct
  tight edges reach it (`Solved`, `Graphs.Graph.ClearAll`).
- **No reachable candidate.** If no candidate is reachable, `findNearestTaxi`
  and `findNearestShop` return every candidate, not an empty list: +∞ equals
  the initial minimum +∞, so each unreachable candidate is appended
  (`Matching.NearestAllUnreachable`).
- **Unknown name in `getCost`.** `getCost` throws `NoSuchElementException` for
  an unknown name; its doc comment says it returns -1.

## Model

| member | source | states |
|---|---|---|
| Graphs.Graph.constructor | src/Graph.java:121 | A new graph has no vertices and no names. |
| Graphs.Graph.GetVertex | src/Graph.java:157-166 | A known name returns its vertex and nothing changes. A new name adds exactly one vertex, at the end, with infinite distance, no predecessor, not processed and no tags; every existing entry stays as it was. |
| Graphs.Graph.AddVertex | src/Graph.java:78-86 | `new Vertex(name)`: one more vertex with an empty edge list and reset scratch state, and the name maps to it. |
| Graphs.Graph.AddEdge | src/Graph.java:126-131 | Both endpoints exist afterwards; new ones are blank and existing vertices keep their index. The source's edge list gains exactly `(dest, cost)` at its end. Every other edge list is unchanged. |
| Graphs.Graph.Label | src/TaxiSimulator.java:77-106 | Tagging a known name sets its `type`, and its company when one is given. Nothing else changes. An unknown name is ignored. |
| Graphs.Graph.Reset | src/Graph.java:84-86 | One vertex gets infinite distance, no predecessor and is not processed. Its tie flag and everything else are unchanged. |
| Graphs.Graph.ClearAll | src/Graph.java:187-191 | Every vertex is reset. The tie flags and the topology are unchanged. |
| Graphs.Graph.Dijkstra | src/Graph.java:199-247 | An unknown start fails with `NotFound` and changes nothing. Otherwise the run fails with `NegativeEdge` exactly when a negative edge leaves some vertex reachable from the start; then every outcome is `Solved`. The topology is never modified. |
| Graphs.ShortestPaths | src/Graph.java:207-246 | From the state just after the reset, with the start at distance 0, the queue loop either throws on a negative edge (only when one is reachable) or ends `Solved`. |
| Graphs.Step | src/Graph.java:212-223 | One removal from the queue keeps the loop invariant, and the removed entry has the least key. An entry whose vertex is already processed is skipped: the queue loses exactly that entry and nothing else changes. Otherwise the entry's key is the vertex's distance, the vertex is marked processed, `nodesSeen` grows by exactly one and never exceeds the vertex count. |
| Graphs.RelaxEdges | src/Graph.java:225-245 | Relaxing the edges of the vertex just processed keeps the invariant, or stops at a negative edge, which is then reachable from the start. |
| Graphs.Relax | src/Graph.java:232-244 | A strict improvement sets the distance and `prev := v`, clears the tie flag and enqueues `(w, dist)`. An equal cost sets the tie flag and leaves `prev` alone. A dearer cost changes nothing. |
| DijkstraInvariant.NegativeEdgeReached | src/Graph.java:228-231 | A negative edge out of a processed vertex is reachable from the start. |
| DijkstraInvariant.PopStale | src/Graph.java:216-219 | Skipping an entry whose vertex is already processed keeps the invariant. |
| DijkstraInvariant.PopFresh | src/Graph.java:214-223 | Taking a least entry of an unprocessed vertex: its key is that vertex's distance, fewer than all vertices have been processed, and marking it keeps the invariant. |
| DijkstraInvariant.Init | src/Graph.java:207-210 | The state after the reset, with one queue entry `(start, 0)`, satisfies the invariant. |
| DijkstraInvariant.Finish | src/Graph.java:212-246 | When the loop stops (empty queue, or every vertex processed), each distance is the shortest route cost. Unreachable vertices have no predecessor. Reachable ones have a predecessor chain back to the start along a shortest route. An unreachable vertex keeps its old tie flag. The start's flag is its old value, or set if some tight edge enters the start. Any other vertex's flag is set exactly when two distinct tight edges reach it. |
| DijkstraInvariant.FinishDist | src/Graph.java:233-240 | At loop exit one vertex's distance equals `ShortestDist`. Infinite means unreachable with no predecessor; finite means `Trace` gives a route of that cost. |
| DijkstraInvariant.FinishTie | src/Graph.java:238-244 | At loop exit, for one vertex: unreachable, it keeps its old tie flag; the start has its old flag, or the flag set if some tight edge enters it; any other vertex has it set exactly when two distinct tight edges reach it. |
| DijkstraInvariant.FinishNegFree | src/Graph.java:228-231 | A run that processed everything reachable without throwing had no negative edge leaving a reachable vertex. |
| Walks.Trace | src/Graph.java:173-181 | The predecessor chain from `v` ends at `v` and starts at a vertex without a predecessor. |
| Walks.TraceLinks | src/TaxiSimulator.java:296-302 | Each vertex of a traced chain, after the first, has the vertex before it as its predecessor. |
| Simulation.GetCost | src/TaxiSimulator.java:116-125 | `NotFound` exactly for an unknown name; otherwise the distance stored at that vertex, where the sentinel reads as +∞. What that distance means after a run is `CostAfterRun`. `getCost(name)` at src/SimulatorOne.java:95-104 is the same code. |
| Simulation.CostAfterRun | src/TaxiSimulator.java:116-125 | Right after a completed run, `getCost` gives the shortest distance, and +∞ exactly for an unreachable vertex. |
| Simulation.GetCostBetween | src/TaxiSimulator.java:134-145 | `NotFound`, with nothing changed, if either name is unknown. Otherwise `NegativeEdge` exactly when one is reachable from the start, else the shortest start-to-destination distance. |
| Simulation.PathNamesTrace | src/TaxiSimulator.java:296-302 | The names printed by the recursive `displayPath(vertex)` are the names of the traced predecessor chain, in order. |
| Simulation.PathNames | src/SimulatorOne.java:130-136 | The recursive path printer ends with the given vertex's name. |
| Simulation.DisplayPath | src/TaxiSimulator.java:277-302 | `NotFound` for an unknown name. `NegativeEdge` exactly when one is reachable from the start. The unreachable notice exactly when the destination cannot be reached. When both names are vertices, no negative edge is reachable and the destination is reachable, a path is always shown: the names along a shortest route, first the start and last the destination. `displayPath(source, dest)` at src/SimulatorOne.java:111-136 is the same code. |
| Simulation.MatchesIgnoresCase | src/TaxiSimulator.java:158 | The candidate filter compares the type with `Shop` and the company with the requested one up to case, so spellings that differ only in case are treated alike. A company's shop is always a shop. The `SimulatorOne` filter at src/SimulatorOne.java:148 is `AnyShop`. |
| Simulation.Candidates | src/TaxiSimulator.java:157-158 | The names the loop tests positively, in key order: each is a vertex the filter accepts. |
| Simulation.CandidatesOfKeySet | src/TaxiSimulator.java:157-158 | Over the whole key set, the loop tests positive exactly the vertices the filter accepts, each once. |
| Simulation.FaultClosedForm | src/TaxiSimulator.java:157-168 | A `find*` loop with no candidate throws nothing. An unknown client throws `NotFound`, except that towards the client a negative edge from the first candidate throws first. Otherwise it throws `NegativeEdge` exactly when one is reachable from a candidate (towards the client) or from the client (from it). |
| Simulation.FaultFirst | src/TaxiSimulator.java:157-168 | An exception ends the loop: later candidates do not change it. |
| Simulation.Measure | src/TaxiSimulator.java:159-161 | One candidate's run plus lookup yields that candidate's exception, or the shortest cost in the loop's direction. |
| Simulation.Scan | src/TaxiSimulator.java:158-167 | One key of the loop: a key the filter rejects yields nothing and leaves the graph unchanged; a candidate either ends the loop with the loop's exception or contributes its cost. |
| Simulation.FindNearest | src/TaxiSimulator.java:153-196 | The running-minimum loop returns `NearestOutcome`: the loop's exception, or the candidates whose cost equals the least cost, in key order. |
| Simulation.FindFirst | src/TaxiSimulator.java:204-240 | The strict-minimum loop returns `FirstOutcome`: the loop's exception, or the first candidate of least finite cost, or `null`. |
| Simulation.NearestOutcome | src/TaxiSimulator.java:153-171 | What a `findNearest*` loop returns: an exception exactly when some candidate's step throws. `NearestOutcomeMeaning` says what the list is. |
| Simulation.FirstOutcome | src/TaxiSimulator.java:204-219 | What a `findTaxi`/`findShop` loop returns: an exception exactly when some candidate's step throws; a name returned is always a candidate. `FirstOutcomeMeaning` says which one. |
| Simulation.NearestOutcomeMeaning | src/TaxiSimulator.java:161-167 | Over the whole key set, a name is returned exactly when it is a candidate that no candidate beats. The list is empty exactly when there is no candidate. |
| Simulation.FirstOutcomeMeaning | src/TaxiSimulator.java:212-215 | `null` exactly when no candidate is reachable in the loop's direction; otherwise the first name the `findNearest*` loop returns. |
| Matching.MinCost | src/TaxiSimulator.java:154-167 | The running minimum is no more than any cost. It is +∞ or attained by some candidate. |
| Matching.FirstAt | src/TaxiSimulator.java:212-215 | The first position holding a given cost: no earlier position holds it. |
| Matching.Nearest | src/TaxiSimulator.java:154-167 | The collected list holds only candidates and is no longer than the candidate list. |
| Matching.First | src/TaxiSimulator.java:204-219 | `null` exactly when the least cost is +∞; otherwise one of the candidates. |
| Matching.NearestMember | src/TaxiSimulator.java:161-167 | A candidate is collected exactly when no candidate's cost is strictly below its own. |
| Matching.NearestAllUnreachable | src/TaxiSimulator.java:154-166 | When every candidate is unreachable, all of them are returned (+∞ equals +∞). |
| Matching.NearestNonEmpty | src/SimulatorOne.java:143-161 | With at least one candidate the collected list is never empty. |
| Matching.FirstIsNearestHead | src/TaxiSimulator.java:204-240 | `findTaxi`/`findShop` give `null` exactly when no candidate is reachable, and otherwise the head of the `findNearest*` list. |
| Matching.NearestSnoc | src/TaxiSimulator.java:161-167 | One more candidate: a strictly smaller cost restarts the list with it, an equal cost appends it, a larger one leaves the list. |
| Matching.FirstSnoc | src/TaxiSimulator.java:212-215 | One more candidate: a strictly smaller cost makes it the answer, otherwise the answer stays. |
| Matching.MinCostSnoc | src/TaxiSimulator.java:161-162 | One more candidate: the new minimum is the smaller of the old minimum and its cost. |
| Text.Lower | src/TaxiSimulator.java:158 | Case folding for ASCII letters: `A`-`Z` move to `a`-`z` and every other character stays as it is. |
| Text.EqualsIgnoreCaseEquivalence | src/TaxiSimulator.java:158 | Comparing ignoring case is reflexive, symmetric and transitive. |
| TaxiSimulator.FindNearestTaxi | src/TaxiSimulator.java:153-171 | Among the company's shops (case-insensitive), every one nearest to drive from to the client, or the loop's exception. |
| TaxiSimulator.FindNearestShop | src/TaxiSimulator.java:178-196 | Among the company's shops, every one nearest to drive to from the client, or the loop's exception. |
| TaxiSimulator.FindTaxi | src/TaxiSimulator.java:204-219 | The first company shop of least finite cost to the client, or `null`, or the loop's exception. |
| TaxiSimulator.FindShop | src/TaxiSimulator.java:226-240 | The first company shop of least finite cost from the client, or `null`, or the loop's exception. |
| SimulatorOne.FindNearestTaxi | src/SimulatorOne.java:143-161 | Every shop, of any company, nearest to drive from to the client, or the loop's exception. |
| SimulatorOne.FindNearestShop | src/SimulatorOne.java:168-186 | Every shop nearest to drive to from the client, or the loop's exception. |
| SimulatorOne.FindTaxi | src/SimulatorOne.java:193-207 | The first shop of least finite cost to the client, or `null`, or the loop's exception. |
| SimulatorOne.FindShop | src/SimulatorOne.java:214-228 | The first shop of least finite cost from the client, or `null`, or the loop's exception. |
| Fares.Rate | src/TaxiSimulator.java:252-258 | QnQ and Shopify each have a positive booking fare and a pick-up share strictly between 0 and 1. |
| Fares.Charge | src/TaxiSimulator.java:253-259 | The fare at a rate: +∞ exactly when there is a rate and a leg is unreachable; with a non-negative share, a finite fare is at least the booking fare. |
| Fares.TaxiFare | src/TaxiSimulator.java:252-260 | `getTaxiFare`: 0 exactly for a company other than QnQ and Shopify; +∞ exactly for QnQ or Shopify with an unreachable leg. |
| Fares.TaxiFareBounds | src/TaxiSimulator.java:252-260 | Any other company pays 0. A QnQ or Shopify fare is at least its booking fare and never decreases when either leg's cost grows (+∞ above all). |
| Fares.TaxiFareIgnoresCase | src/TaxiSimulator.java:254-256 | Two spellings of a company that differ only in case are charged the same. |
| TaxiSimulator.AmountDue | src/TaxiSimulator.java:391-397 | The nested loop returns `AmountDueOutcome`: 0 with no pair to price; `NotFound` for an unknown client; `NegativeEdge` when one is reachable from the client or from a taxi; else the sum, over every taxi and shop pair, of the fare for the shortest pick-up and drop-off costs. |
| TaxiSimulator.AddRow | src/TaxiSimulator.java:394-396 | The inner loop adds one taxi's fares for every shop, in order, to the running total, or throws as its first lookup does. |
| TaxiSimulator.Price | src/TaxiSimulator.java:395 | One fare: `getTaxiFare` of the shortest taxi-to-client and client-to-shop costs, each looked up after its own run. |
| Fares.AddFare | src/TaxiSimulator.java:395 | `fare += x`: the sum is +∞ exactly when either operand is. |
| Fares.AddFareZero | src/TaxiSimulator.java:391 | Starting the sum at 0 changes no fare. |
| Fares.AddFareAssoc | src/TaxiSimulator.java:393-397 | Fares may be summed in any grouping, so the row-by-row loop sums the same as any other grouping of the pairs. |
| Fares.RowFare | src/TaxiSimulator.java:394-396 | One taxi's fares for every shop, summed in order from 0: +∞ only with a rate and at least one shop. |
| Fares.TotalFare | src/TaxiSimulator.java:391-397 | The fare loop's total: +∞ only with a rate, at least one taxi and at least one shop. `TotalFareUnbounded` gives the converse and `TotalFareClosedForm` the finite value. |
| Fares.TotalFareClosedForm | src/TaxiSimulator.java:391-397 | When every leg is reachable and the company has a rate, the amount due is the sum over the taxis of each taxi's `RowAmount`. |
| Fares.RowFareClosedForm | src/TaxiSimulator.java:394-396 | One taxi's row comes to `RowAmount`: the number of shops times (booking fare + share × pick-up cost), plus the sum of the drop-off costs. |
| Fares.TotalFareZero | src/TaxiSimulator.java:253-259 | For a company other than QnQ and Shopify the amount due is 0. |
| Fares.TotalFareUnbounded | src/TaxiSimulator.java:391-397 | For QnQ or Shopify, a single unreachable leg makes the amount due +∞. |
| Fares.TotalFareNoShops | src/TaxiSimulator.java:391-397 | With no shop, the amount due is 0. |

## Left out

- Reading `Input.txt` (`createSimulationGraph` in both simulators) is not
  modelled. The graph is built with `Graphs.Graph.AddEdge`, and the
  type/company tags are set with `Graphs.Graph.Label`.
- `driverAcceptsCall` is not modelled: it depends on `Math.random`.
- Printing is not modelled. This covers `main`'s output in both simulators,
  `printGraph` and `Graph.printPath`. `displayPath` returns the names it would
  print rather than printing them.
- `main`'s reads of `duplicatePathsFound` and `getCost(name)` are not modelled.
  They read whatever the most recent run left behind. Only the fare loop of
  `main` is modelled.
- Costs in the source are `double`. Edge costs are modelled as integers (the
  input is parsed with `Integer.parseInt`). Distances are modelled as `nat`
  plus a sentinel. Fares are exact `real`s, so the 0.2 and 0.15 shares have
  no rounding.
- `HashMap` iteration order and the tie-breaking of `java.util.PriorityQueue`
  are not modelled. The key order is the input `keys`, and an extracted entry
  is any entry of least key.
- Simulation.FindNearest: requires only that every key names a vertex. The
  source iterates the full key set exactly once; that case is the hypothesis
  of `CandidatesOfKeySet`.
- Simulation.FindFirst: the same assumption about `keys` as `FindNearest`.
- Text.Lower: folds only the ASCII letters. Java's `equalsIgnoreCase` also folds
  other characters through `Character.toUpperCase`/`toLowerCase` (for example
  `ſ` matches `s` and `ı` matches `i`), so such spellings of `Shop`, `QnQ` or
  `Shopify` are not matched here.
- Graphs.Step: for a vertex processed for the first time, the contract does not
  list the new distances, predecessors, tie flags and queue entries. It states
  them only through the loop invariant `Inv`. `Relax` states each edge's change
  exactly, but composing that over the whole edge list was too costly for the
  verifier.
- Simulation.Matches: a vertex with no `type`, or a shop with no
  `companyName`, is not a candidate. Java would throw a
  `NullPointerException`. After `createSimulationGraph` every vertex has a
  type and every shop a company, so this case does not occur in the source.
- Walks.Trace: follows at most as many links as there are vertices, and
  reports a longer chain as `None`. The source recurses without bound. After a
  completed run every chain is shorter, because of `DijkstraInvariant.Finish`.
- Simulation.PathNames: has the same link bound as `Trace`.
- Graphs.Graph.Dijkstra: after a run that throws on a negative edge, only the
  topology is specified. The partial scratch state is not.
- The run's queue loop does not work on the object's fields directly. It works
  on value copies of the scratch fields (`Graphs.ShortestPaths`), and the
  method then assigns the results back to the fields.
- The simulators are not separate subclasses. Each operation takes the `Graph`
  it runs on.
- TaxiSimulator.AmountDue: takes the nearest-taxi and nearest-shop lists as
  inputs. In `main` they are the results of `FindNearestTaxi` and
  `FindNearestShop`.
