/**
 * The operations both simulators (`TaxiSimulator` and `SimulatorOne`, each a
 * `Graph`) add on top of the graph store: reading a run's cost, running and
 * reading in one call, showing a shortest path, and the `find*` loops that run
 * Dijkstra once per candidate shop and keep the cheapest candidates.
 *
 * A simulator is modelled as the `Graph` it extends; the methods here take it as a
 * parameter and change only its scratch state. The `find*` loops iterate over
 * `keys`, the key set of `vertexMap` in the map's iteration order.
 */
module Simulation {
  import opened Common
  import opened Walks
  import opened DijkstraInvariant
  import opened Text
  import opened Matching
  import opened Graphs

  // ---------------------------------------------------------------------------
  // getCost

  /**
   * `getCost(destination)`: the distance the last run left at `dest`, or
   * `NoSuchElementException` for a name that is not a vertex. What that distance
   * means after a completed run is stated by `CostAfterRun`.
   */
  function GetCost(g: Graph, dest: string): (r: Result<Dist>)
    reads g
    requires g.Valid()
    ensures r.Err? <==> dest !in g.index
    ensures r.Err? ==> r.error == NotFound
    ensures r.Ok? ==> r.value == g.dist[g.index[dest]]
  {
    if dest in g.index then Ok(g.dist[g.index[dest]]) else Err(NotFound)
  }

  /** Right after a completed run from `s`, `getCost` reads the shortest distance from `s`. */
  lemma CostAfterRun(g: Graph, s: nat, tie0: seq<bool>, dest: string)
    requires g.Valid() && s < |g.adj| && |tie0| == |g.adj|
    requires Solved(g.adj, s, g.dist, g.prev, g.tie, tie0)
    ensures dest in g.index ==> GetCost(g, dest) == Ok(ShortestDist(g.adj, s, g.index[dest]))
    ensures dest in g.index ==> (GetCost(g, dest) == Ok(Inf) <==> !Reaches(g.adj, s, g.index[dest]))
  {
    if dest in g.index {
      var t := g.index[dest];
      if g.dist[t].Fin? {
        assert ShortestTrace(g.adj, g.prev, s, t, g.dist[t].n);
      }
    }
  }

  /**
   * `getCost(start, destination)`: both names must be vertices; then a run from
   * `start`, whose negative-edge exception propagates, and the distance it leaves
   * at `dest`.
   */
  method GetCostBetween(g: Graph, start: string, dest: string) returns (r: Result<Dist>)
    requires g.Valid()
    modifies g
    ensures g.Valid() && g.SameTopology(old(g.names), old(g.index), old(g.adj), old(g.kinds), old(g.companies))
    ensures start !in g.index || dest !in g.index ==> r == Err(NotFound) && unchanged(g)
    ensures start in g.index && dest in g.index ==>
              r == if NegFree(g.adj, g.index[start]) then Ok(ShortestDist(g.adj, g.index[start], g.index[dest]))
                   else Err(NegativeEdge)
  {
    if start !in g.index || dest !in g.index {
      return Err(NotFound);
    }
    var out := g.Dijkstra(start);
    if out.Fail? {
      return Err(out.error);
    }
    r := GetCost(g, dest);
  }

  // ---------------------------------------------------------------------------
  // displayPath

  /** What `displayPath(start, destination)` prints: the unreachable notice, or the path's names. */
  datatype Shown = Unreachable | Path(names: seq<string>)

  /**
   * `displayPath(vertex)`: the names along the `prev` links back from `v`, printed
   * from the first vertex without a predecessor to `v`. The source recurses without
   * bound; `fuel` bounds the links followed, and `None` stands for a longer chain.
   */
  function PathNames(names: seq<string>, prev: seq<Option<nat>>, v: nat, fuel: nat): (r: Option<seq<string>>)
    requires |names| == |prev|
    ensures r.Some? ==> v < |names| && |r.value| >= 1 && r.value[|r.value| - 1] == names[v]
    decreases fuel
  {
    if v >= |prev| then None
    else
      match prev[v]
      case None => Some([names[v]])
      case Some(u) =>
        if fuel == 0 then None
        else
          match PathNames(names, prev, u, fuel - 1)
          case None => None
          case Some(p) => Some(p + [names[v]])
  }

  /** The names of a sequence of vertices. */
  function NamesAlong(names: seq<string>, p: seq<nat>): (r: seq<string>)
    requires forall i :: 0 <= i < |p| ==> p[i] < |names|
    ensures |r| == |p| && forall i :: 0 <= i < |p| ==> r[i] == names[p[i]]
  {
    seq(|p|, i requires 0 <= i < |p| => names[p[i]])
  }

  /** The printed names are the names of the vertices on the traced `prev` chain. */
  lemma {:induction false} PathNamesTrace(names: seq<string>, prev: seq<Option<nat>>, v: nat, fuel: nat)
    requires |names| == |prev|
    ensures PathNames(names, prev, v, fuel).Some? <==> Trace(prev, v, fuel).Some?
    ensures Trace(prev, v, fuel).Some? ==>
              (forall i :: 0 <= i < |Trace(prev, v, fuel).value| ==> Trace(prev, v, fuel).value[i] < |names|)
              && PathNames(names, prev, v, fuel).value == NamesAlong(names, Trace(prev, v, fuel).value)
    decreases fuel
  {
    if v < |prev| && prev[v].Some? && fuel > 0 {
      var u := prev[v].value;
      PathNamesTrace(names, prev, u, fuel - 1);
      if Trace(prev, u, fuel - 1).Some? {
        var q := Trace(prev, u, fuel - 1).value;
        assert Trace(prev, v, fuel).value == q + [v];
        assert NamesAlong(names, q + [v]) == NamesAlong(names, q) + [names[v]];
      }
    }
  }

  /** `ns` names a shortest route from `s` to `t`, first vertex to last. */
  ghost predicate ShortestNames(adj: Adj, names: seq<string>, s: nat, t: nat, ns: seq<string>)
    requires |names| == |adj|
  {
    exists p, ks ::
      && RouteFromTo(adj, p, ks, s, t)
      && ShortestDist(adj, s, t).Fin? && ShortestDist(adj, s, t).n == RouteCost(adj, p, ks)
      && (forall i :: 0 <= i < |p| ==> p[i] < |names|)
      && ns == NamesAlong(names, p)
  }

  /**
   * `displayPath(start, destination)`: both names must be vertices; a run from
   * `start` (whose exception propagates); then the unreachable notice when `dest`
   * was left at the sentinel, and otherwise the names along a shortest route from
   * `start` to `dest`.
   */
  method DisplayPath(g: Graph, start: string, dest: string) returns (r: Result<Shown>)
    requires g.Valid()
    modifies g
    ensures g.Valid() && g.SameTopology(old(g.names), old(g.index), old(g.adj), old(g.kinds), old(g.companies))
    ensures start !in g.index || dest !in g.index ==> r == Err(NotFound) && unchanged(g)
    ensures start in g.index && dest in g.index ==>
              (r == Err(NegativeEdge) <==> !NegFree(g.adj, g.index[start]))
    ensures start in g.index && dest in g.index ==>
              (r == Ok(Unreachable) <==> NegFree(g.adj, g.index[start]) && !Reaches(g.adj, g.index[start], g.index[dest]))
    ensures start in g.index && dest in g.index ==>
              NegFree(g.adj, g.index[start]) && Reaches(g.adj, g.index[start], g.index[dest]) ==>
              r.Ok? && r.value.Path?
    ensures r.Ok? && r.value.Path? ==>
              && start in g.index && dest in g.index
              && ShortestNames(g.adj, g.names, g.index[start], g.index[dest], r.value.names)
              && r.value.names[0] == start && r.value.names[|r.value.names| - 1] == dest
  {
    if start !in g.index || dest !in g.index {
      return Err(NotFound);
    }
    var out := g.Dijkstra(start);
    if out.Fail? {
      return Err(out.error);
    }
    var s, t := g.index[start], g.index[dest];
    if g.dist[t] == Inf {
      return Ok(Unreachable);
    }
    assert ShortestTrace(g.adj, g.prev, s, t, g.dist[t].n);
    PathNamesTrace(g.names, g.prev, t, |g.names|);
    var ns := PathNames(g.names, g.prev, t, |g.names|);
    r := Ok(Path(ns.value));
    ghost var p := Trace(g.prev, t, |g.adj|).value;
    assert r.value.names == NamesAlong(g.names, p);
    assert p[0] == s;
  }

  // ---------------------------------------------------------------------------
  // The find* loops

  /** Which vertices a `find*` loop considers: any shop, or the shops of one company. */
  datatype Filter = AnyShop | CompanyShop(company: string)

  /**
   * Which way a candidate's cost is measured: from the candidate to the client
   * (a taxi driving to its pick-up), or from the client to the candidate (a drop-off).
   */
  datatype Direction = ToClient | FromClient

  /**
   * The filter on a vertex's tags: type `Shop` and, for a company filter, that
   * company, both up to case. A missing tag matches nothing.
   */
  predicate Matches(f: Filter, kind: Option<string>, company: Option<string>) {
    && kind.Some? && EqualsIgnoreCase(kind.value, "Shop")
    && match f
       case AnyShop => true
       case CompanyShop(co) => company.Some? && EqualsIgnoreCase(company.value, co)
  }

  /**
   * Both tags are compared up to case, and a company's shops are among all shops.
   */
  lemma MatchesIgnoresCase(f: Filter, kind: Option<string>, company: Option<string>,
                           kind': Option<string>, company': Option<string>)
    requires kind.Some? <==> kind'.Some?
    requires kind.Some? ==> EqualsIgnoreCase(kind.value, kind'.value)
    requires company.Some? <==> company'.Some?
    requires company.Some? ==> EqualsIgnoreCase(company.value, company'.value)
    ensures Matches(f, kind, company) <==> Matches(f, kind', company')
    ensures Matches(f, kind, company) ==> Matches(AnyShop, kind, company)
  {
    if kind.Some? {
      EqualsIgnoreCaseEquivalence(kind.value, kind'.value, "Shop");
      EqualsIgnoreCaseEquivalence(kind'.value, kind.value, "Shop");
    }
    if company.Some? && f.CompanyShop? {
      EqualsIgnoreCaseEquivalence(company.value, company'.value, f.company);
      EqualsIgnoreCaseEquivalence(company'.value, company.value, f.company);
    }
  }

  predicate IsCandidate(index: map<string, nat>, kinds: seq<Option<string>>, companies: seq<Option<string>>,
                        f: Filter, name: string) {
    name in index && index[name] < |kinds| && index[name] < |companies|
    && Matches(f, kinds[index[name]], companies[index[name]])
  }

  /** The names among `keys` the loop tests positively, in iteration order. */
  function Candidates(index: map<string, nat>, kinds: seq<Option<string>>, companies: seq<Option<string>>,
                      f: Filter, keys: seq<string>): (cs: seq<string>)
    ensures forall i :: 0 <= i < |cs| ==> cs[i] in index
    ensures forall i :: 0 <= i < |cs| ==> IsCandidate(index, kinds, companies, f, cs[i])
    decreases |keys|
  {
    if keys == [] then []
    else
      var n := |keys| - 1;
      Candidates(index, kinds, companies, f, keys[..n])
        + (if IsCandidate(index, kinds, companies, f, keys[n]) then [keys[n]] else [])
  }

  /** Each name of the map's key set exactly once: `vertexMap.keySet()` in its iteration order. */
  ghost predicate Enumerates(keys: seq<string>, index: map<string, nat>) {
    && (forall i :: 0 <= i < |keys| ==> keys[i] in index)
    && (forall name :: name in index ==> name in keys)
    && (forall i, j :: 0 <= i < j < |keys| ==> keys[i] != keys[j])
  }

  /**
   * Over the whole key set, the candidates are exactly the vertices the filter
   * accepts, each once.
   */
  lemma {:induction false} CandidatesOfKeySet(index: map<string, nat>, kinds: seq<Option<string>>,
                                              companies: seq<Option<string>>, f: Filter, keys: seq<string>)
    requires Enumerates(keys, index)
    ensures forall name :: name in Candidates(index, kinds, companies, f, keys) <==>
                           IsCandidate(index, kinds, companies, f, name)
    ensures forall i, j :: 0 <= i < j < |Candidates(index, kinds, companies, f, keys)| ==>
                           Candidates(index, kinds, companies, f, keys)[i] != Candidates(index, kinds, companies, f, keys)[j]
  {
    forall name
      ensures name in Candidates(index, kinds, companies, f, keys) <==> IsCandidate(index, kinds, companies, f, name)
    {
      CandidatesMember(index, kinds, companies, f, keys, name);
    }
    CandidatesDistinct(index, kinds, companies, f, keys);
  }

  lemma {:induction false} CandidatesMember(index: map<string, nat>, kinds: seq<Option<string>>,
                                            companies: seq<Option<string>>, f: Filter, keys: seq<string>, name: string)
    ensures name in Candidates(index, kinds, companies, f, keys) <==>
            name in keys && IsCandidate(index, kinds, companies, f, name)
    decreases |keys|
  {
    if keys != [] {
      var n := |keys| - 1;
      CandidatesMember(index, kinds, companies, f, keys[..n], name);
      assert keys == keys[..n] + [keys[n]];
    }
  }

  lemma {:induction false} CandidatesDistinct(index: map<string, nat>, kinds: seq<Option<string>>,
                                              companies: seq<Option<string>>, f: Filter, keys: seq<string>)
    requires forall i, j :: 0 <= i < j < |keys| ==> keys[i] != keys[j]
    ensures forall i, j :: 0 <= i < j < |Candidates(index, kinds, companies, f, keys)| ==>
                           Candidates(index, kinds, companies, f, keys)[i] != Candidates(index, kinds, companies, f, keys)[j]
    decreases |keys|
  {
    if keys != [] {
      var n := |keys| - 1;
      var cs := Candidates(index, kinds, companies, f, keys[..n]);
      CandidatesDistinct(index, kinds, companies, f, keys[..n]);
      CandidatesMember(index, kinds, companies, f, keys[..n], keys[n]);
    }
  }

  /** The shortest cost that decides a candidate's place, in the loop's direction. */
  ghost function Score(adj: Adj, index: map<string, nat>, client: string, dir: Direction, name: string): Dist {
    if client in index && name in index then
      match dir
      case ToClient => ShortestDist(adj, index[name], index[client])
      case FromClient => ShortestDist(adj, index[client], index[name])
    else Inf
  }

  ghost function Scores(adj: Adj, index: map<string, nat>, client: string, dir: Direction,
                        cs: seq<string>): (costs: seq<Dist>)
    ensures |costs| == |cs|
    decreases |cs|
  {
    if cs == [] then []
    else
      var n := |cs| - 1;
      Scores(adj, index, client, dir, cs[..n]) + [Score(adj, index, client, dir, cs[n])]
  }

  /**
   * The exception one candidate's step throws, if any. Towards the client the run
   * starts at the candidate (a negative edge throws first) and the client is looked
   * up after it; from the client, the run itself looks the client up first.
   */
  ghost function StepFault(adj: Adj, index: map<string, nat>, client: string, dir: Direction,
                           name: string): Option<Error>
    requires name in index
  {
    match dir
    case ToClient =>
      if !NegFree(adj, index[name]) then Some(NegativeEdge)
      else if client !in index then Some(NotFound)
      else None
    case FromClient =>
      if client !in index then Some(NotFound)
      else if !NegFree(adj, index[client]) then Some(NegativeEdge)
      else None
  }

  /** The first exception the candidates' steps throw, in order. */
  ghost function Fault(adj: Adj, index: map<string, nat>, client: string, dir: Direction,
                       cs: seq<string>): Option<Error>
    requires forall i :: 0 <= i < |cs| ==> cs[i] in index
    decreases |cs|
  {
    if cs == [] then None
    else
      var n := |cs| - 1;
      var earlier := Fault(adj, index, client, dir, cs[..n]);
      if earlier.Some? then earlier else StepFault(adj, index, client, dir, cs[n])
  }

  /** A fault, once thrown, ends the loop: later candidates do not change it. */
  lemma {:induction false} FaultFirst(adj: Adj, index: map<string, nat>, client: string, dir: Direction,
                                      cs: seq<string>, rest: seq<string>)
    requires forall i :: 0 <= i < |cs| ==> cs[i] in index
    requires forall i :: 0 <= i < |rest| ==> rest[i] in index
    requires Fault(adj, index, client, dir, cs).Some?
    ensures Fault(adj, index, client, dir, cs + rest) == Fault(adj, index, client, dir, cs)
    decreases |rest|
  {
    if rest != [] {
      var n := |rest| - 1;
      FaultFirst(adj, index, client, dir, cs, rest[..n]);
      assert (cs + rest)[..|cs| + n] == cs + rest[..n];
    } else {
      assert cs + rest == cs;
    }
  }

  /**
   * Which exception a `find*` loop throws, in closed form. With no candidate,
   * none: the client is never looked up. Otherwise a missing client throws, except
   * that towards the client a negative edge reachable from the first candidate is
   * met before the lookup; and a negative edge reachable from any candidate
   * (towards the client) or from the client (from the client) throws.
   */
  lemma {:induction false} FaultClosedForm(adj: Adj, index: map<string, nat>, client: string, dir: Direction,
                                           cs: seq<string>)
    requires forall i :: 0 <= i < |cs| ==> cs[i] in index
    ensures Fault(adj, index, client, dir, cs) ==
              if cs == [] then None
              else if client !in index then
                (if dir == ToClient && !NegFree(adj, index[cs[0]]) then Some(NegativeEdge) else Some(NotFound))
              else if dir == ToClient then
                (if exists i :: 0 <= i < |cs| && !NegFree(adj, index[cs[i]]) then Some(NegativeEdge) else None)
              else if NegFree(adj, index[client]) then None
              else Some(NegativeEdge)
    decreases |cs|
  {
    if cs != [] {
      var n := |cs| - 1;
      var cs' := cs[..n];
      FaultClosedForm(adj, index, client, dir, cs');
      if n > 0 {
        assert cs'[0] == cs[0];
      }
      if dir == ToClient && client in index {
        if exists i :: 0 <= i < |cs| && !NegFree(adj, index[cs[i]]) {
          var i :| 0 <= i < |cs| && !NegFree(adj, index[cs[i]]);
          if i < n {
            assert cs'[i] == cs[i];
          }
        }
      }
    }
  }

  /**
   * One candidate's step of a `find*` loop: the run (from the candidate, or from
   * the client) and the `getCost` lookup that follows it.
   */
  method Measure(g: Graph, client: string, dir: Direction, name: string) returns (r: Result<Dist>)
    requires g.Valid() && name in g.index
    modifies g
    ensures g.Valid() && g.SameTopology(old(g.names), old(g.index), old(g.adj), old(g.kinds), old(g.companies))
    ensures r == match StepFault(g.adj, g.index, client, dir, name)
                 case Some(e) => Err(e)
                 case None => Ok(Score(g.adj, g.index, client, dir, name))
  {
    var out := g.Dijkstra(if dir == ToClient then name else client);
    if out.Fail? {
      return Err(out.error);
    }
    r := GetCost(g, if dir == ToClient then client else name);
  }

  /** What a `findNearest*` loop returns: its exception, or every candidate of least cost. */
  ghost function NearestOutcome(adj: Adj, index: map<string, nat>, kinds: seq<Option<string>>,
                                companies: seq<Option<string>>, keys: seq<string>, client: string,
                                f: Filter, dir: Direction): (r: Result<seq<string>>)
    ensures r.Err? <==> Fault(adj, index, client, dir, Candidates(index, kinds, companies, f, keys)).Some?
  {
    var cs := Candidates(index, kinds, companies, f, keys);
    match Fault(adj, index, client, dir, cs)
    case Some(e) => Err(e)
    case None => Ok(Nearest(cs, Scores(adj, index, client, dir, cs)))
  }

  /** What a `findTaxi`/`findShop` loop returns: its exception, or the first candidate of least finite cost. */
  ghost function FirstOutcome(adj: Adj, index: map<string, nat>, kinds: seq<Option<string>>,
                              companies: seq<Option<string>>, keys: seq<string>, client: string,
                              f: Filter, dir: Direction): (r: Result<Option<string>>)
    ensures r.Err? <==> Fault(adj, index, client, dir, Candidates(index, kinds, companies, f, keys)).Some?
    ensures r.Ok? && r.value.Some? ==> IsCandidate(index, kinds, companies, f, r.value.value)
  {
    var cs := Candidates(index, kinds, companies, f, keys);
    match Fault(adj, index, client, dir, cs)
    case Some(e) => Err(e)
    case None => Ok(First(cs, Scores(adj, index, client, dir, cs)))
  }

  lemma {:induction false} ScoresAt(adj: Adj, index: map<string, nat>, client: string, dir: Direction,
                                    cs: seq<string>, i: nat)
    requires i < |cs|
    ensures Scores(adj, index, client, dir, cs)[i] == Score(adj, index, client, dir, cs[i])
    decreases |cs|
  {
    var n := |cs| - 1;
    if i < n {
      ScoresAt(adj, index, client, dir, cs[..n], i);
    }
  }

  /**
   * When a `findNearest*` loop over the whole key set throws nothing, a name is in
   * its answer exactly when it is a candidate that no candidate beats on cost; the
   * answer is empty only when there is no candidate.
   */
  lemma NearestOutcomeMeaning(adj: Adj, index: map<string, nat>, kinds: seq<Option<string>>,
                              companies: seq<Option<string>>, keys: seq<string>, client: string,
                              f: Filter, dir: Direction, x: string)
    requires Enumerates(keys, index)
    requires NearestOutcome(adj, index, kinds, companies, keys, client, f, dir).Ok?
    ensures x in NearestOutcome(adj, index, kinds, companies, keys, client, f, dir).value <==>
              IsCandidate(index, kinds, companies, f, x)
              && forall y :: IsCandidate(index, kinds, companies, f, y) ==>
                               !Score(adj, index, client, dir, y).Below(Score(adj, index, client, dir, x))
    ensures NearestOutcome(adj, index, kinds, companies, keys, client, f, dir).value == [] <==>
              forall y :: !IsCandidate(index, kinds, companies, f, y)
  {
    var cs := Candidates(index, kinds, companies, f, keys);
    var costs := Scores(adj, index, client, dir, cs);
    CandidatesOfKeySet(index, kinds, companies, f, keys);
    NearestMember(cs, costs, x);
    forall i | 0 <= i < |cs|
      ensures costs[i] == Score(adj, index, client, dir, cs[i])
    {
      ScoresAt(adj, index, client, dir, cs, i);
    }
    if x in Nearest(cs, costs) {
      var i :| 0 <= i < |cs| && cs[i] == x && forall j :: 0 <= j < |cs| ==> !costs[j].Below(costs[i]);
      forall y | IsCandidate(index, kinds, companies, f, y)
        ensures !Score(adj, index, client, dir, y).Below(Score(adj, index, client, dir, x))
      {
        var j := PositionOf(cs, y);
      }
    }
    if IsCandidate(index, kinds, companies, f, x)
       && forall y :: IsCandidate(index, kinds, companies, f, y) ==>
                        !Score(adj, index, client, dir, y).Below(Score(adj, index, client, dir, x)) {
      var i := PositionOf(cs, x);
      forall j | 0 <= j < |cs|
        ensures !costs[j].Below(costs[i])
      {
        assert IsCandidate(index, kinds, companies, f, cs[j]);
      }
    }
    if cs != [] {
      NearestNonEmpty(cs, costs);
      assert IsCandidate(index, kinds, companies, f, cs[0]);
    }
  }

  /**
   * When a `findTaxi`/`findShop` loop over the whole key set throws nothing, it
   * answers `null` exactly when no candidate is reachable in its direction, and
   * otherwise the first name the matching `findNearest*` loop collects.
   */
  lemma FirstOutcomeMeaning(adj: Adj, index: map<string, nat>, kinds: seq<Option<string>>,
                            companies: seq<Option<string>>, keys: seq<string>, client: string,
                            f: Filter, dir: Direction)
    requires Enumerates(keys, index)
    requires FirstOutcome(adj, index, kinds, companies, keys, client, f, dir).Ok?
    ensures FirstOutcome(adj, index, kinds, companies, keys, client, f, dir).value.None? <==>
              forall y :: IsCandidate(index, kinds, companies, f, y) ==> Score(adj, index, client, dir, y) == Inf
    ensures FirstOutcome(adj, index, kinds, companies, keys, client, f, dir).value.Some? ==>
              && NearestOutcome(adj, index, kinds, companies, keys, client, f, dir).Ok?
              && NearestOutcome(adj, index, kinds, companies, keys, client, f, dir).value != []
              && FirstOutcome(adj, index, kinds, companies, keys, client, f, dir).value.value
                 == NearestOutcome(adj, index, kinds, companies, keys, client, f, dir).value[0]
  {
    var cs := Candidates(index, kinds, companies, f, keys);
    var costs := Scores(adj, index, client, dir, cs);
    CandidatesOfKeySet(index, kinds, companies, f, keys);
    FirstIsNearestHead(cs, costs);
    forall i | 0 <= i < |cs|
      ensures costs[i] == Score(adj, index, client, dir, cs[i])
    {
      ScoresAt(adj, index, client, dir, cs, i);
    }
    if forall i :: 0 <= i < |costs| ==> costs[i] == Inf {
      forall y | IsCandidate(index, kinds, companies, f, y)
        ensures Score(adj, index, client, dir, y) == Inf
      {
        var j :| 0 <= j < |cs| && cs[j] == y;
      }
    }
    if forall y :: IsCandidate(index, kinds, companies, f, y) ==> Score(adj, index, client, dir, y) == Inf {
      forall i | 0 <= i < |costs|
        ensures costs[i] == Inf
      {
        assert IsCandidate(index, kinds, companies, f, cs[i]);
      }
    }
  }

  lemma CandidatesSnoc(index: map<string, nat>, kinds: seq<Option<string>>, companies: seq<Option<string>>,
                       f: Filter, keys: seq<string>, i: nat)
    requires i < |keys|
    ensures Candidates(index, kinds, companies, f, keys[..i + 1]) ==
            Candidates(index, kinds, companies, f, keys[..i])
              + (if IsCandidate(index, kinds, companies, f, keys[i]) then [keys[i]] else [])
  {
    assert keys[..i + 1][..i] == keys[..i];
  }

  lemma {:induction false} CandidatesAppend(index: map<string, nat>, kinds: seq<Option<string>>,
                                            companies: seq<Option<string>>, f: Filter, a: seq<string>, b: seq<string>)
    ensures Candidates(index, kinds, companies, f, a + b) ==
            Candidates(index, kinds, companies, f, a) + Candidates(index, kinds, companies, f, b)
    decreases |b|
  {
    if b != [] {
      var n := |b| - 1;
      CandidatesAppend(index, kinds, companies, f, a, b[..n]);
      assert (a + b)[..|a| + n] == a + b[..n];
    } else {
      assert a + b == a;
    }
  }

  lemma ScoresSnoc(adj: Adj, index: map<string, nat>, client: string, dir: Direction, cs: seq<string>, c: string)
    ensures Scores(adj, index, client, dir, cs + [c]) == Scores(adj, index, client, dir, cs) + [Score(adj, index, client, dir, c)]
  {
    assert (cs + [c])[..|cs|] == cs;
  }

  /** The loop stopped at `keys[i]`, whose step threw `e`: the whole loop throws `e`. */
  lemma StopsAt(adj: Adj, index: map<string, nat>, kinds: seq<Option<string>>, companies: seq<Option<string>>,
                keys: seq<string>, client: string, f: Filter, dir: Direction, i: nat)
    requires i < |keys| && IsCandidate(index, kinds, companies, f, keys[i])
    requires Fault(adj, index, client, dir, Candidates(index, kinds, companies, f, keys[..i])) == None
    requires StepFault(adj, index, client, dir, keys[i]).Some?
    ensures Fault(adj, index, client, dir, Candidates(index, kinds, companies, f, keys))
            == StepFault(adj, index, client, dir, keys[i])
  {
    var cs := Candidates(index, kinds, companies, f, keys[..i + 1]);
    CandidatesSnoc(index, kinds, companies, f, keys, i);
    assert cs[..|cs| - 1] == Candidates(index, kinds, companies, f, keys[..i]);
    CandidatesAppend(index, kinds, companies, f, keys[..i + 1], keys[i + 1..]);
    assert keys[..i + 1] + keys[i + 1..] == keys;
    FaultFirst(adj, index, client, dir, cs, Candidates(index, kinds, companies, f, keys[i + 1..]));
  }

  /**
   * One key of a `find*` loop: when it names a candidate, that candidate's step.
   * The answer is the exception that ends the loop, nothing for a key that is not a
   * candidate, or the candidate's cost, with the loop's account extended by it.
   */
  method Scan(g: Graph, keys: seq<string>, i: nat, client: string, f: Filter, dir: Direction,
              ghost names: seq<string>, ghost index: map<string, nat>, ghost adj: Adj,
              ghost kinds: seq<Option<string>>, ghost companies: seq<Option<string>>,
              ghost cs: seq<string>, ghost costs: seq<Dist>)
    returns (r: Result<Option<Dist>>)
    requires g.Valid() && g.SameTopology(names, index, adj, kinds, companies)
    requires i < |keys| && keys[i] in index
    requires cs == Candidates(index, kinds, companies, f, keys[..i])
    requires costs == Scores(adj, index, client, dir, cs)
    requires Fault(adj, index, client, dir, cs) == None
    modifies g
    ensures g.Valid() && g.SameTopology(names, index, adj, kinds, companies)
    ensures !IsCandidate(index, kinds, companies, f, keys[i]) ==> r == Ok(None) && unchanged(g)
    ensures IsCandidate(index, kinds, companies, f, keys[i]) ==> r.Err? || r.value.Some?
    ensures r.Err? ==> Fault(adj, index, client, dir, Candidates(index, kinds, companies, f, keys)) == Some(r.error)
    ensures r.Ok? ==>
              var cs' := Candidates(index, kinds, companies, f, keys[..i + 1]);
              && Fault(adj, index, client, dir, cs') == None
              && (r.value.None? ==> cs' == cs)
              && (r.value.Some? ==> cs' == cs + [keys[i]]
                                    && Scores(adj, index, client, dir, cs') == costs + [r.value.value])
  {
    var name := keys[i];
    CandidatesSnoc(index, kinds, companies, f, keys, i);
    var v := g.index[name];
    if !Matches(f, g.kinds[v], g.companies[v]) {
      assert cs + [] == cs;
      return Ok(None);
    }
    var c := Measure(g, client, dir, name);
    if c.Err? {
      StopsAt(adj, index, kinds, companies, keys, client, f, dir, i);
      return Err(c.error);
    }
    ScoresSnoc(adj, index, client, dir, cs, name);
    assert (cs + [name])[..|cs|] == cs;
    r := Ok(Some(c.value));
  }

  /**
   * `findNearestTaxi`/`findNearestShop`: for each candidate in key order, a run
   * and a lookup; a cost below the running minimum (which starts at +∞) restarts
   * the list with this candidate, a cost equal to it appends the candidate.
   */
  method FindNearest(g: Graph, keys: seq<string>, client: string, f: Filter, dir: Direction)
    returns (r: Result<seq<string>>)
    requires g.Valid() && forall i :: 0 <= i < |keys| ==> keys[i] in g.index
    modifies g
    ensures g.Valid() && g.SameTopology(old(g.names), old(g.index), old(g.adj), old(g.kinds), old(g.companies))
    ensures r == NearestOutcome(g.adj, g.index, g.kinds, g.companies, keys, client, f, dir)
  {
    ghost var cs: seq<string> := [];
    ghost var costs: seq<Dist> := [];
    ghost var names, index, adj, kinds, companies := g.names, g.index, g.adj, g.kinds, g.companies;
    var minimumCost := Inf;
    var nearest: seq<string> := [];
    var i := 0;
    while i < |keys|
      invariant i <= |keys|
      invariant g.Valid() && g.SameTopology(names, index, adj, kinds, companies)
      invariant cs == Candidates(index, kinds, companies, f, keys[..i])
      invariant costs == Scores(adj, index, client, dir, cs)
      invariant Fault(adj, index, client, dir, cs) == None
      invariant minimumCost == MinCost(costs) && nearest == Nearest(cs, costs)
    {
      var step := Scan(g, keys, i, client, f, dir, names, index, adj, kinds, companies, cs, costs);
      if step.Err? {
        return Err(step.error);
      }
      if step.value.Some? {
        var name, d := keys[i], step.value.value;
        NearestSnoc(cs, costs, name, d);
        MinCostSnoc(costs, d);
        if d.Below(minimumCost) {
          minimumCost := d;
          nearest := [name];
        } else if d == minimumCost {
          nearest := nearest + [name];
        }
        cs, costs := cs + [name], costs + [d];
      }
      i := i + 1;
    }
    assert keys[..i] == keys;
    r := Ok(nearest);
  }

  /**
   * `findTaxi`/`findShop`: the same loop keeping only the first candidate whose
   * cost is strictly below the running minimum; `null` when none is.
   */
  method FindFirst(g: Graph, keys: seq<string>, client: string, f: Filter, dir: Direction)
    returns (r: Result<Option<string>>)
    requires g.Valid() && forall i :: 0 <= i < |keys| ==> keys[i] in g.index
    modifies g
    ensures g.Valid() && g.SameTopology(old(g.names), old(g.index), old(g.adj), old(g.kinds), old(g.companies))
    ensures r == FirstOutcome(g.adj, g.index, g.kinds, g.companies, keys, client, f, dir)
  {
    ghost var cs: seq<string> := [];
    ghost var costs: seq<Dist> := [];
    ghost var names, index, adj, kinds, companies := g.names, g.index, g.adj, g.kinds, g.companies;
    var minimumCost := Inf;
    var nearest: Option<string> := None;
    var i := 0;
    while i < |keys|
      invariant i <= |keys|
      invariant g.Valid() && g.SameTopology(names, index, adj, kinds, companies)
      invariant cs == Candidates(index, kinds, companies, f, keys[..i])
      invariant costs == Scores(adj, index, client, dir, cs)
      invariant Fault(adj, index, client, dir, cs) == None
      invariant minimumCost == MinCost(costs) && nearest == First(cs, costs)
    {
      var step := Scan(g, keys, i, client, f, dir, names, index, adj, kinds, companies, cs, costs);
      if step.Err? {
        return Err(step.error);
      }
      if step.value.Some? {
        var name, d := keys[i], step.value.value;
        FirstSnoc(cs, costs, name, d);
        MinCostSnoc(costs, d);
        if d.Below(minimumCost) {
          minimumCost := d;
          nearest := Some(name);
        }
        cs, costs := cs + [name], costs + [d];
      }
      i := i + 1;
    }
    assert keys[..i] == keys;
    r := Ok(nearest);
  }
}
