/**
 * Routes through the graph's adjacency lists, their costs, the shortest distance
 * they define, and the predecessor chains that `displayPath` walks.
 *
 * Vertices are the indices `0 .. |adj| - 1`; `adj[u]` is the list of `u`'s
 * outgoing edges in insertion order, each a pair (destination index, cost).
 */
module Walks {
  import opened Common

  type Adj = seq<seq<(nat, int)>>

  /** Every edge leads to a vertex of the graph. */
  ghost predicate Closed(adj: Adj) {
    forall u, k :: 0 <= u < |adj| && 0 <= k < |adj[u]| ==> adj[u][k].0 < |adj|
  }

  /**
   * A route visits the vertices `p` in order; `ks[i]` says which outgoing edge of
   * `p[i]` leads to `p[i + 1]` (parallel edges may have different costs).
   */
  ghost predicate IsRoute(adj: Adj, p: seq<nat>, ks: seq<nat>) {
    && |p| == |ks| + 1
    && (forall i :: 0 <= i < |p| ==> p[i] < |adj|)
    && (forall i :: 0 <= i < |ks| ==> ks[i] < |adj[p[i]]| && adj[p[i]][ks[i]].0 == p[i + 1])
  }

  /** The sum of the costs of the edges a route takes. */
  ghost function RouteCost(adj: Adj, p: seq<nat>, ks: seq<nat>): int
    requires IsRoute(adj, p, ks)
    decreases |ks|
  {
    if ks == [] then 0
    else
      var m := |ks| - 1;
      RouteCost(adj, p[..m + 1], ks[..m]) + adj[p[m]][ks[m]].1
  }

  ghost predicate RouteFromTo(adj: Adj, p: seq<nat>, ks: seq<nat>, s: nat, t: nat) {
    IsRoute(adj, p, ks) && p[0] == s && p[|p| - 1] == t
  }

  /** Some route leads from `s` to `t` (the empty route leads from `s` to itself). */
  ghost predicate Reaches(adj: Adj, s: nat, t: nat) {
    exists p, ks :: RouteFromTo(adj, p, ks, s, t)
  }

  /** No outgoing edge of `u` has a negative cost. */
  ghost predicate NonNegOut(adj: Adj, u: nat) {
    u < |adj| && forall k :: 0 <= k < |adj[u]| ==> adj[u][k].1 >= 0
  }

  /** No vertex reachable from `s` has a negative outgoing edge. */
  ghost predicate NegFree(adj: Adj, s: nat) {
    forall t :: Reaches(adj, s, t) ==> NonNegOut(adj, t)
  }

  /** `d` is the cost of some route from `s` to `t`, and no route is cheaper. */
  ghost predicate IsShortest(adj: Adj, s: nat, t: nat, d: int) {
    && (exists p, ks :: RouteFromTo(adj, p, ks, s, t) && RouteCost(adj, p, ks) == d)
    && (forall p, ks :: RouteFromTo(adj, p, ks, s, t) ==> d <= RouteCost(adj, p, ks))
  }

  /**
   * The true shortest-path cost from `s` to `t`: the least route cost when one
   * exists, the sentinel when `t` cannot be reached.
   */
  ghost function ShortestDist(adj: Adj, s: nat, t: nat): Dist {
    if exists d: nat :: IsShortest(adj, s, t, d) then
      var d: nat :| IsShortest(adj, s, t, d);
      Fin(d)
    else
      Inf
  }

  /** A least route cost, once exhibited, is the shortest distance. */
  lemma ShortestDistIs(adj: Adj, s: nat, t: nat, d: nat)
    requires IsShortest(adj, s, t, d)
    ensures ShortestDist(adj, s, t) == Fin(d)
  {
    assert exists x: nat :: IsShortest(adj, s, t, x);
    var e := ShortestDist(adj, s, t).n;
    assert IsShortest(adj, s, t, e);
    var p, ks :| RouteFromTo(adj, p, ks, s, t) && RouteCost(adj, p, ks) == d;
    var q, js :| RouteFromTo(adj, q, js, s, t) && RouteCost(adj, q, js) == e;
    assert e <= d && d <= e;
  }

  /** An unreachable vertex is at the sentinel distance. */
  lemma ShortestDistUnreachable(adj: Adj, s: nat, t: nat)
    requires !Reaches(adj, s, t)
    ensures ShortestDist(adj, s, t) == Inf
  {
  }

  /** Extending a route by one edge of its last vertex adds that edge's cost. */
  lemma RouteSnoc(adj: Adj, p: seq<nat>, ks: seq<nat>, k: nat)
    requires Closed(adj) && IsRoute(adj, p, ks)
    requires k < |adj[p[|p| - 1]]|
    ensures IsRoute(adj, p + [adj[p[|p| - 1]][k].0], ks + [k])
    ensures RouteCost(adj, p + [adj[p[|p| - 1]][k].0], ks + [k])
            == RouteCost(adj, p, ks) + adj[p[|p| - 1]][k].1
  {
    var p', ks' := p + [adj[p[|p| - 1]][k].0], ks + [k];
    assert p'[..|ks|+1] == p && ks'[..|ks|] == ks;
  }

  /** The route that stays at `s`. */
  lemma EmptyRoute(adj: Adj, s: nat)
    requires s < |adj|
    ensures RouteFromTo(adj, [s], [], s, s) && RouteCost(adj, [s], []) == 0
  {
  }

  /**
   * The vertices `displayPath` visits: follow `prev` links back from `v` to a
   * vertex without a predecessor, and list them from there to `v`. The source
   * recurses without bound; `fuel` bounds the number of links followed, and `None`
   * stands for a chain that is longer (only a `prev` cycle makes it so).
   */
  function Trace(prev: seq<Option<nat>>, v: nat, fuel: nat): (r: Option<seq<nat>>)
    ensures r.Some? ==> |r.value| >= 1 && r.value[|r.value| - 1] == v
    ensures r.Some? ==> r.value[0] < |prev| && prev[r.value[0]] == None
    decreases fuel
  {
    if v >= |prev| then None
    else
      match prev[v]
      case None => Some([v])
      case Some(u) =>
        if fuel == 0 then None
        else
          match Trace(prev, u, fuel - 1)
          case None => None
          case Some(p) => Some(p + [v])
  }

  /** Each vertex of a traced chain after the first has the one before it as its predecessor. */
  lemma {:induction false} TraceLinks(prev: seq<Option<nat>>, v: nat, fuel: nat)
    requires Trace(prev, v, fuel).Some?
    ensures forall i :: 0 < i < |Trace(prev, v, fuel).value| ==>
              Trace(prev, v, fuel).value[i] < |prev|
              && prev[Trace(prev, v, fuel).value[i]] == Some(Trace(prev, v, fuel).value[i - 1])
    decreases fuel
  {
    var p := Trace(prev, v, fuel).value;
    match prev[v]
    case None =>
    case Some(u) =>
      TraceLinks(prev, u, fuel - 1);
      var q := Trace(prev, u, fuel - 1).value;
      assert p == q + [v];
  }
}
