/**
 * The graph store of `Graph.java`: vertices created on first mention, directed
 * weighted edges kept per vertex in insertion order, the per-vertex scratch state a
 * shortest-path run leaves behind, and the lazy-deletion Dijkstra run itself.
 *
 * Java's `Vertex` objects become the indices `0 .. |names| - 1`; `index` is the
 * `vertexMap` from names to vertices. Each per-vertex field is a sequence indexed by
 * vertex: `adj` (the edge lists), `kinds` and `companies` (the `type` and
 * `companyName` tags the simulators set), and the scratch fields `dist`, `prev`,
 * `visited` (Java's `scratch != 0`) and `tie` (Java's `duplicatePathsFound`).
 */
module Graphs {
  import opened Common
  import opened Walks
  import opened DijkstraInvariant

  /** `index` and `names` are inverse to each other: the `vertexMap` of the source. */
  ghost predicate Named(names: seq<string>, index: map<string, nat>) {
    && (forall name :: name in index ==> index[name] < |names| && names[index[name]] == name)
    && (forall v :: 0 <= v < |names| ==> names[v] in index && index[names[v]] == v)
  }

  /** A new name goes at the end of both. */
  lemma NamedSnoc(names: seq<string>, index: map<string, nat>, name: string)
    requires Named(names, index) && name !in index
    ensures Named(names + [name], index[name := |names|])
  {
  }

  /** New vertices have no edges, so edges still stay inside the graph. */
  lemma ClosedSnoc(adj: Adj)
    requires Closed(adj)
    ensures Closed(adj + [[]])
  {
  }

  /** `xs` is `xs0` followed by some number of `blank`s. */
  ghost predicate Grown<T>(xs: seq<T>, xs0: seq<T>, blank: T) {
    && |xs0| <= |xs|
    && (forall u :: 0 <= u < |xs0| ==> xs[u] == xs0[u])
    && (forall u :: |xs0| <= u < |xs| ==> xs[u] == blank)
  }

  /** An edge between two vertices of the graph keeps edges inside it. */
  lemma ClosedAdd(adj: Adj, v: nat, w: nat, cost: int)
    requires Closed(adj) && v < |adj| && w < |adj|
    ensures Closed(adj[v := adj[v] + [(w, cost)]])
  {
  }

  class Graph {
    var names: seq<string>
    var index: map<string, nat>
    var adj: Adj
    var kinds: seq<Option<string>>
    var companies: seq<Option<string>>
    var dist: seq<Dist>
    var prev: seq<Option<nat>>
    var visited: seq<bool>
    var tie: seq<bool>

    /** Every per-vertex field has one entry per vertex, edges stay inside the graph,
        and `index` and `names` are inverse to each other. */
    ghost predicate Valid()
      reads this
    {
      && |adj| == |names| && |kinds| == |names| && |companies| == |names|
      && |dist| == |names| && |prev| == |names| && |visited| == |names| && |tie| == |names|
      && Closed(adj) && Named(names, index)
    }

    /** The parts of the graph no shortest-path run touches. */
    ghost predicate SameTopology(names0: seq<string>, index0: map<string, nat>, adj0: Adj,
                                 kinds0: seq<Option<string>>, companies0: seq<Option<string>>)
      reads this
    {
      names == names0 && index == index0 && adj == adj0 && kinds == kinds0 && companies == companies0
    }

    constructor ()
      ensures Valid() && names == [] && index == map[]
    {
      names, index, adj := [], map[], [];
      kinds, companies := [], [];
      dist, prev, visited, tie := [], [], [], [];
    }

    /** `getVertex`: the vertex named `name`, created with blank state when it is new. */
    method GetVertex(name: string) returns (v: nat)
      requires Valid()
      modifies this
      ensures Valid() && name in index && v == index[name]
      ensures name in old(index) ==> v == old(index)[name] && unchanged(this)
      ensures name !in old(index) ==> v == |old(names)|
      ensures names == old(names) + (if name in old(index) then [] else [name])
      ensures index == old(index)[name := v]
      ensures Grown(adj, old(adj), []) && Grown(kinds, old(kinds), None) && Grown(companies, old(companies), None)
      ensures Grown(dist, old(dist), Inf) && Grown(prev, old(prev), None)
      ensures Grown(visited, old(visited), false) && Grown(tie, old(tie), false)
    {
      if name in index {
        v := index[name];
      } else {
        v := AddVertex(name);
      }
    }

    /** The `new Vertex(name)` branch of `getVertex`: one more vertex, with blank state. */
    method AddVertex(name: string) returns (v: nat)
      requires Valid() && name !in index
      modifies this
      ensures Valid() && v == |old(names)| && names == old(names) + [name] && index == old(index)[name := v]
      ensures adj == old(adj) + [[]] && kinds == old(kinds) + [None] && companies == old(companies) + [None]
      ensures dist == old(dist) + [Inf] && prev == old(prev) + [None]
      ensures visited == old(visited) + [false] && tie == old(tie) + [false]
    {
      v := |names|;
      NamedSnoc(names, index, name);
      ClosedSnoc(adj);
      names, index := names + [name], index[name := v];
      adj, kinds, companies := adj + [[]], kinds + [None], companies + [None];
      dist, prev, visited, tie := dist + [Inf], prev + [None], visited + [false], tie + [false];
    }

    /**
     * `addEdge`: both endpoints exist afterwards, the new ones blank, and the edge
     * is the last entry of the source's list; no other list and no existing
     * vertex's state changes.
     */
    method AddEdge(source: string, dest: string, cost: int)
      requires Valid()
      modifies this
      ensures Valid() && source in index && dest in index
      ensures names == old(names) + (if source in old(index) then [] else [source])
                      + (if dest in old(index) || dest == source then [] else [dest])
      ensures forall name :: name in old(index) ==> name in index && index[name] == old(index)[name]
      ensures Grown(kinds, old(kinds), None) && Grown(companies, old(companies), None)
      ensures Grown(dist, old(dist), Inf) && Grown(prev, old(prev), None)
      ensures Grown(visited, old(visited), false) && Grown(tie, old(tie), false)
      ensures forall u :: 0 <= u < |adj| && u != index[source] ==>
        adj[u] == (if u < |old(adj)| then old(adj)[u] else [])
      ensures adj[index[source]] ==
        (if index[source] < |old(adj)| then old(adj)[index[source]] else []) + [(index[dest], cost)]
    {
      var v := GetVertex(source);
      var w := GetVertex(dest);
      ClosedAdd(adj, v, w, cost);
      adj := adj[v := adj[v] + [(w, cost)]];
    }

    /** The simulators' labelling: a named vertex gets a `type`, and a company when one is given. */
    method Label(name: string, kind: string, company: Option<string>)
      requires Valid()
      modifies this
      ensures Valid()
      ensures names == old(names) && index == old(index) && adj == old(adj)
      ensures dist == old(dist) && prev == old(prev) && visited == old(visited) && tie == old(tie)
      ensures name !in index ==> kinds == old(kinds) && companies == old(companies)
      ensures name in index ==> kinds == old(kinds)[index[name] := Some(kind)]
      ensures name in index ==>
        companies == (if company.Some? then old(companies)[index[name] := company] else old(companies))
    {
      if name in index {
        var v := index[name];
        kinds := kinds[v := Some(kind)];
        if company.Some? {
          companies := companies[v := company];
        }
      }
    }

    /** `Vertex.reset`: no distance, no predecessor, not processed; the tie flag stays. */
    method Reset(v: nat)
      requires Valid() && v < |names|
      modifies this
      ensures Valid() && SameTopology(old(names), old(index), old(adj), old(kinds), old(companies))
      ensures dist == old(dist)[v := Inf] && prev == old(prev)[v := None]
      ensures visited == old(visited)[v := false] && tie == old(tie)
    {
      dist, prev, visited := dist[v := Inf], prev[v := None], visited[v := false];
    }

    /** `clearAll`: every vertex reset, and every tie flag as it was. */
    method ClearAll()
      requires Valid()
      modifies this
      ensures Valid() && SameTopology(old(names), old(index), old(adj), old(kinds), old(companies))
      ensures forall u :: 0 <= u < |names| ==> dist[u] == Inf && prev[u] == None && !visited[u]
      ensures tie == old(tie)
    {
      var i := 0;
      while i < |names|
        invariant 0 <= i <= |names|
        invariant Valid() && SameTopology(old(names), old(index), old(adj), old(kinds), old(companies))
        invariant forall u :: 0 <= u < i ==> dist[u] == Inf && prev[u] == None && !visited[u]
        invariant tie == old(tie)
      {
        Reset(i);
        i := i + 1;
      }
    }

    /**
     * `dijkstra(startName)`. An unknown start throws before anything changes. A
     * negative edge is met (and thrown) exactly when one leaves a vertex reachable
     * from the start; otherwise the run ends `Solved`: shortest distances, shortest
     * predecessor chains, and tie flags as `Solved` describes them.
     */
    method Dijkstra(startName: string) returns (out: Outcome)
      requires Valid()
      modifies this
      ensures Valid() && SameTopology(old(names), old(index), old(adj), old(kinds), old(companies))
      ensures startName !in index ==> out == Fail(NotFound) && unchanged(this)
      ensures startName in index ==> (out == Fail(NegativeEdge) <==> !NegFree(adj, index[startName]))
      ensures startName in index ==> out.Pass? || out == Fail(NegativeEdge)
      ensures out.Pass? ==> Solved(adj, index[startName], dist, prev, tie, old(tie))
    {
      if startName !in index {
        return Fail(NotFound);
      }
      var s := index[startName];
      ClearAll();
      dist := dist[s := Fin(0)];
      out, dist, prev, visited, tie := ShortestPaths(adj, s, dist, prev, visited, tie);
    }
  }

  /**
   * The body of `dijkstra` after the reset: the start at distance 0 is the only
   * queue entry, and entries are taken cheapest first until the queue is empty or
   * every vertex has been processed. It works on the scratch fields' values and
   * hands back their new values, including the partial ones a negative edge leaves.
   */
  method ShortestPaths(adj: Adj, s: nat, dist0: seq<Dist>, prev0: seq<Option<nat>>,
                       visited0: seq<bool>, tie0: seq<bool>)
    returns (out: Outcome, dist: seq<Dist>, prev: seq<Option<nat>>, visited: seq<bool>, tie: seq<bool>)
    requires Closed(adj) && s < |adj|
    requires |dist0| == |prev0| == |visited0| == |tie0| == |adj|
    requires forall v :: 0 <= v < |adj| ==>
               dist0[v] == (if v == s then Fin(0) else Inf) && prev0[v] == None && !visited0[v]
    ensures |dist| == |prev| == |visited| == |tie| == |adj|
    ensures out == Pass || out == Fail(NegativeEdge)
    ensures out == Fail(NegativeEdge) ==> !NegFree(adj, s)
    ensures out == Pass ==> Solved(adj, s, dist, prev, tie, tie0)
  {
    dist, prev, visited, tie := dist0, prev0, visited0, tie0;
    var pq: multiset<Entry> := multiset{(s, 0)};
    var nodesSeen: nat := 0;
    ghost var r := Run(dist, prev, visited, tie, pq, nodesSeen, 0, {},
                       seq(|adj|, _ => 0), seq(|adj|, _ => 0), tie0, |adj|, 0);
    Init(adj, s, r);
    while pq != multiset{} && nodesSeen < |adj|
      invariant r.dist == dist && r.prev == prev && r.visited == visited && r.tie == tie
      invariant r.pq == pq && r.nodesSeen == nodesSeen && r.tie0 == tie0
      invariant Inv(adj, s, r) && Between(adj, r)
      decreases |adj| - nodesSeen, |pq|
    {
      ghost var e;
      out, r, e, dist, prev, visited, tie, pq, nodesSeen := Step(adj, s, r, dist, prev, visited, tie, pq, nodesSeen);
      if out.Fail? {
        return;
      }
    }
    FinishAt(adj, s, r, dist, prev, tie, tie0);
    return Pass, dist, prev, visited, tie;
  }

  /**
   * One turn of `dijkstra`'s `while` loop: take a cheapest entry off the queue;
   * skip it when its vertex is already processed, and otherwise mark the vertex
   * processed and relax its edges.
   */
  method Step(adj: Adj, s: nat, ghost r0: Run, dist0: seq<Dist>, prev0: seq<Option<nat>>,
              visited0: seq<bool>, tie0: seq<bool>, pq0: multiset<Entry>, nodesSeen0: nat)
    returns (out: Outcome, ghost r: Run, ghost e: Entry, dist: seq<Dist>, prev: seq<Option<nat>>,
             visited: seq<bool>, tie: seq<bool>, pq: multiset<Entry>, nodesSeen: nat)
    requires Inv(adj, s, r0) && Between(adj, r0) && pq0 != multiset{} && nodesSeen0 < |adj|
    requires r0.dist == dist0 && r0.prev == prev0 && r0.visited == visited0 && r0.tie == tie0
    requires r0.pq == pq0 && r0.nodesSeen == nodesSeen0
    ensures IsMin(pq0, e) && e.0 < |adj|
    ensures visited0[e.0] ==>
              && out.Pass? && pq == pq0 - multiset{e} && nodesSeen == nodesSeen0
              && dist == dist0 && prev == prev0 && visited == visited0 && tie == tie0
    ensures !visited0[e.0] ==>
              && dist0[e.0] == Fin(e.1) && visited == visited0[e.0 := true] && nodesSeen == nodesSeen0 + 1
    ensures out.Fail? ==> out == Fail(NegativeEdge) && !NegFree(adj, s)
    ensures out.Fail? ==> |dist| == |prev| == |visited| == |tie| == |adj|
    ensures out.Pass? ==> Inv(adj, s, r) && Between(adj, r) && r.tie0 == r0.tie0
    ensures out.Pass? ==> r.dist == dist && r.prev == prev && r.visited == visited && r.tie == tie
    ensures out.Pass? ==> r.pq == pq && r.nodesSeen == nodesSeen
    ensures out.Pass? ==> nodesSeen0 < nodesSeen <= |adj| || (nodesSeen == nodesSeen0 && |pq| < |pq0|)
  {
    r, dist, prev, visited, tie, pq, nodesSeen := r0, dist0, prev0, visited0, tie0, pq0, nodesSeen0;
    MinEntryExists(pq);
    var m :| IsMin(pq, m);
    e := m;
    pq := pq - multiset{m};
    var v := m.0;
    if visited[v] {
      PopStale(adj, s, r, m);
      r := Skip(r, m);
      return Pass, r, e, dist, prev, visited, tie, pq, nodesSeen;
    }
    PopFresh(adj, s, r, m);
    visited := visited[v := true];
    nodesSeen := nodesSeen + 1;
    r := Visit(r, m);
    out, r, dist, prev, tie, pq := RelaxEdges(adj, s, v, r, dist, prev, tie, visited, pq);
  }

  /**
   * The `for (Edge e : v.adj)` loop of `dijkstra`: relax every edge of the vertex
   * `v` just taken from the queue, or stop at the first negative one. It works on
   * the scratch fields' values and hands back their new values, including the
   * partial ones when it stops.
   */
  method RelaxEdges(adj: Adj, s: nat, v: nat, ghost r0: Run, dist0: seq<Dist>, prev0: seq<Option<nat>>,
                    tie0: seq<bool>, visited: seq<bool>, pq0: multiset<Entry>)
    returns (out: Outcome, ghost r: Run, dist: seq<Dist>, prev: seq<Option<nat>>, tie: seq<bool>,
             pq: multiset<Entry>)
    requires v < |adj| && Inv(adj, s, r0) && r0.cur == v && r0.j == 0
    requires r0.dist == dist0 && r0.prev == prev0 && r0.tie == tie0 && r0.visited == visited && r0.pq == pq0
    ensures |dist| == |prev| == |tie| == |adj|
    ensures out.Fail? ==> out == Fail(NegativeEdge) && !NegFree(adj, s)
    ensures out.Pass? ==> Inv(adj, s, r) && Between(adj, r)
    ensures out.Pass? ==> r.dist == dist && r.prev == prev && r.visited == visited && r.tie == tie && r.pq == pq
    ensures out.Pass? ==> r.nodesSeen == r0.nodesSeen && r.tie0 == r0.tie0
  {
    r := r0;
    dist, prev, tie, pq := dist0, prev0, tie0, pq0;
    var j := 0;
    while j < |adj[v]|
      invariant Inv(adj, s, r) && r.cur == v && r.j == j
      invariant r.dist == dist && r.prev == prev && r.visited == visited && r.tie == tie && r.pq == pq
      invariant r.nodesSeen == r0.nodesSeen && r.tie0 == r0.tie0
    {
      if adj[v][j].1 < 0 {
        NegativeEdgeReached(adj, s, r);
        return Fail(NegativeEdge), r, dist, prev, tie, pq;
      }
      r, dist, prev, tie, pq := Relax(adj, s, v, j, r, dist, prev, tie, pq);
      j := j + 1;
    }
    FinishVertex(adj, s, r);
    r := Release(adj, r);
    return Pass, r, dist, prev, tie, pq;
  }

  /**
   * One edge `v -> w` of non-negative cost: a cheaper route through `v` replaces
   * `w`'s distance and predecessor, clears its tie flag and queues it again; a
   * route exactly as cheap sets the tie flag; a dearer one changes nothing.
   */
  method Relax(adj: Adj, s: nat, v: nat, j: nat, ghost r0: Run, dist0: seq<Dist>, prev0: seq<Option<nat>>,
               tie0: seq<bool>, pq0: multiset<Entry>)
    returns (ghost r: Run, dist: seq<Dist>, prev: seq<Option<nat>>, tie: seq<bool>, pq: multiset<Entry>)
    requires CanRelax(adj, s, r0) && r0.cur == v && r0.j == j
    requires r0.dist == dist0 && r0.prev == prev0 && r0.tie == tie0 && r0.pq == pq0
    ensures Inv(adj, s, r) && r.cur == r0.cur && r.j == r0.j + 1
    ensures r.dist == dist && r.prev == prev && r.visited == r0.visited && r.tie == tie && r.pq == pq
    ensures r.nodesSeen == r0.nodesSeen && r.tie0 == r0.tie0
    ensures v < |adj| && j < |adj[v]| && adj[v][j].0 < |dist0| && dist0[v].Fin?
    ensures var w, nd := adj[v][j].0, dist0[v].n + adj[v][j].1;
            if Fin(nd).Below(dist0[w]) then
              dist == dist0[w := Fin(nd)] && prev == prev0[w := Some(v)] && tie == tie0[w := false]
              && pq == pq0 + multiset{(w, nd)}
            else
              dist == dist0 && prev == prev0 && pq == pq0
              && tie == (if dist0[w] == Fin(nd) then tie0[w := true] else tie0)
  {
    r, dist, prev, tie, pq := r0, dist0, prev0, tie0, pq0;
    var w, cvw := adj[v][j].0, adj[v][j].1;
    var nd := dist[v].n + cvw;
    if Fin(nd).Below(dist[w]) {
      RelaxImprove(adj, s, r, w, nd);
      dist, prev := dist[w := Fin(nd)], prev[w := Some(v)];
      pq := pq + multiset{(w, nd)};
      tie := tie[w := false];
      r := Improve(r, w, nd);
    } else if dist[w] == Fin(nd) {
      RelaxEqual(adj, s, r, w, nd);
      tie := tie[w := true];
      r := Equal(r, w);
    } else {
      RelaxSkip(adj, s, r, w, nd);
      r := Next(r);
    }
  }
}
