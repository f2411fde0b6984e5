/**
 * The loop invariant of the lazy-deletion Dijkstra run in `Graph.dijkstra`, stated
 * over plain values, and one lemma per step of the run showing that the step keeps
 * it. `Graphs.Graph.Dijkstra` performs the steps on its fields and calls these
 * lemmas; `Finish` turns the invariant at loop exit into the run's postcondition.
 */
module DijkstraInvariant {
  import opened Common
  import opened Walks

  /** A priority-queue entry: Java's `Path(dest, cost)`. */
  type Entry = (nat, nat)

  /**
   * What a run has in hand between two steps: the vertices' scratch fields, the
   * queue and the processed-vertex counter, and bookkeeping for the proof.
   */
  datatype Run = Run(
    dist: seq<Dist>, prev: seq<Option<nat>>, visited: seq<bool>, tie: seq<bool>,
    pq: multiset<Entry>, nodesSeen: nat,
    front: nat,       // key of the entry most recently taken from the queue
    seen: set<nat>,   // the processed vertices
    via: seq<nat>,    // via[w]: the edge of prev[w] that gave w its distance
    stamp: seq<nat>,  // stamp[u]: the value of nodesSeen when u was processed
    tie0: seq<bool>,  // the tie flags as they were before the run
    cur: nat,         // the vertex whose edges are being relaxed (|adj| when none)
    j: nat)           // edges of cur below j have been relaxed

  ghost predicate Shape(adj: Adj, s: nat, r: Run) {
    && Closed(adj) && s < |adj|
    && |r.dist| == |adj| && |r.prev| == |adj| && |r.visited| == |adj| && |r.tie| == |adj|
    && |r.via| == |adj| && |r.stamp| == |adj| && |r.tie0| == |adj|
  }

  /** Edge `k` of `u` has been relaxed: `u` is processed, and when it is the vertex in
      hand, `k` is below the edge being looked at. */
  ghost predicate Done(visited: seq<bool>, cur: nat, j: nat, u: nat, k: nat) {
    u < |visited| && visited[u] && (u == cur ==> k < j)
  }

  /** Edge `k` of `u` ends at `w` and lies on a shortest route to it, as far as `dist` knows. */
  ghost predicate TightEdge(adj: Adj, dist: seq<Dist>, u: nat, k: nat, w: nat) {
    && u < |adj| && k < |adj[u]| && adj[u][k].0 == w && u < |dist| && w < |dist|
    && dist[u].Fin? && dist[w].Fin? && dist[w].n == dist[u].n + adj[u][k].1
  }

  /**
   * `w` can be reached at its distance in two ways that differ in their last step:
   * over two different edges, or (for the start) by the empty route and an edge.
   */
  ghost predicate Tied(adj: Adj, dist: seq<Dist>, s: nat, w: nat) {
    || (w == s && exists u: nat, k: nat :: TightEdge(adj, dist, u, k, w))
    || (exists u1: nat, k1: nat, u2: nat, k2: nat ::
          TightEdge(adj, dist, u1, k1, w) && TightEdge(adj, dist, u2, k2, w) && (u1 != u2 || k1 != k2))
  }

  /** Entries are never below their vertex's distance nor below the last key taken;
      every unprocessed vertex with a finite distance has an entry at that distance. */
  ghost predicate QueueOk(adj: Adj, dist: seq<Dist>, visited: seq<bool>, pq: multiset<Entry>, front: nat)
    requires |dist| == |visited| == |adj|
  {
    && (forall e :: e in pq ==> e.0 < |adj| && dist[e.0].Fin? && dist[e.0].n <= e.1 && front <= e.1)
    && (forall v :: 0 <= v < |adj| && !visited[v] && dist[v].Fin? ==> (v, dist[v].n) in pq)
  }

  /** Processed vertices have finite distances no larger than the last key taken. */
  ghost predicate SettledOk(adj: Adj, dist: seq<Dist>, visited: seq<bool>, front: nat)
    requires |dist| == |visited| == |adj|
  {
    forall u :: 0 <= u < |adj| && visited[u] ==> dist[u].Fin? && dist[u].n <= front
  }

  ghost predicate CurOk(adj: Adj, dist: seq<Dist>, visited: seq<bool>, front: nat, cur: nat, j: nat)
    requires |dist| == |visited| == |adj|
  {
    cur < |adj| ==> visited[cur] && dist[cur] == Fin(front) && j <= |adj[cur]|
  }

  /** Every relaxed edge is non-negative and its target is no farther than across it. */
  ghost predicate RelaxedOk(adj: Adj, dist: seq<Dist>, visited: seq<bool>, cur: nat, j: nat)
    requires |dist| == |visited| == |adj| && Closed(adj)
  {
    forall u, k :: 0 <= u < |adj| && 0 <= k < |adj[u]| && Done(visited, cur, j, u, k) ==>
      && adj[u][k].1 >= 0 && dist[u].Fin? && dist[adj[u][k].0].Fin?
      && dist[adj[u][k].0].n <= dist[u].n + adj[u][k].1
  }

  /** `prev[w]` is a processed vertex whose relaxed edge `via[w]` gave `w` its distance. */
  ghost predicate PrevLink(adj: Adj, dist: seq<Dist>, prev: seq<Option<nat>>, visited: seq<bool>,
                           via: seq<nat>, stamp: seq<nat>, cur: nat, j: nat, w: nat)
    requires |dist| == |prev| == |visited| == |via| == |stamp| == |adj|
    requires w < |adj| && prev[w].Some?
  {
    var u := prev[w].value;
    && u < |adj| && Done(visited, cur, j, u, via[w]) && via[w] < |adj[u]| && adj[u][via[w]].0 == w
    && dist[u].Fin? && dist[w].Fin? && dist[w].n == dist[u].n + adj[u][via[w]].1
    && (visited[w] ==> stamp[u] < stamp[w])
  }

  ghost predicate ChainOk(adj: Adj, s: nat, dist: seq<Dist>, prev: seq<Option<nat>>, visited: seq<bool>,
                          via: seq<nat>, stamp: seq<nat>, nodesSeen: nat, cur: nat, j: nat)
    requires |dist| == |prev| == |visited| == |via| == |stamp| == |adj| && s < |adj|
  {
    && dist[s] == Fin(0) && prev[s] == None
    && (forall w :: 0 <= w < |adj| && prev[w].None? ==> w == s || dist[w] == Inf)
    && (forall w :: 0 <= w < |adj| && prev[w].Some? ==> PrevLink(adj, dist, prev, visited, via, stamp, cur, j, w))
    && (forall u :: 0 <= u < |adj| && visited[u] ==> stamp[u] < nodesSeen)
  }

  ghost predicate CountOk(adj: Adj, visited: seq<bool>, seen: set<nat>, nodesSeen: nat)
    requires |visited| == |adj|
  {
    && (forall u: nat :: u in seen <==> u < |adj| && visited[u])
    && |seen| == nodesSeen <= |adj|
  }

  /** Some relaxed edge other than the one `prev`/`via` record is tight at `w`. */
  ghost predicate OtherTight(adj: Adj, dist: seq<Dist>, prev: seq<Option<nat>>, via: seq<nat>,
                             visited: seq<bool>, cur: nat, j: nat, w: nat)
    requires |prev| == |via| == |adj| && w < |adj|
  {
    exists u: nat, k: nat :: Done(visited, cur, j, u, k) && TightEdge(adj, dist, u, k, w)
                             && !(prev[w] == Some(u) && via[w] == k)
  }

  /** The tie flag: the start and untouched vertices keep their old flag unless a
      relaxed edge sets it; any other vertex has it set exactly when a second tight
      edge has been relaxed. */
  ghost predicate TieOk(adj: Adj, s: nat, dist: seq<Dist>, prev: seq<Option<nat>>, via: seq<nat>,
                        visited: seq<bool>, tie: seq<bool>, tie0: seq<bool>, cur: nat, j: nat)
    requires |dist| == |prev| == |via| == |tie| == |tie0| == |adj|
  {
    forall w :: 0 <= w < |adj| ==>
      (tie[w] <==> (tie0[w] && (w == s || dist[w] == Inf)) || OtherTight(adj, dist, prev, via, visited, cur, j, w))
  }

  ghost predicate Inv(adj: Adj, s: nat, r: Run) {
    && Shape(adj, s, r)
    && QueueOk(adj, r.dist, r.visited, r.pq, r.front)
    && SettledOk(adj, r.dist, r.visited, r.front)
    && CurOk(adj, r.dist, r.visited, r.front, r.cur, r.j)
    && RelaxedOk(adj, r.dist, r.visited, r.cur, r.j)
    && ChainOk(adj, s, r.dist, r.prev, r.visited, r.via, r.stamp, r.nodesSeen, r.cur, r.j)
    && CountOk(adj, r.visited, r.seen, r.nodesSeen)
    && TieOk(adj, s, r.dist, r.prev, r.via, r.visited, r.tie, r.tie0, r.cur, r.j)
  }

  /** No vertex is in hand: the run is between two queue removals. */
  ghost predicate Between(adj: Adj, r: Run) {
    r.cur == |adj| && r.j == 0
  }

  // ---------------------------------------------------------------------------
  // Facts the run relies on

  /** The vertex indices below `n`. */
  ghost function Range(n: nat): (r: set<nat>)
    ensures forall u: nat :: u in r <==> u < n
    ensures |r| == n
  {
    if n == 0 then {} else Range(n - 1) + {n - 1}
  }

  lemma SubsetCard(a: set<nat>, b: set<nat>)
    requires a <= b
    ensures |a| <= |b|
    ensures |a| == |b| ==> a == b
  {
    assert b == a + (b - a);
  }

  /** A set of vertex indices holds at most `n` of them, and all of them when it holds `n`. */
  lemma CountBound(seen: set<nat>, n: nat)
    requires forall u :: u in seen ==> u < n
    ensures |seen| <= n
    ensures |seen| == n ==> forall u: nat :: u < n ==> u in seen
  {
    SubsetCard(seen, Range(n));
  }

  /** A non-empty queue has an entry of least cost. */
  lemma {:induction false} MinEntryExists(pq: multiset<Entry>)
    requires pq != multiset{}
    ensures exists e :: IsMin(pq, e)
  {
    var x :| x in pq;
    var rest := pq - multiset{x};
    assert pq == rest + multiset{x};
    if rest == multiset{} {
      assert forall e' :: e' in pq ==> e' == x;
      assert IsMin(pq, x);
    } else {
      MinEntryExists(rest);
      var m :| IsMin(rest, m);
      assert forall e' :: e' in pq ==> e' == x || e' in rest;
      if x.1 < m.1 {
        assert IsMin(pq, x);
      } else {
        assert IsMin(pq, m);
      }
    }
  }

  // ---------------------------------------------------------------------------
  // The steps

  /** The state right after `clearAll`, `pq.add(new Path(start, 0))` and `start.dist = 0`. */
  ghost predicate Started(adj: Adj, s: nat, r: Run) {
    && Shape(adj, s, r)
    && r.pq == multiset{(s, 0)} && r.nodesSeen == 0 && r.front == 0 && r.seen == {}
    && r.tie == r.tie0 && r.cur == |adj| && r.j == 0
    && (forall v :: 0 <= v < |adj| ==>
          r.dist[v] == (if v == s then Fin(0) else Inf) && r.prev[v] == None && !r.visited[v])
  }

  lemma Init(adj: Adj, s: nat, r: Run)
    requires Started(adj, s, r)
    ensures Inv(adj, s, r) && Between(adj, r)
  {
    forall w | 0 <= w < |adj|
      ensures !OtherTight(adj, r.dist, r.prev, r.via, r.visited, r.cur, r.j, w)
    {
    }
    assert |r.seen| == 0;
  }

  /** Removing an entry whose vertex is already processed (the `continue`). */
  ghost function Skip(r: Run, e: Entry): Run {
    r.(pq := r.pq - multiset{e}, front := e.1)
  }

  /** Removing an entry whose vertex is not yet processed, and marking that vertex. */
  ghost function Visit(r: Run, e: Entry): Run
    requires e.0 < |r.visited| && e.0 < |r.stamp|
  {
    r.(pq := r.pq - multiset{e}, front := e.1, visited := r.visited[e.0 := true],
       seen := r.seen + {e.0}, nodesSeen := r.nodesSeen + 1, stamp := r.stamp[e.0 := r.nodesSeen],
       cur := e.0, j := 0)
  }

  /** `e` is an entry of least cost, the one `pq.remove()` may return. */
  predicate IsMin(pq: multiset<Entry>, e: Entry) {
    e in pq && forall e' :: e' in pq ==> e.1 <= e'.1
  }

  lemma PopStale(adj: Adj, s: nat, r: Run, e: Entry)
    requires Inv(adj, s, r) && Between(adj, r) && IsMin(r.pq, e)
    requires e.0 < |adj| && r.visited[e.0]
    ensures Inv(adj, s, Skip(r, e)) && Between(adj, Skip(r, e))
  {
    var r' := Skip(r, e);
    assert QueueOk(adj, r'.dist, r'.visited, r'.pq, r'.front) by {
      forall v | 0 <= v < |adj| && !r.visited[v] && r.dist[v].Fin?
        ensures (v, r.dist[v].n) in r'.pq
      {
        assert (v, r.dist[v].n) != e;
      }
    }
    assert SettledOk(adj, r'.dist, r'.visited, r'.front);
  }

  lemma PopFresh(adj: Adj, s: nat, r: Run, e: Entry)
    requires Inv(adj, s, r) && Between(adj, r) && IsMin(r.pq, e)
    requires e.0 < |adj| && !r.visited[e.0]
    ensures r.dist[e.0] == Fin(e.1) && r.nodesSeen < |adj|
    ensures Inv(adj, s, Visit(r, e))
  {
    var v := e.0;
    assert (v, r.dist[v].n) in r.pq;
    CountBound(r.seen, |adj|);
    assert v !in r.seen;
    var r' := Visit(r, e);
    PopFreshQueue(adj, s, r, e);
    PopFreshRelaxed(adj, s, r, e);
    PopFreshChain(adj, s, r, e);
    PopFreshTie(adj, s, r, e);
    assert CountOk(adj, r'.visited, r'.seen, r'.nodesSeen);
  }

  lemma PopFreshQueue(adj: Adj, s: nat, r: Run, e: Entry)
    requires Inv(adj, s, r) && Between(adj, r) && IsMin(r.pq, e)
    requires e.0 < |adj| && !r.visited[e.0]
    ensures var r' := Visit(r, e);
      && QueueOk(adj, r'.dist, r'.visited, r'.pq, r'.front)
      && SettledOk(adj, r'.dist, r'.visited, r'.front)
      && CurOk(adj, r'.dist, r'.visited, r'.front, r'.cur, r'.j)
  {
    var r' := Visit(r, e);
    assert (e.0, r.dist[e.0].n) in r.pq;
    forall v' | 0 <= v' < |adj| && !r'.visited[v'] && r.dist[v'].Fin?
      ensures (v', r.dist[v'].n) in r'.pq
    {
      assert (v', r.dist[v'].n) != e;
    }
  }

  lemma PopFreshRelaxed(adj: Adj, s: nat, r: Run, e: Entry)
    requires Inv(adj, s, r) && Between(adj, r)
    requires e.0 < |adj| && !r.visited[e.0]
    ensures var r' := Visit(r, e); RelaxedOk(adj, r'.dist, r'.visited, r'.cur, r'.j)
  {
    var r' := Visit(r, e);
    forall u, k | 0 <= u < |adj| && 0 <= k < |adj[u]| && Done(r'.visited, r'.cur, r'.j, u, k)
      ensures Done(r.visited, r.cur, r.j, u, k)
    {
    }
  }

  lemma PopFreshChain(adj: Adj, s: nat, r: Run, e: Entry)
    requires Inv(adj, s, r) && Between(adj, r)
    requires e.0 < |adj| && !r.visited[e.0]
    ensures var r' := Visit(r, e);
      ChainOk(adj, s, r'.dist, r'.prev, r'.visited, r'.via, r'.stamp, r'.nodesSeen, r'.cur, r'.j)
  {
    var r' := Visit(r, e);
    forall w | 0 <= w < |adj| && r.prev[w].Some?
      ensures PrevLink(adj, r'.dist, r'.prev, r'.visited, r'.via, r'.stamp, r'.cur, r'.j, w)
    {
      assert PrevLink(adj, r.dist, r.prev, r.visited, r.via, r.stamp, r.cur, r.j, w);
    }
  }

  lemma PopFreshTie(adj: Adj, s: nat, r: Run, e: Entry)
    requires Inv(adj, s, r) && Between(adj, r)
    requires e.0 < |adj| && !r.visited[e.0]
    ensures var r' := Visit(r, e);
      TieOk(adj, s, r'.dist, r'.prev, r'.via, r'.visited, r'.tie, r'.tie0, r'.cur, r'.j)
  {
    var r' := Visit(r, e);
    DoneSame(r.visited, r.cur, r.j, r'.visited, r'.cur, r'.j, e.0);
    forall w | 0 <= w < |adj|
      ensures OtherTight(adj, r'.dist, r'.prev, r'.via, r'.visited, r'.cur, r'.j, w)
          == OtherTight(adj, r.dist, r.prev, r.via, r.visited, r.cur, r.j, w)
    {
    }
  }

  /** Marking `v` and taking it in hand at edge 0 relaxes no new edge. */
  lemma DoneSame(visited: seq<bool>, cur: nat, j: nat, visited': seq<bool>, cur': nat, j': nat, v: nat)
    requires v < |visited| && !visited[v] && cur == |visited| && j == 0
    requires visited' == visited[v := true] && cur' == v && j' == 0
    ensures forall u: nat, k: nat :: Done(visited', cur', j', u, k) == Done(visited, cur, j, u, k)
  {
  }
  // ---------------------------------------------------------------------------
  // Relaxing edge `j` of the vertex in hand

  /** The vertex in hand has an edge `j` left to relax, and that edge is not negative. */
  ghost predicate CanRelax(adj: Adj, s: nat, r: Run) {
    Inv(adj, s, r) && r.cur < |adj| && r.j < |adj[r.cur]| && adj[r.cur][r.j].1 >= 0
  }

  /** `w.dist > v.dist + cvw`: the target `w` gets the offered distance `nd`, the vertex
      in hand as its predecessor, a fresh queue entry and a cleared tie flag. */
  ghost function Improve(r: Run, w: nat, nd: nat): Run
    requires w < |r.dist| && w < |r.prev| && w < |r.tie| && w < |r.via|
  {
    r.(dist := r.dist[w := Fin(nd)], prev := r.prev[w := Some(r.cur)],
       tie := r.tie[w := false], pq := r.pq + multiset{(w, nd)},
       via := r.via[w := r.j], j := r.j + 1)
  }

  /** `w.dist == v.dist + cvw`: only the target's tie flag is set. */
  ghost function Equal(r: Run, w: nat): Run
    requires w < |r.tie|
  {
    r.(tie := r.tie[w := true], j := r.j + 1)
  }

  /** The edge is passed over. */
  ghost function Next(r: Run): Run {
    r.(j := r.j + 1)
  }

  /** The edge leads to `w` and offers it `nd`. */
  ghost predicate Relaxing(adj: Adj, s: nat, r: Run, w: nat, nd: nat) {
    CanRelax(adj, s, r) && w == adj[r.cur][r.j].0 && nd == r.dist[r.cur].n + adj[r.cur][r.j].1
  }

  lemma ImproveFacts(adj: Adj, s: nat, r: Run, w: nat, nd: nat)
    requires Relaxing(adj, s, r, w, nd) && Fin(nd).Below(r.dist[w])
    ensures !r.visited[w] && w != s && w != r.cur
  {
  }

  lemma RelaxImprove(adj: Adj, s: nat, r: Run, w: nat, nd: nat)
    requires Relaxing(adj, s, r, w, nd) && Fin(nd).Below(r.dist[w])
    ensures Inv(adj, s, Improve(r, w, nd))
  {
    ImproveFacts(adj, s, r, w, nd);
    ImproveQueue(adj, s, r, w, nd);
    ImproveRelaxed(adj, s, r, w, nd);
    ImproveChain(adj, s, r, w, nd);
    ImproveTie(adj, s, r, w, nd);
  }

  lemma ImproveQueue(adj: Adj, s: nat, r: Run, w: nat, nd: nat)
    requires Relaxing(adj, s, r, w, nd) && Fin(nd).Below(r.dist[w])
    requires !r.visited[w] && w != s && w != r.cur
    ensures var r' := Improve(r, w, nd);
      && QueueOk(adj, r'.dist, r'.visited, r'.pq, r'.front)
      && SettledOk(adj, r'.dist, r'.visited, r'.front)
      && CurOk(adj, r'.dist, r'.visited, r'.front, r'.cur, r'.j)
  {
  }

  lemma ImproveRelaxed(adj: Adj, s: nat, r: Run, w: nat, nd: nat)
    requires Relaxing(adj, s, r, w, nd) && Fin(nd).Below(r.dist[w])
    requires !r.visited[w] && w != s && w != r.cur
    ensures var r' := Improve(r, w, nd); RelaxedOk(adj, r'.dist, r'.visited, r'.cur, r'.j)
  {
    var r' := Improve(r, w, nd);
    forall u, k | 0 <= u < |adj| && 0 <= k < |adj[u]| && Done(r'.visited, r'.cur, r'.j, u, k)
      ensures && adj[u][k].1 >= 0 && r'.dist[u].Fin? && r'.dist[adj[u][k].0].Fin?
              && r'.dist[adj[u][k].0].n <= r'.dist[u].n + adj[u][k].1
    {
      if !(u == r.cur && k == r.j) {
        assert Done(r.visited, r.cur, r.j, u, k);
      }
    }
  }

  lemma ImproveChain(adj: Adj, s: nat, r: Run, w: nat, nd: nat)
    requires Relaxing(adj, s, r, w, nd) && Fin(nd).Below(r.dist[w])
    requires !r.visited[w] && w != s && w != r.cur
    ensures var r' := Improve(r, w, nd);
      ChainOk(adj, s, r'.dist, r'.prev, r'.visited, r'.via, r'.stamp, r'.nodesSeen, r'.cur, r'.j)
  {
    var r' := Improve(r, w, nd);
    forall x | 0 <= x < |adj| && r'.prev[x].Some?
      ensures PrevLink(adj, r'.dist, r'.prev, r'.visited, r'.via, r'.stamp, r'.cur, r'.j, x)
    {
      if x != w {
        assert PrevLink(adj, r.dist, r.prev, r.visited, r.via, r.stamp, r.cur, r.j, x);
      }
    }
  }

  lemma ImproveTie(adj: Adj, s: nat, r: Run, w: nat, nd: nat)
    requires Relaxing(adj, s, r, w, nd) && Fin(nd).Below(r.dist[w])
    requires !r.visited[w] && w != s && w != r.cur
    ensures var r' := Improve(r, w, nd);
      TieOk(adj, s, r'.dist, r'.prev, r'.via, r'.visited, r'.tie, r'.tie0, r'.cur, r'.j)
  {
    var r' := Improve(r, w, nd);
    forall x | 0 <= x < |adj|
      ensures r'.tie[x] <==> (r'.tie0[x] && (x == s || r'.dist[x] == Inf))
                             || OtherTight(adj, r'.dist, r'.prev, r'.via, r'.visited, r'.cur, r'.j, x)
    {
      if x == w {
        if OtherTight(adj, r'.dist, r'.prev, r'.via, r'.visited, r'.cur, r'.j, x) {
          var u: nat, k: nat :| Done(r'.visited, r'.cur, r'.j, u, k) && TightEdge(adj, r'.dist, u, k, x)
                                && !(r'.prev[x] == Some(u) && r'.via[x] == k);
          assert Done(r.visited, r.cur, r.j, u, k);
          assert false;
        }
      } else {
        OtherTightImprove(adj, s, r, w, nd, x);
      }
    }
  }

  lemma OtherTightImprove(adj: Adj, s: nat, r: Run, w: nat, nd: nat, x: nat)
    requires Relaxing(adj, s, r, w, nd)
    requires !r.visited[w] && x < |adj| && x != w
    ensures var r' := Improve(r, w, nd);
      OtherTight(adj, r'.dist, r'.prev, r'.via, r'.visited, r'.cur, r'.j, x)
      == OtherTight(adj, r.dist, r.prev, r.via, r.visited, r.cur, r.j, x)
  {
    var r' := Improve(r, w, nd);
    OtherTightFrame(adj, r.dist, r.prev, r.via, r.visited, r.cur, r.j, r'.dist, r'.prev, r'.via,
                    w, x);
  }

  /**
   * Relaxing edge `j` of `cur`, which leads to the unprocessed `w`, leaves the other
   * tight edges into any `x` other than `w` as they were, whatever it does at `w`.
   */
  lemma OtherTightFrame(adj: Adj, dist: seq<Dist>, prev: seq<Option<nat>>, via: seq<nat>,
                        visited: seq<bool>, cur: nat, j: nat,
                        dist': seq<Dist>, prev': seq<Option<nat>>, via': seq<nat>, w: nat, x: nat)
    requires |dist| == |prev| == |via| == |visited| == |dist'| == |prev'| == |via'| == |adj|
    requires cur < |adj| && j < |adj[cur]| && w == adj[cur][j].0 && w < |adj| && !visited[w]
    requires x < |adj| && x != w && prev'[x] == prev[x] && via'[x] == via[x]
    requires forall y :: 0 <= y < |adj| && y != w ==> dist'[y] == dist[y]
    ensures OtherTight(adj, dist', prev', via', visited, cur, j + 1, x)
            == OtherTight(adj, dist, prev, via, visited, cur, j, x)
  {
    if OtherTight(adj, dist', prev', via', visited, cur, j + 1, x) {
      var u: nat, k: nat :| Done(visited, cur, j + 1, u, k) && TightEdge(adj, dist', u, k, x)
                            && !(prev'[x] == Some(u) && via'[x] == k);
      assert Done(visited, cur, j, u, k) && TightEdge(adj, dist, u, k, x);
    }
    if OtherTight(adj, dist, prev, via, visited, cur, j, x) {
      var u: nat, k: nat :| Done(visited, cur, j, u, k) && TightEdge(adj, dist, u, k, x)
                            && !(prev[x] == Some(u) && via[x] == k);
      assert Done(visited, cur, j + 1, u, k) && TightEdge(adj, dist', u, k, x);
    }
  }

  lemma RelaxEqual(adj: Adj, s: nat, r: Run, w: nat, nd: nat)
    requires Relaxing(adj, s, r, w, nd) && r.dist[w] == Fin(nd)
    ensures Inv(adj, s, Equal(r, w))
  {
    RelaxedGrow(adj, r.dist, r.visited, r.cur, r.j);
    ChainGrow(adj, s, r.dist, r.prev, r.visited, r.via, r.stamp, r.nodesSeen, r.cur, r.j);
    if r.prev[w] == Some(r.cur) {
      assert PrevLink(adj, r.dist, r.prev, r.visited, r.via, r.stamp, r.cur, r.j, w);
    }
    EqualTie(adj, s, r.dist, r.prev, r.via, r.visited, r.tie, r.tie0, r.cur, r.j);
  }

  lemma RelaxSkip(adj: Adj, s: nat, r: Run, w: nat, nd: nat)
    requires Relaxing(adj, s, r, w, nd) && !Fin(nd).Below(r.dist[w]) && r.dist[w] != Fin(nd)
    ensures Inv(adj, s, Next(r))
  {
    RelaxedGrow(adj, r.dist, r.visited, r.cur, r.j);
    ChainGrow(adj, s, r.dist, r.prev, r.visited, r.via, r.stamp, r.nodesSeen, r.cur, r.j);
    forall x | 0 <= x < |adj|
      ensures OtherTight(adj, r.dist, r.prev, r.via, r.visited, r.cur, r.j + 1, x)
              == OtherTight(adj, r.dist, r.prev, r.via, r.visited, r.cur, r.j, x)
    {
      OtherTightGrow(adj, r.dist, r.prev, r.via, r.visited, r.cur, r.j, x);
    }
  }

  /** Relaxing an edge that leaves `w` no farther than across it keeps `RelaxedOk`. */
  lemma RelaxedGrow(adj: Adj, dist: seq<Dist>, visited: seq<bool>, cur: nat, j: nat)
    requires Closed(adj) && |dist| == |visited| == |adj| && RelaxedOk(adj, dist, visited, cur, j)
    requires cur < |adj| && visited[cur] && j < |adj[cur]| && adj[cur][j].1 >= 0
    requires dist[cur].Fin? && dist[adj[cur][j].0].Fin?
    requires dist[adj[cur][j].0].n <= dist[cur].n + adj[cur][j].1
    ensures RelaxedOk(adj, dist, visited, cur, j + 1)
  {
    forall u, k | 0 <= u < |adj| && 0 <= k < |adj[u]| && Done(visited, cur, j + 1, u, k)
      ensures && adj[u][k].1 >= 0 && dist[u].Fin? && dist[adj[u][k].0].Fin?
              && dist[adj[u][k].0].n <= dist[u].n + adj[u][k].1
    {
      if !(u == cur && k == j) {
        assert Done(visited, cur, j, u, k);
      }
    }
  }

  /** Relaxing one more edge keeps every predecessor link. */
  lemma ChainGrow(adj: Adj, s: nat, dist: seq<Dist>, prev: seq<Option<nat>>, visited: seq<bool>,
                  via: seq<nat>, stamp: seq<nat>, nodesSeen: nat, cur: nat, j: nat)
    requires |dist| == |prev| == |visited| == |via| == |stamp| == |adj| && s < |adj|
    requires ChainOk(adj, s, dist, prev, visited, via, stamp, nodesSeen, cur, j)
    ensures ChainOk(adj, s, dist, prev, visited, via, stamp, nodesSeen, cur, j + 1)
  {
    forall x | 0 <= x < |adj| && prev[x].Some?
      ensures PrevLink(adj, dist, prev, visited, via, stamp, cur, j + 1, x)
    {
      assert PrevLink(adj, dist, prev, visited, via, stamp, cur, j, x);
    }
  }

  /** Relaxing an edge that is not tight at `x` adds no tight edge into `x`. */
  lemma OtherTightGrow(adj: Adj, dist: seq<Dist>, prev: seq<Option<nat>>, via: seq<nat>,
                       visited: seq<bool>, cur: nat, j: nat, x: nat)
    requires |prev| == |via| == |adj| && x < |adj|
    requires !TightEdge(adj, dist, cur, j, x)
    ensures OtherTight(adj, dist, prev, via, visited, cur, j + 1, x)
            == OtherTight(adj, dist, prev, via, visited, cur, j, x)
  {
    if OtherTight(adj, dist, prev, via, visited, cur, j + 1, x) {
      var u: nat, k: nat :| Done(visited, cur, j + 1, u, k) && TightEdge(adj, dist, u, k, x)
                            && !(prev[x] == Some(u) && via[x] == k);
      assert Done(visited, cur, j, u, k);
    }
  }

  /** A tight edge that is not the predecessor edge sets the tie flag and `TieOk` agrees. */
  lemma EqualTie(adj: Adj, s: nat, dist: seq<Dist>, prev: seq<Option<nat>>, via: seq<nat>,
                 visited: seq<bool>, tie: seq<bool>, tie0: seq<bool>, cur: nat, j: nat)
    requires |dist| == |prev| == |via| == |tie| == |tie0| == |visited| == |adj|
    requires TieOk(adj, s, dist, prev, via, visited, tie, tie0, cur, j)
    requires cur < |adj| && visited[cur] && j < |adj[cur]|
    requires TightEdge(adj, dist, cur, j, adj[cur][j].0)
    requires prev[adj[cur][j].0] == Some(cur) ==> via[adj[cur][j].0] < j
    ensures TieOk(adj, s, dist, prev, via, visited, tie[adj[cur][j].0 := true], tie0, cur, j + 1)
  {
    var w := adj[cur][j].0;
    forall x | 0 <= x < |adj|
      ensures tie[w := true][x] <==> (tie0[x] && (x == s || dist[x] == Inf))
                                     || OtherTight(adj, dist, prev, via, visited, cur, j + 1, x)
    {
      if x == w {
        assert Done(visited, cur, j + 1, cur, j);
      } else {
        OtherTightGrow(adj, dist, prev, via, visited, cur, j, x);
      }
    }
  }

  /** All edges of the vertex in hand are relaxed: it is put down. */
  ghost function Release(adj: Adj, r: Run): Run {
    r.(cur := |adj|, j := 0)
  }

  lemma FinishVertex(adj: Adj, s: nat, r: Run)
    requires Inv(adj, s, r) && r.cur < |adj| && r.j == |adj[r.cur]|
    ensures Inv(adj, s, Release(adj, r)) && Between(adj, Release(adj, r))
  {
    var r' := Release(adj, r);
    forall u, k | 0 <= u < |adj| && 0 <= k < |adj[u]| && Done(r'.visited, r'.cur, r'.j, u, k)
      ensures Done(r.visited, r.cur, r.j, u, k)
    {
    }
    forall x | 0 <= x < |adj| && r.prev[x].Some?
      ensures PrevLink(adj, r'.dist, r'.prev, r'.visited, r'.via, r'.stamp, r'.cur, r'.j, x)
    {
      assert PrevLink(adj, r.dist, r.prev, r.visited, r.via, r.stamp, r.cur, r.j, x);
    }
    forall x | 0 <= x < |adj|
      ensures OtherTight(adj, r'.dist, r'.prev, r'.via, r'.visited, r'.cur, r'.j, x)
              == OtherTight(adj, r.dist, r.prev, r.via, r.visited, r.cur, r.j, x)
    {
      if OtherTight(adj, r'.dist, r'.prev, r'.via, r'.visited, r'.cur, r'.j, x) {
        var u: nat, k: nat :| Done(r'.visited, r'.cur, r'.j, u, k) && TightEdge(adj, r'.dist, u, k, x)
                              && !(r'.prev[x] == Some(u) && r'.via[x] == k);
        assert Done(r.visited, r.cur, r.j, u, k);
      }
    }
  }

  // ---------------------------------------------------------------------------
  // Predecessor chains are shortest routes

  /**
   * What following `prev` back needs: each link is an edge of `adj` whose cost
   * makes up the difference in distance and which comes from a vertex of smaller
   * rank, and the start is the only vertex with a finite distance and no link.
   */
  ghost predicate Linked(adj: Adj, s: nat, dist: seq<Dist>, prev: seq<Option<nat>>, via: seq<nat>,
                         rank: seq<nat>)
    requires |dist| == |prev| == |via| == |rank| == |adj|
  {
    && s < |adj| && dist[s] == Fin(0)
    && (forall w :: 0 <= w < |adj| && prev[w].None? && dist[w].Fin? ==> w == s)
    && (forall w :: 0 <= w < |adj| && prev[w].Some? ==>
          && prev[w].value < |adj| && via[w] < |adj[prev[w].value]|
          && adj[prev[w].value][via[w]].0 == w
          && dist[prev[w].value].Fin? && dist[w].Fin?
          && dist[w].n == dist[prev[w].value].n + adj[prev[w].value][via[w]].1
          && rank[prev[w].value] < rank[w])
  }

  /** How many links the chain back from each vertex has at most. */
  ghost function Ranks(r: Run): (rank: seq<nat>)
    ensures |rank| == |r.visited|
  {
    seq(|r.visited|, w requires 0 <= w < |r.visited| =>
      if r.visited[w] && w < |r.stamp| then r.stamp[w] else r.nodesSeen)
  }

  lemma RanksLinked(adj: Adj, s: nat, r: Run)
    requires Shape(adj, s, r)
    requires ChainOk(adj, s, r.dist, r.prev, r.visited, r.via, r.stamp, r.nodesSeen, r.cur, r.j)
    ensures Linked(adj, s, r.dist, r.prev, r.via, Ranks(r))
    ensures forall w :: 0 <= w < |adj| ==> Ranks(r)[w] <= r.nodesSeen
  {
    var rank := Ranks(r);
    forall w | 0 <= w < |adj| && r.prev[w].Some?
      ensures rank[r.prev[w].value] < rank[w]
    {
      assert PrevLink(adj, r.dist, r.prev, r.visited, r.via, r.stamp, r.cur, r.j, w);
    }
  }

  /**
   * Following `prev` back from a vertex with a finite distance ends at the start,
   * and the vertices met, with the recorded edges, form a route costing that distance.
   */
  lemma {:induction false} ChainRoute(adj: Adj, s: nat, dist: seq<Dist>, prev: seq<Option<nat>>,
                                      via: seq<nat>, rank: seq<nat>, t: nat, fuel: nat)
    returns (p: seq<nat>, ks: seq<nat>)
    requires Closed(adj) && |dist| == |prev| == |via| == |rank| == |adj|
    requires Linked(adj, s, dist, prev, via, rank)
    requires t < |adj| && dist[t].Fin? && fuel >= rank[t]
    ensures Trace(prev, t, fuel) == Some(p)
    ensures RouteFromTo(adj, p, ks, s, t) && RouteCost(adj, p, ks) == dist[t].n
    decreases fuel
  {
    match prev[t]
    case None =>
      EmptyRoute(adj, s);
      p, ks := [t], [];
    case Some(u) =>
      var k := via[t];
      var p', ks' := ChainRoute(adj, s, dist, prev, via, rank, u, fuel - 1);
      ChainLink(adj, s, p', ks', u, t, k);
      p, ks := p' + [t], ks' + [k];
  }

  /** A route to `u` followed by edge `k` of `u`, which leads to `t`, is a route to `t`. */
  lemma ChainLink(adj: Adj, s: nat, p: seq<nat>, ks: seq<nat>, u: nat, t: nat, k: nat)
    requires Closed(adj) && RouteFromTo(adj, p, ks, s, u)
    requires u < |adj| && k < |adj[u]| && adj[u][k].0 == t
    ensures RouteFromTo(adj, p + [t], ks + [k], s, t)
    ensures RouteCost(adj, p + [t], ks + [k]) == RouteCost(adj, p, ks) + adj[u][k].1
  {
    RouteSnoc(adj, p, ks, k);
  }

  /** A negative edge out of a processed vertex is reachable from the start. */
  lemma NegativeEdgeReached(adj: Adj, s: nat, r: Run)
    requires Inv(adj, s, r) && r.cur < |adj| && r.j < |adj[r.cur]| && adj[r.cur][r.j].1 < 0
    ensures !NegFree(adj, s)
  {
    RanksLinked(adj, s, r);
    var p, ks := ChainRoute(adj, s, r.dist, r.prev, r.via, Ranks(r), r.cur, |adj|);
    assert Reaches(adj, s, r.cur);
    assert !NonNegOut(adj, r.cur);
  }

  // ---------------------------------------------------------------------------
  // The run's result

  /**
   * `Trace` from `t` yields the vertices of a route from `s` to `t` costing `d`
   * (parallel edges aside, the route `displayPath` prints).
   */
  ghost predicate ShortestTrace(adj: Adj, prev: seq<Option<nat>>, s: nat, t: nat, d: nat) {
    && Trace(prev, t, |adj|).Some?
    && exists ks :: RouteFromTo(adj, Trace(prev, t, |adj|).value, ks, s, t)
                    && RouteCost(adj, Trace(prev, t, |adj|).value, ks) == d
  }

  /**
   * What a run that meets no negative edge leaves behind: every distance is the
   * shortest route cost; unreachable vertices have no predecessor and the others a
   * predecessor chain along a shortest route. The tie flag of a reachable vertex
   * other than the start is set exactly where two shortest routes differ in their
   * last edge. The start's flag is its old value, or set when some tight edge enters
   * the start (a zero-cost cycle back to it). An unreachable vertex keeps its old flag.
   */
  ghost predicate Solved(adj: Adj, s: nat, dist: seq<Dist>, prev: seq<Option<nat>>,
                         tie: seq<bool>, tie0: seq<bool>)
    requires |dist| == |prev| == |tie| == |tie0| == |adj|
  {
    && NegFree(adj, s)
    && (forall t :: 0 <= t < |adj| ==> dist[t] == ShortestDist(adj, s, t))
    && (forall t :: 0 <= t < |adj| && dist[t].Inf? ==> prev[t].None? && !Reaches(adj, s, t))
    && (forall t :: 0 <= t < |adj| && dist[t].Fin? ==> ShortestTrace(adj, prev, s, t, dist[t].n))
    && (forall t :: 0 <= t < |adj| ==>
          (tie[t] <==> (tie0[t] && (t == s || dist[t] == Inf)) || Tied(adj, dist, s, t)))
  }

  /** The loop has stopped: the queue is empty or every vertex has been counted. */
  ghost predicate Stopped(adj: Adj, r: Run) {
    r.pq == multiset{} || r.nodesSeen >= |adj|
  }

  lemma FinishSettled(adj: Adj, s: nat, r: Run)
    requires Inv(adj, s, r) && Stopped(adj, r)
    ensures forall t :: 0 <= t < |adj| ==> (r.visited[t] <==> r.dist[t].Fin?)
  {
    CountBound(r.seen, |adj|);
    forall t | 0 <= t < |adj| && r.dist[t].Fin?
      ensures r.visited[t]
    {
    }
  }

  /** Every route from the start ends at a processed vertex no farther than its cost. */
  lemma {:induction false} RouteBound(adj: Adj, s: nat, r: Run, p: seq<nat>, ks: seq<nat>)
    requires Inv(adj, s, r) && Between(adj, r)
    requires forall t :: 0 <= t < |adj| ==> (r.visited[t] <==> r.dist[t].Fin?)
    requires IsRoute(adj, p, ks) && p[0] == s
    ensures r.dist[p[|p| - 1]].Fin? && r.dist[p[|p| - 1]].n <= RouteCost(adj, p, ks)
    decreases |ks|
  {
    if ks != [] {
      var m := |ks| - 1;
      RouteBound(adj, s, r, p[..m + 1], ks[..m]);
      assert p[..m + 1][m] == p[m];
      assert Done(r.visited, r.cur, r.j, p[m], ks[m]);
    }
  }

  lemma FinishNegFree(adj: Adj, s: nat, r: Run)
    requires Inv(adj, s, r) && Between(adj, r) && Stopped(adj, r)
    ensures NegFree(adj, s)
  {
    FinishSettled(adj, s, r);
    forall t: nat | Reaches(adj, s, t)
      ensures NonNegOut(adj, t)
    {
      var p, ks :| RouteFromTo(adj, p, ks, s, t);
      RouteBound(adj, s, r, p, ks);
      forall k | 0 <= k < |adj[t]|
        ensures adj[t][k].1 >= 0
      {
        assert Done(r.visited, r.cur, r.j, t, k);
      }
    }
  }

  lemma FinishDist(adj: Adj, s: nat, r: Run, t: nat)
    requires Inv(adj, s, r) && Between(adj, r) && Stopped(adj, r) && t < |adj|
    ensures r.dist[t] == ShortestDist(adj, s, t)
    ensures r.dist[t].Inf? ==> r.prev[t].None? && !Reaches(adj, s, t)
    ensures r.dist[t].Fin? ==> ShortestTrace(adj, r.prev, s, t, r.dist[t].n)
  {
    FinishSettled(adj, s, r);
    if r.dist[t].Fin? {
      RanksLinked(adj, s, r);
      var q, ks := ChainRoute(adj, s, r.dist, r.prev, r.via, Ranks(r), t, |adj|);
      forall p, ks' | RouteFromTo(adj, p, ks', s, t)
        ensures r.dist[t].n <= RouteCost(adj, p, ks')
      {
        RouteBound(adj, s, r, p, ks');
      }
      assert IsShortest(adj, s, t, r.dist[t].n);
      ShortestDistIs(adj, s, t, r.dist[t].n);
    } else {
      if Reaches(adj, s, t) {
        var p, ks :| RouteFromTo(adj, p, ks, s, t);
        RouteBound(adj, s, r, p, ks);
      }
      ShortestDistUnreachable(adj, s, t);
    }
  }

  lemma FinishTie(adj: Adj, s: nat, r: Run, t: nat)
    requires Inv(adj, s, r) && Between(adj, r) && Stopped(adj, r) && t < |adj|
    ensures r.tie[t] <==> (r.tie0[t] && (t == s || r.dist[t] == Inf)) || Tied(adj, r.dist, s, t)
  {
    FinishSettled(adj, s, r);
    var other := OtherTight(adj, r.dist, r.prev, r.via, r.visited, r.cur, r.j, t);
    if other {
      var u: nat, k: nat :| Done(r.visited, r.cur, r.j, u, k) && TightEdge(adj, r.dist, u, k, t)
                            && !(r.prev[t] == Some(u) && r.via[t] == k);
      if t != s {
        assert PrevLink(adj, r.dist, r.prev, r.visited, r.via, r.stamp, r.cur, r.j, t);
        assert TightEdge(adj, r.dist, r.prev[t].value, r.via[t], t);
      }
    }
    if Tied(adj, r.dist, s, t) {
      var u: nat, k: nat :| TightEdge(adj, r.dist, u, k, t) && (t == s ==> r.prev[t] != Some(u))
                            && (t != s ==> !(r.prev[t] == Some(u) && r.via[t] == k));
      assert Done(r.visited, r.cur, r.j, u, k);
    }
  }

  /** At loop exit the invariant gives the run's result. */
  lemma Finish(adj: Adj, s: nat, r: Run)
    requires Inv(adj, s, r) && Between(adj, r) && Stopped(adj, r)
    ensures Solved(adj, s, r.dist, r.prev, r.tie, r.tie0)
  {
    FinishNegFree(adj, s, r);
    forall t | 0 <= t < |adj|
      ensures r.dist[t] == ShortestDist(adj, s, t)
      ensures r.dist[t].Inf? ==> r.prev[t].None? && !Reaches(adj, s, t)
      ensures r.dist[t].Fin? ==> ShortestTrace(adj, r.prev, s, t, r.dist[t].n)
      ensures r.tie[t] <==> (r.tie0[t] && (t == s || r.dist[t] == Inf)) || Tied(adj, r.dist, s, t)
    {
      FinishDist(adj, s, r, t);
      FinishTie(adj, s, r, t);
    }
  }

  /** `Finish`, for the scratch values the run describes. */
  lemma FinishAt(adj: Adj, s: nat, r: Run, dist: seq<Dist>, prev: seq<Option<nat>>, tie: seq<bool>,
                 tie0: seq<bool>)
    requires Inv(adj, s, r) && Between(adj, r) && Stopped(adj, r)
    requires r.dist == dist && r.prev == prev && r.tie == tie && r.tie0 == tie0
    ensures |dist| == |prev| == |tie| == |tie0| == |adj|
    ensures Solved(adj, s, dist, prev, tie, tie0)
  {
    Finish(adj, s, r);
  }
}
