/**
 * The minimum-cost selection the simulators' `find*` loops perform, stated over
 * the candidates they meet (names, in iteration order) and each one's cost.
 *
 * `Nearest` is what `findNearestTaxi`/`findNearestShop` collect: every candidate
 * whose cost equals the least cost, where `minimumCost` starts at +∞ and +∞ equals
 * +∞. `First` is what `findTaxi`/`findShop` return: the first candidate strictly
 * below the running minimum, which is `null` when no cost is finite.
 */
module Matching {
  import opened Common

  /** The least cost, or +∞ when there are no costs. */
  function MinCost(costs: seq<Dist>): (m: Dist)
    ensures forall i :: 0 <= i < |costs| ==> !costs[i].Below(m)
    ensures m == Inf || exists i :: 0 <= i < |costs| && costs[i] == m
    decreases |costs|
  {
    if costs == [] then Inf
    else
      var n := |costs| - 1;
      var m' := MinCost(costs[..n]);
      assert forall i :: 0 <= i < n ==> costs[..n][i] == costs[i];
      MinDist(m', costs[n])
  }

  /** The candidates whose cost is `m`, in order. */
  function Keep(cs: seq<string>, costs: seq<Dist>, m: Dist): (r: seq<string>)
    requires |cs| == |costs|
    ensures |r| <= |cs|
    ensures forall x :: x in r ==> x in cs
    decreases |cs|
  {
    if cs == [] then []
    else
      var n := |cs| - 1;
      Keep(cs[..n], costs[..n], m) + (if costs[n] == m then [cs[n]] else [])
  }

  /** The candidates that attain the least cost, in order. */
  function Nearest(cs: seq<string>, costs: seq<Dist>): (r: seq<string>)
    requires |cs| == |costs|
    ensures |r| <= |cs|
    ensures forall x :: x in r ==> x in cs
  {
    Keep(cs, costs, MinCost(costs))
  }

  /** The position of the first cost equal to `m`; `|costs|` when there is none. */
  function FirstAt(costs: seq<Dist>, m: Dist): (k: nat)
    ensures k <= |costs|
    ensures forall i :: 0 <= i < k ==> costs[i] != m
    ensures k < |costs| ==> costs[k] == m
    decreases |costs|
  {
    if costs == [] then 0
    else if costs[0] == m then 0
    else 1 + FirstAt(costs[1..], m)
  }

  /** The first candidate of least cost, when that cost is finite. */
  function First(cs: seq<string>, costs: seq<Dist>): (r: Option<string>)
    requires |cs| == |costs|
    ensures r.None? <==> MinCost(costs) == Inf
    ensures r.Some? ==> r.value in cs
  {
    var m := MinCost(costs);
    if m == Inf then None
    else
      var k := FirstAt(costs, m);
      if k < |cs| then Some(cs[k]) else None
  }

  // ---------------------------------------------------------------------------
  // What the selections are

  lemma {:induction false} KeepMember(cs: seq<string>, costs: seq<Dist>, m: Dist, x: string)
    requires |cs| == |costs|
    ensures x in Keep(cs, costs, m) <==> exists i :: 0 <= i < |cs| && cs[i] == x && costs[i] == m
    decreases |cs|
  {
    if cs != [] {
      var n := |cs| - 1;
      KeepMember(cs[..n], costs[..n], m, x);
      if x in Keep(cs, costs, m) && x !in Keep(cs[..n], costs[..n], m) {
        assert cs[n] == x && costs[n] == m;
      }
      if exists i :: 0 <= i < |cs| && cs[i] == x && costs[i] == m {
        var i :| 0 <= i < |cs| && cs[i] == x && costs[i] == m;
        if i < n {
          assert cs[..n][i] == x && costs[..n][i] == m;
        }
      }
    }
  }

  /**
   * A candidate is among the nearest exactly when no candidate costs strictly
   * less than it does.
   */
  lemma NearestMember(cs: seq<string>, costs: seq<Dist>, x: string)
    requires |cs| == |costs|
    ensures x in Nearest(cs, costs) <==>
            exists i :: 0 <= i < |cs| && cs[i] == x && forall j :: 0 <= j < |cs| ==> !costs[j].Below(costs[i])
  {
    var m := MinCost(costs);
    KeepMember(cs, costs, m, x);
    if exists i :: 0 <= i < |cs| && cs[i] == x && forall j :: 0 <= j < |cs| ==> !costs[j].Below(costs[i]) {
      var i :| 0 <= i < |cs| && cs[i] == x && forall j :: 0 <= j < |cs| ==> !costs[j].Below(costs[i]);
      if m != Inf {
        var j :| 0 <= j < |costs| && costs[j] == m;
        assert !costs[j].Below(costs[i]);
      }
      assert costs[i] == m;
    }
  }

  lemma {:induction false} KeepAll(cs: seq<string>, costs: seq<Dist>, m: Dist)
    requires |cs| == |costs| && forall i :: 0 <= i < |costs| ==> costs[i] == m
    ensures Keep(cs, costs, m) == cs
    decreases |cs|
  {
    if cs != [] {
      var n := |cs| - 1;
      KeepAll(cs[..n], costs[..n], m);
      assert cs[..n] + [cs[n]] == cs;
    }
  }

  /**
   * When every candidate is unreachable, all of them are "nearest": the running
   * minimum stays +∞ and every cost equals it.
   */
  lemma NearestAllUnreachable(cs: seq<string>, costs: seq<Dist>)
    requires |cs| == |costs| && forall i :: 0 <= i < |costs| ==> costs[i] == Inf
    ensures Nearest(cs, costs) == cs
  {
    assert MinCost(costs) == Inf;
    KeepAll(cs, costs, Inf);
  }

  /** There is a nearest candidate whenever there is a candidate. */
  lemma NearestNonEmpty(cs: seq<string>, costs: seq<Dist>)
    requires |cs| == |costs| && cs != []
    ensures Nearest(cs, costs) != []
  {
    var m := MinCost(costs);
    var i: nat := 0;
    if m != Inf {
      i :| 0 <= i < |costs| && costs[i] == m;
    } else {
      assert costs[0] == Inf;
    }
    KeepMember(cs, costs, m, cs[i]);
  }

  /** With no cost equal to `m`, nothing is kept. */
  lemma {:induction false} KeepNone(cs: seq<string>, costs: seq<Dist>, m: Dist)
    requires |cs| == |costs| && forall i :: 0 <= i < |costs| ==> costs[i] != m
    ensures Keep(cs, costs, m) == []
    decreases |cs|
  {
    if cs != [] {
      var n := |cs| - 1;
      KeepNone(cs[..n], costs[..n], m);
    }
  }

  /** The first kept candidate sits at the first position of cost `m`. */
  lemma {:induction false} KeepHead(cs: seq<string>, costs: seq<Dist>, m: Dist)
    requires |cs| == |costs| && FirstAt(costs, m) < |cs|
    ensures Keep(cs, costs, m) != [] && Keep(cs, costs, m)[0] == cs[FirstAt(costs, m)]
    decreases |cs|
  {
    var n := |cs| - 1;
    var k := FirstAt(costs, m);
    var k' := FirstAt(costs[..n], m);
    if k' < n {
      assert k' == k;
      KeepHead(cs[..n], costs[..n], m);
    } else {
      assert k == n;
      KeepNone(cs[..n], costs[..n], m);
    }
  }

  /**
   * `findTaxi`/`findShop` answer `null` exactly when no candidate is reachable,
   * and otherwise the first of the candidates `findNearest*` collects.
   */
  lemma FirstIsNearestHead(cs: seq<string>, costs: seq<Dist>)
    requires |cs| == |costs|
    ensures First(cs, costs) == None <==> forall i :: 0 <= i < |costs| ==> costs[i] == Inf
    ensures First(cs, costs).Some? ==> Nearest(cs, costs) != [] && First(cs, costs).value == Nearest(cs, costs)[0]
  {
    var m := MinCost(costs);
    if m != Inf {
      var k := FirstAt(costs, m);
      KeepHead(cs, costs, m);
      assert !costs[k].Below(m);
    } else {
      assert forall i :: 0 <= i < |costs| ==> !costs[i].Below(Inf);
    }
  }

  // ---------------------------------------------------------------------------
  // One more candidate: the loops' steps

  lemma MinCostSnoc(costs: seq<Dist>, d: Dist)
    ensures MinCost(costs + [d]) == MinDist(MinCost(costs), d)
  {
    assert (costs + [d])[..|costs|] == costs;
  }

  /** `if (cost < minimumCost) { clear; add } else if (cost == minimumCost) add`. */
  lemma NearestSnoc(cs: seq<string>, costs: seq<Dist>, c: string, d: Dist)
    requires |cs| == |costs|
    ensures Nearest(cs + [c], costs + [d]) ==
            if d.Below(MinCost(costs)) then [c]
            else if d == MinCost(costs) then Nearest(cs, costs) + [c]
            else Nearest(cs, costs)
  {
    var m := MinCost(costs);
    MinCostSnoc(costs, d);
    var cs', costs' := cs + [c], costs + [d];
    assert cs'[..|cs|] == cs && costs'[..|cs|] == costs;
    if d.Below(m) {
      assert forall i :: 0 <= i < |costs| ==> costs[i] != d by {
        forall i | 0 <= i < |costs|
          ensures costs[i] != d
        {
          assert !costs[i].Below(m);
        }
      }
      KeepNone(cs, costs, d);
    }
  }

  /** `if (cost < minimumCost) nearest = candidate`. */
  lemma FirstSnoc(cs: seq<string>, costs: seq<Dist>, c: string, d: Dist)
    requires |cs| == |costs|
    ensures First(cs + [c], costs + [d]) == if d.Below(MinCost(costs)) then Some(c) else First(cs, costs)
  {
    var m := MinCost(costs);
    MinCostSnoc(costs, d);
    var costs' := costs + [d];
    var n := |costs|;
    if d.Below(m) {
      var k := FirstAt(costs', d);
      assert k == n;
    } else if m != Inf {
      var j :| 0 <= j < n && costs[j] == m;
      var k, k' := FirstAt(costs', m), FirstAt(costs, m);
      assert costs'[j] == m;
      assert k == k';
    }
  }
}
