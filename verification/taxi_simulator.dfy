/**
 * `TaxiSimulator`: the company-aware simulator. Its `find*` operations consider
 * only the shops of the client's chosen company; a taxi waits at each such shop.
 * It also sums the amount a client
 * owes over every nearest taxi and every nearest shop.
 */
module TaxiSimulator {
  import opened Common
  import opened Walks
  import opened Text
  import opened Matching
  import opened Graphs
  import opened Simulation
  import opened Fares

  // ---------------------------------------------------------------------------
  // The find operations, for one company's shops

  /** `findNearestTaxi(client, company)`: every company shop nearest to drive from to the client. */
  method FindNearestTaxi(g: Graph, keys: seq<string>, client: string, company: string)
    returns (r: Result<seq<string>>)
    requires g.Valid() && forall i :: 0 <= i < |keys| ==> keys[i] in g.index
    modifies g
    ensures g.Valid() && g.SameTopology(old(g.names), old(g.index), old(g.adj), old(g.kinds), old(g.companies))
    ensures r == NearestOutcome(g.adj, g.index, g.kinds, g.companies, keys, client, CompanyShop(company), ToClient)
  {
    r := FindNearest(g, keys, client, CompanyShop(company), ToClient);
  }

  /** `findNearestShop(client, company)`: every company shop nearest to drive to from the client. */
  method FindNearestShop(g: Graph, keys: seq<string>, client: string, company: string)
    returns (r: Result<seq<string>>)
    requires g.Valid() && forall i :: 0 <= i < |keys| ==> keys[i] in g.index
    modifies g
    ensures g.Valid() && g.SameTopology(old(g.names), old(g.index), old(g.adj), old(g.kinds), old(g.companies))
    ensures r == NearestOutcome(g.adj, g.index, g.kinds, g.companies, keys, client, CompanyShop(company), FromClient)
  {
    r := FindNearest(g, keys, client, CompanyShop(company), FromClient);
  }

  /** `findTaxi(client, company)`: the first company shop nearest to drive from to the client. */
  method FindTaxi(g: Graph, keys: seq<string>, client: string, company: string)
    returns (r: Result<Option<string>>)
    requires g.Valid() && forall i :: 0 <= i < |keys| ==> keys[i] in g.index
    modifies g
    ensures g.Valid() && g.SameTopology(old(g.names), old(g.index), old(g.adj), old(g.kinds), old(g.companies))
    ensures r == FirstOutcome(g.adj, g.index, g.kinds, g.companies, keys, client, CompanyShop(company), ToClient)
  {
    r := FindFirst(g, keys, client, CompanyShop(company), ToClient);
  }

  /** `findShop(client, company)`: the first company shop nearest to drive to from the client. */
  method FindShop(g: Graph, keys: seq<string>, client: string, company: string)
    returns (r: Result<Option<string>>)
    requires g.Valid() && forall i :: 0 <= i < |keys| ==> keys[i] in g.index
    modifies g
    ensures g.Valid() && g.SameTopology(old(g.names), old(g.index), old(g.adj), old(g.kinds), old(g.companies))
    ensures r == FirstOutcome(g.adj, g.index, g.kinds, g.companies, keys, client, CompanyShop(company), FromClient)
  {
    r := FindFirst(g, keys, client, CompanyShop(company), FromClient);
  }

  // ---------------------------------------------------------------------------
  // The amount due

  /** Every taxi's pick-up cost: the shortest distance from the taxi to the client. */
  ghost function PickUps(adj: Adj, index: map<string, nat>, client: string, taxis: seq<string>): (ds: seq<Dist>)
    requires client in index && forall i :: 0 <= i < |taxis| ==> taxis[i] in index
    ensures |ds| == |taxis| && forall i :: 0 <= i < |taxis| ==> ds[i] == ShortestDist(adj, index[taxis[i]], index[client])
  {
    seq(|taxis|, i requires 0 <= i < |taxis| => ShortestDist(adj, index[taxis[i]], index[client]))
  }

  /** Every shop's drop-off cost: the shortest distance from the client to the shop. */
  ghost function DropOffs(adj: Adj, index: map<string, nat>, client: string, shops: seq<string>): (ds: seq<Dist>)
    requires client in index && forall j :: 0 <= j < |shops| ==> shops[j] in index
    ensures |ds| == |shops| && forall j :: 0 <= j < |shops| ==> ds[j] == ShortestDist(adj, index[client], index[shops[j]])
  {
    seq(|shops|, j requires 0 <= j < |shops| => ShortestDist(adj, index[client], index[shops[j]]))
  }

  /**
   * What the fare loop of `main` computes: with no pair to price, zero; otherwise
   * the first lookup throws for a missing client, a negative edge reachable from a
   * taxi or from the client throws, and else the sum of the fares over all pairs
   * of shortest pick-up and drop-off costs.
   */
  ghost function AmountDueOutcome(adj: Adj, index: map<string, nat>, client: string, company: string,
                                  taxis: seq<string>, shops: seq<string>): Result<Fare>
    requires forall i :: 0 <= i < |taxis| ==> taxis[i] in index
    requires forall j :: 0 <= j < |shops| ==> shops[j] in index
  {
    if taxis == [] || shops == [] then Ok(Amount(0.0))
    else if client !in index then Err(NotFound)
    else if !NegFree(adj, index[client]) || exists i :: 0 <= i < |taxis| && !NegFree(adj, index[taxis[i]]) then
      Err(NegativeEdge)
    else Ok(TotalFare(Rate(company), PickUps(adj, index, client, taxis), DropOffs(adj, index, client, shops)))
  }

  /**
   * The fare loop of `main`: for every nearest taxi and every nearest shop, the
   * fare for the pick-up cost (a run from the taxi) and the drop-off cost (a run
   * from the client), added to a running total that starts at zero.
   */
  method AmountDue(g: Graph, client: string, company: string, taxis: seq<string>, shops: seq<string>)
    returns (r: Result<Fare>)
    requires g.Valid()
    requires forall i :: 0 <= i < |taxis| ==> taxis[i] in g.index
    requires forall j :: 0 <= j < |shops| ==> shops[j] in g.index
    modifies g
    ensures g.Valid() && g.SameTopology(old(g.names), old(g.index), old(g.adj), old(g.kinds), old(g.companies))
    ensures r == AmountDueOutcome(g.adj, g.index, client, company, taxis, shops)
  {
    ghost var names, index, adj, kinds, companies := g.names, g.index, g.adj, g.kinds, g.companies;
    ghost var rate := Rate(company);
    ghost var pickUps, dropOffs: seq<Dist> := [], [];
    if client in index {
      pickUps, dropOffs := PickUps(adj, index, client, taxis), DropOffs(adj, index, client, shops);
    }
    var fare := Amount(0.0);
    var i := 0;
    while i < |taxis|
      invariant i <= |taxis|
      invariant g.Valid() && g.SameTopology(names, index, adj, kinds, companies)
      invariant client !in index ==> fare == Amount(0.0) && (i == 0 || shops == [])
      invariant client in index ==> fare == TotalFare(rate, pickUps[..i], dropOffs)
      invariant client in index && i > 0 && shops != [] ==> NegFree(adj, index[client])
      invariant client in index && shops != [] ==> forall k :: 0 <= k < i ==> NegFree(adj, index[taxis[k]])
    {
      var row := AddRow(g, client, company, taxis[i], shops, fare, names, index, adj, kinds, companies);
      if row.Err? {
        return Err(row.error);
      }
      fare := row.value;
      if client in index {
        PrefixStep(pickUps, i);
        if shops != [] {
          assert forall k :: 0 <= k < i + 1 ==> NegFree(adj, index[taxis[k]]) by {
            assert NegFree(adj, index[taxis[i]]);
          }
        }
      }
      i := i + 1;
    }
    if client in index {
      assert pickUps[..i] == pickUps;
      if shops == [] {
        TotalFareNoShops(rate, pickUps);
      }
    }
    r := Ok(fare);
  }

  /**
   * The inner loop of the fare sum, for one taxi: each shop's fare added in turn
   * to the running total `fare0`.
   */
  method AddRow(g: Graph, client: string, company: string, taxi: string, shops: seq<string>, fare0: Fare,
                ghost names: seq<string>, ghost index: map<string, nat>, ghost adj: Adj,
                ghost kinds: seq<Option<string>>, ghost companies: seq<Option<string>>)
    returns (r: Result<Fare>)
    requires g.Valid() && g.SameTopology(names, index, adj, kinds, companies)
    requires taxi in index && forall j :: 0 <= j < |shops| ==> shops[j] in index
    modifies g
    ensures g.Valid() && g.SameTopology(names, index, adj, kinds, companies)
    ensures r == if shops == [] then Ok(fare0)
                 else if client !in index then Err(NotFound)
                 else if !NegFree(adj, index[taxi]) || !NegFree(adj, index[client]) then Err(NegativeEdge)
                 else Ok(AddFare(fare0, RowFare(Rate(company), ShortestDist(adj, index[taxi], index[client]),
                                                DropOffs(adj, index, client, shops))))
  {
    ghost var rate := Rate(company);
    ghost var pickUp, dropOffs: seq<Dist> := Inf, [];
    if client in index {
      pickUp, dropOffs := ShortestDist(adj, index[taxi], index[client]), DropOffs(adj, index, client, shops);
    }
    ghost var fine := client in index && NegFree(adj, index[taxi]) && NegFree(adj, index[client]);
    AddFareZero(fare0);
    var fare := fare0;
    var j := 0;
    while j < |shops|
      invariant j <= |shops|
      invariant g.Valid() && g.SameTopology(names, index, adj, kinds, companies)
      invariant j == 0 || fine
      invariant fare == AddFare(fare0, RowFare(rate, pickUp, dropOffs[..j]))
    {
      var price := Price(g, client, company, taxi, shops[j], names, index, adj, kinds, companies);
      if price.Err? {
        return Err(price.error);
      }
      PrefixStep(dropOffs, j);
      AddFareAssoc(fare0, RowFare(rate, pickUp, dropOffs[..j]), price.value);
      fare := AddFare(fare, price.value);
      j := j + 1;
    }
    if fine {
      assert dropOffs[..j] == dropOffs;
    }
    r := Ok(fare);
  }

  /**
   * One fare of the sum: `getTaxiFare` of the cost from the taxi to the client and
   * the cost from the client to the shop, each looked up after its own run.
   */
  method Price(g: Graph, client: string, company: string, taxi: string, shop: string,
               ghost names: seq<string>, ghost index: map<string, nat>, ghost adj: Adj,
               ghost kinds: seq<Option<string>>, ghost companies: seq<Option<string>>)
    returns (r: Result<Fare>)
    requires g.Valid() && g.SameTopology(names, index, adj, kinds, companies)
    requires taxi in index && shop in index
    modifies g
    ensures g.Valid() && g.SameTopology(names, index, adj, kinds, companies)
    ensures r == if client !in index then Err(NotFound)
                 else if !NegFree(adj, index[taxi]) || !NegFree(adj, index[client]) then Err(NegativeEdge)
                 else Ok(TaxiFare(ShortestDist(adj, index[taxi], index[client]),
                                  ShortestDist(adj, index[client], index[shop]), company))
  {
    var pickUp := GetCostBetween(g, taxi, client);
    if pickUp.Err? {
      return Err(pickUp.error);
    }
    var dropOff := GetCostBetween(g, client, shop);
    if dropOff.Err? {
      return Err(dropOff.error);
    }
    r := Ok(TaxiFare(pickUp.value, dropOff.value, company));
  }

}
