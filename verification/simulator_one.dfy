/**
 * `SimulatorOne`: the first simulator. Every vertex of type `Shop` hosts a taxi,
 * whatever its company; it shares `getCost` and `displayPath` with the
 * company-aware simulator (see module `Simulation`).
 */
module SimulatorOne {
  import opened Common
  import opened Graphs
  import opened Simulation

  /** `findNearestTaxi(client)`: every shop nearest to drive from to the client. */
  method FindNearestTaxi(g: Graph, keys: seq<string>, client: string)
    returns (r: Result<seq<string>>)
    requires g.Valid() && forall i :: 0 <= i < |keys| ==> keys[i] in g.index
    modifies g
    ensures g.Valid() && g.SameTopology(old(g.names), old(g.index), old(g.adj), old(g.kinds), old(g.companies))
    ensures r == NearestOutcome(g.adj, g.index, g.kinds, g.companies, keys, client, AnyShop, ToClient)
  {
    r := FindNearest(g, keys, client, AnyShop, ToClient);
  }

  /** `findNearestShop(client)`: every shop nearest to drive to from the client. */
  method FindNearestShop(g: Graph, keys: seq<string>, client: string)
    returns (r: Result<seq<string>>)
    requires g.Valid() && forall i :: 0 <= i < |keys| ==> keys[i] in g.index
    modifies g
    ensures g.Valid() && g.SameTopology(old(g.names), old(g.index), old(g.adj), old(g.kinds), old(g.companies))
    ensures r == NearestOutcome(g.adj, g.index, g.kinds, g.companies, keys, client, AnyShop, FromClient)
  {
    r := FindNearest(g, keys, client, AnyShop, FromClient);
  }

  /** `findTaxi(client)`: the first shop nearest to drive from to the client, if any is reachable. */
  method FindTaxi(g: Graph, keys: seq<string>, client: string)
    returns (r: Result<Option<string>>)
    requires g.Valid() && forall i :: 0 <= i < |keys| ==> keys[i] in g.index
    modifies g
    ensures g.Valid() && g.SameTopology(old(g.names), old(g.index), old(g.adj), old(g.kinds), old(g.companies))
    ensures r == FirstOutcome(g.adj, g.index, g.kinds, g.companies, keys, client, AnyShop, ToClient)
  {
    r := FindFirst(g, keys, client, AnyShop, ToClient);
  }

  /** `findShop(client)`: the first shop nearest to drive to from the client, if any is reachable. */
  method FindShop(g: Graph, keys: seq<string>, client: string)
    returns (r: Result<Option<string>>)
    requires g.Valid() && forall i :: 0 <= i < |keys| ==> keys[i] in g.index
    modifies g
    ensures g.Valid() && g.SameTopology(old(g.names), old(g.index), old(g.adj), old(g.kinds), old(g.companies))
    ensures r == FirstOutcome(g.adj, g.index, g.kinds, g.companies, keys, client, AnyShop, FromClient)
  {
    r := FindFirst(g, keys, client, AnyShop, FromClient);
  }
}
