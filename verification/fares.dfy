/**
 * `getTaxiFare` and the sums the fare loop of `TaxiSimulator.main` builds from it,
 * over exact reals; `Unbounded` stands for the +∞ a fare reaches when a leg is
 * unreachable.
 */
module Fares {
  import opened Common
  import opened Text

  /** The booking fares, in rand. */
  const QnqBookingFare: real := 14.50
  const ShopifyBookingFare: real := 16.00

  /**
   * A fare in rand. `Unbounded` is the +∞ the source's doubles reach when a leg
   * of the trip is unreachable (its cost is +∞).
   */
  datatype Fare = Amount(value: real) | Unbounded

  /**
   * What a company charges: its booking fare and the share of the pick-up cost the
   * client pays; the drop-off cost is always paid in full. Other names charge nothing.
   */
  function Rate(company: string): (rate: Option<(real, real)>)
    ensures rate.Some? ==> 0.0 < rate.value.0 && 0.0 < rate.value.1 < 1.0
  {
    if EqualsIgnoreCase(company, "QnQ") then Some((QnqBookingFare, 0.2))
    else if EqualsIgnoreCase(company, "Shopify") then Some((ShopifyBookingFare, 0.15))
    else None
  }

  /**
   * The fare for one trip at a rate: the booking fare, the share of the pick-up
   * cost and the whole drop-off cost; nothing without a rate.
   */
  function Charge(rate: Option<(real, real)>, pickUp: Dist, dropOff: Dist): (r: Fare)
    ensures r.Unbounded? <==> rate.Some? && (pickUp.Inf? || dropOff.Inf?)
    ensures rate.Some? && 0.0 <= rate.value.1 && r.Amount? ==> rate.value.0 <= r.value
  {
    match rate
    case None => Amount(0.0)
    case Some((booking, share)) =>
      if pickUp.Inf? || dropOff.Inf? then Unbounded
      else Amount(booking + share * pickUp.n as real + dropOff.n as real)
  }

  /** `getTaxiFare(pickUpCost, dropOffCost, company)`. */
  function TaxiFare(pickUp: Dist, dropOff: Dist, company: string): (r: Fare)
    ensures r == Amount(0.0) <==> Rate(company).None?
    ensures r.Unbounded? <==> Rate(company).Some? && (pickUp.Inf? || dropOff.Inf?)
  {
    Charge(Rate(company), pickUp, dropOff)
  }

  /** `fare += x`: a sum with +∞ stays +∞. */
  function AddFare(a: Fare, b: Fare): (r: Fare)
    ensures r.Unbounded? <==> a.Unbounded? || b.Unbounded?
  {
    if a.Unbounded? || b.Unbounded? then Unbounded else Amount(a.value + b.value)
  }

  /** Adding zero changes no fare. */
  lemma AddFareZero(a: Fare)
    ensures AddFare(a, Amount(0.0)) == a
  {
  }

  /** Fares may be summed in any grouping. */
  lemma AddFareAssoc(a: Fare, b: Fare, c: Fare)
    ensures AddFare(AddFare(a, b), c) == AddFare(a, AddFare(b, c))
  {
  }

  /** `a` is no more than `b`, with +∞ above every amount. */
  predicate AtMost(a: Fare, b: Fare) {
    b.Unbounded? || (a.Amount? && a.value <= b.value)
  }

  /**
   * A fare for one of the two companies is at least its booking fare, and grows
   * with each leg's cost; for any other company name it is zero.
   */
  lemma TaxiFareBounds(pickUp: Dist, dropOff: Dist, pickUp': Dist, dropOff': Dist, company: string)
    ensures Rate(company).None? ==> TaxiFare(pickUp, dropOff, company) == Amount(0.0)
    ensures Rate(company).Some? ==> AtMost(Amount(Rate(company).value.0), TaxiFare(pickUp, dropOff, company))
    ensures !pickUp'.Below(pickUp) && !dropOff'.Below(dropOff) ==>
              AtMost(TaxiFare(pickUp, dropOff, company), TaxiFare(pickUp', dropOff', company))
  {
  }

  /** The company is matched up to case: two spellings of one name are charged alike. */
  lemma TaxiFareIgnoresCase(pickUp: Dist, dropOff: Dist, company: string, company': string)
    requires EqualsIgnoreCase(company, company')
    ensures TaxiFare(pickUp, dropOff, company) == TaxiFare(pickUp, dropOff, company')
  {
    EqualsIgnoreCaseEquivalence(company, company', "QnQ");
    EqualsIgnoreCaseEquivalence(company', company, "QnQ");
    EqualsIgnoreCaseEquivalence(company, company', "Shopify");
    EqualsIgnoreCaseEquivalence(company', company, "Shopify");
  }

  /** The fares at `rate` for one pick-up cost and each drop-off cost, summed in order from zero. */
  function RowFare(rate: Option<(real, real)>, pickUp: Dist, dropOffs: seq<Dist>): (r: Fare)
    ensures r.Unbounded? ==> rate.Some? && |dropOffs| > 0
    decreases |dropOffs|
  {
    if dropOffs == [] then Amount(0.0)
    else
      var n := |dropOffs| - 1;
      AddFare(RowFare(rate, pickUp, dropOffs[..n]), Charge(rate, pickUp, dropOffs[n]))
  }

  /** The fares at `rate` for every pick-up cost and every drop-off cost, summed row by row from zero. */
  function TotalFare(rate: Option<(real, real)>, pickUps: seq<Dist>, dropOffs: seq<Dist>): (r: Fare)
    ensures r.Unbounded? ==> rate.Some? && |pickUps| > 0 && |dropOffs| > 0
    decreases |pickUps|
  {
    if pickUps == [] then Amount(0.0)
    else
      var n := |pickUps| - 1;
      AddFare(TotalFare(rate, pickUps[..n], dropOffs), RowFare(rate, pickUps[n], dropOffs))
  }
  // ---------------------------------------------------------------------------
  // The amount due in closed form

  /** With no shop there is nothing to price. */
  lemma {:induction false} TotalFareNoShops(rate: Option<(real, real)>, pickUps: seq<Dist>)
    ensures TotalFare(rate, pickUps, []) == Amount(0.0)
    decreases |pickUps|
  {
    if pickUps != [] {
      TotalFareNoShops(rate, pickUps[..|pickUps| - 1]);
    }
  }

  predicate AllFinite(ds: seq<Dist>) {
    forall i :: 0 <= i < |ds| ==> ds[i].Fin?
  }

  /** The sum of the costs, all of them finite. */
  function Sum(ds: seq<Dist>): real
    requires AllFinite(ds)
    decreases |ds|
  {
    if ds == [] then 0.0
    else
      var n := |ds| - 1;
      Sum(ds[..n]) + ds[n].n as real
  }

  /** `k` copies of `x`, summed. */
  function Rep(k: nat, x: real): real {
    if k == 0 then 0.0 else Rep(k - 1, x) + x
  }

  // The fare sums as sums of copies: every step below adds terms and multiplies
  // nothing new, so these inductions stay linear.

  /** One row: one copy of the booking fare and pick-up share per shop, and every drop-off cost. */
  lemma {:induction false} RowFareCopies(booking: real, share: real, pickUp: Dist, dropOffs: seq<Dist>)
    requires pickUp.Fin? && AllFinite(dropOffs)
    ensures RowFare(Some((booking, share)), pickUp, dropOffs) ==
            Amount(Rep(|dropOffs|, booking + share * pickUp.n as real) + Sum(dropOffs))
    decreases |dropOffs|
  {
    if dropOffs != [] {
      assert AllFinite(dropOffs[..|dropOffs| - 1]);
      RowFareCopies(booking, share, pickUp, dropOffs[..|dropOffs| - 1]);
    }
  }

  /** One more row added to a finite total. */
  lemma TotalFareStep(rate: Option<(real, real)>, pickUps: seq<Dist>, dropOffs: seq<Dist>, total: real, row: real)
    requires pickUps != []
    requires TotalFare(rate, pickUps[..|pickUps| - 1], dropOffs) == Amount(total)
    requires RowFare(rate, pickUps[|pickUps| - 1], dropOffs) == Amount(row)
    ensures TotalFare(rate, pickUps, dropOffs) == Amount(total + row)
  {
  }

  // The arithmetic, on values: no fare function is unfolded here.

  lemma {:induction false} RepTimes(k: nat, x: real)
    ensures Rep(k, x) == k as real * x
  {
    if k > 0 {
      RepTimes(k - 1, x);
      Distribute((k - 1) as real, k as real, x);
    } else {
      Distribute(-1.0, k as real, x);
    }
  }

  lemma Distribute(a: real, a': real, x: real)
    requires a' == a + 1.0
    ensures a' * x == a * x + x
  {
  }

  /** The copies of a row, counted out. */
  lemma RowValue(f: Fare, k: nat, x: real, D: real)
    requires f == Amount(Rep(k, x) + D)
    ensures f == Amount(k as real * x + D)
  {
    RepTimes(k, x);
  }

  // The closed forms.

  /** What one taxi's row comes to: `|dropOffs|` booking fares and pick-up shares, and every drop-off cost. */
  function RowAmount(booking: real, share: real, pickUp: Dist, dropOffs: seq<Dist>): real
    requires pickUp.Fin? && AllFinite(dropOffs)
  {
    |dropOffs| as real * (booking + share * pickUp.n as real) + Sum(dropOffs)
  }

  /** One row in closed form, when every leg is reachable and the company has a rate. */
  lemma RowFareClosedForm(booking: real, share: real, pickUp: Dist, dropOffs: seq<Dist>)
    requires pickUp.Fin? && AllFinite(dropOffs)
    ensures RowFare(Some((booking, share)), pickUp, dropOffs) == Amount(RowAmount(booking, share, pickUp, dropOffs))
  {
    RowFareCopies(booking, share, pickUp, dropOffs);
    RowValue(RowFare(Some((booking, share)), pickUp, dropOffs), |dropOffs|,
             booking + share * pickUp.n as real, Sum(dropOffs));
  }

  /** What all rows come to: each taxi's `RowAmount`, summed over the taxis. */
  function TotalAmount(booking: real, share: real, pickUps: seq<Dist>, dropOffs: seq<Dist>): real
    requires AllFinite(pickUps) && AllFinite(dropOffs)
    decreases |pickUps|
  {
    if pickUps == [] then 0.0
    else
      var n := |pickUps| - 1;
      TotalAmount(booking, share, pickUps[..n], dropOffs) + RowAmount(booking, share, pickUps[n], dropOffs)
  }

  /** The amount due in closed form, when every leg is reachable and the company has a rate. */
  lemma {:induction false} TotalFareClosedForm(booking: real, share: real, pickUps: seq<Dist>, dropOffs: seq<Dist>)
    requires AllFinite(pickUps) && AllFinite(dropOffs)
    ensures TotalFare(Some((booking, share)), pickUps, dropOffs) == Amount(TotalAmount(booking, share, pickUps, dropOffs))
    decreases |pickUps|
  {
    if pickUps != [] {
      var n := |pickUps| - 1;
      assert AllFinite(pickUps[..n]);
      TotalFareClosedForm(booking, share, pickUps[..n], dropOffs);
      RowFareClosedForm(booking, share, pickUps[n], dropOffs);
      TotalFareStep(Some((booking, share)), pickUps, dropOffs, TotalAmount(booking, share, pickUps[..n], dropOffs),
                    RowAmount(booking, share, pickUps[n], dropOffs));
    }
  }

  /** Without a rate (a company other than QnQ and Shopify) nothing is due. */
  lemma {:induction false} TotalFareZero(pickUps: seq<Dist>, dropOffs: seq<Dist>)
    ensures TotalFare(None, pickUps, dropOffs) == Amount(0.0)
    decreases |pickUps|
  {
    if pickUps != [] {
      var n := |pickUps| - 1;
      TotalFareZero(pickUps[..n], dropOffs);
      RowFareZero(pickUps[n], dropOffs);
    }
  }

  lemma {:induction false} RowFareZero(pickUp: Dist, dropOffs: seq<Dist>)
    ensures RowFare(None, pickUp, dropOffs) == Amount(0.0)
    decreases |dropOffs|
  {
    if dropOffs != [] {
      RowFareZero(pickUp, dropOffs[..|dropOffs| - 1]);
    }
  }

  /** With a rate, a single unreachable leg makes the amount due +∞, whatever else is summed. */
  lemma {:induction false} TotalFareUnbounded(rate: Option<(real, real)>, pickUps: seq<Dist>, dropOffs: seq<Dist>,
                                              i: nat, j: nat)
    requires rate.Some? && i < |pickUps| && j < |dropOffs|
    requires pickUps[i].Inf? || dropOffs[j].Inf?
    ensures TotalFare(rate, pickUps, dropOffs) == Unbounded
    decreases |pickUps|
  {
    var n := |pickUps| - 1;
    if i < n {
      TotalFareUnbounded(rate, pickUps[..n], dropOffs, i, j);
    } else {
      RowFareUnbounded(rate, pickUps[i], dropOffs, j);
    }
  }

  lemma {:induction false} RowFareUnbounded(rate: Option<(real, real)>, pickUp: Dist, dropOffs: seq<Dist>, j: nat)
    requires rate.Some? && j < |dropOffs|
    requires pickUp.Inf? || dropOffs[j].Inf?
    ensures RowFare(rate, pickUp, dropOffs) == Unbounded
    decreases |dropOffs|
  {
    var n := |dropOffs| - 1;
    if j < n {
      RowFareUnbounded(rate, pickUp, dropOffs[..n], j);
    }
  }
}
