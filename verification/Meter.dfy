/**
 The surcharge arithmetic of a reservation (paymgr/utils.go).

 A payment carries a petty amount, meant for the final recipient, and a surcharge
 of `ppp` for every started `period` of petty amount. The payer knows the petty amount
 and computes the gross; the payee sees the gross and recovers the petty amount.
 */
module Meter {
  import opened Arithmetic

  newtype CurrencyID = x: int | 0 <= x < 256

  /** Price-per-period and period in some currency, as in a pay offer. */
  datatype Price = Price(currency: CurrencyID, ppp: nat, period: nat)

  /** Running totals of one direction of one reservation, in the currency of its channel. */
  datatype Tally = Tally(currency: CurrencyID, petty: int, surcharge: int) {
    function Total(): int { petty + surcharge }
  }

  /** Both parts zero or both positive: what Reserve accepts as a price. */
  predicate WellFormed(price: Price) {
    (price.ppp == 0 && price.period == 0) || (price.ppp > 0 && price.period > 0)
  }

  /** A price that has passed that check. */
  type CheckedPrice = p: Price | WellFormed(p) witness Price(0, 0, 0)

  // ---------------------------------------------------------------- the unit-by-unit meter

  /** A meter that counts single units: what is booked, and what is still due in this period. */
  datatype Dial = Dial(tally: Tally, dueSurcharge: nat, duePetty: nat)

  /** The next unit pays what is due, surcharge before petty; with nothing due a period starts. */
  function Tick(price: Price, d: Dial): Dial {
    if price.ppp == 0 then d.(tally := Tally(price.currency, d.tally.petty + 1, d.tally.surcharge))
    else if d.dueSurcharge > 0 then
      Dial(Tally(price.currency, d.tally.petty, d.tally.surcharge + 1), d.dueSurcharge - 1, d.duePetty)
    else if d.duePetty > 0 then
      Dial(Tally(price.currency, d.tally.petty + 1, d.tally.surcharge), 0, d.duePetty - 1)
    else
      Dial(Tally(price.currency, d.tally.petty, d.tally.surcharge + 1), price.ppp - 1, price.period)
  }

  /** n units, one at a time, on a fresh meter. */
  function Ticks(price: Price, n: nat): Dial {
    if n == 0 then Dial(Tally(price.currency, 0, 0), 0, 0) else Tick(price, Ticks(price, n - 1))
  }

  // ---------------------------------------------------------------- the closed form

  /** The tally after a total gross amount g: the surcharge of a period first, then its petty
      amount, then the next period. */
  function At(price: Price, g: int): (t: Tally)
    decreases if g < 0 then 0 else g
  {
    if price.ppp == 0 then Tally(price.currency, g, 0)
    else if g <= price.ppp then Tally(price.currency, 0, g)
    else if g <= price.ppp + price.period then Tally(price.currency, g - price.ppp, price.ppp)
    else
      var t := At(price, g - (price.ppp + price.period));
      Tally(price.currency, t.petty + price.period, t.surcharge + price.ppp)
  }

  /** The meter keeps every unit of money. */
  lemma {:induction false} AtTotal(price: Price, g: int)
    ensures At(price, g).Total() == g
    decreases if g < 0 then 0 else g
  {
    if price.ppp > 0 && g > price.ppp + price.period {
      AtTotal(price, g - (price.ppp + price.period));
    }
  }

  /** A tally that the meter can show. */
  predicate Metered(price: Price, t: Tally) {
    0 <= t.Total() && t == At(price, t.Total())
  }

  /** q complete big periods of `ppp + period` units, then r units of the next. */
  function Parts(price: Price, q: int, r: int): Tally {
    Tally(price.currency, q * price.period + (if r > price.ppp then r - price.ppp else 0),
          q * price.ppp + (if r < price.ppp then r else price.ppp))
  }

  lemma PartsWrap(price: Price, q: int)
    ensures Parts(price, q, price.ppp + price.period) == Parts(price, q + 1, 0)
  {
  }

  /** The closed form of the meter in the whole periods and the rest of the total. */
  lemma {:induction false} AtParts(price: Price, g: int, q: nat, r: int)
    requires price.ppp > 0 && 0 <= r <= price.ppp + price.period
    requires g == q * (price.ppp + price.period) + r
    ensures At(price, g) == Parts(price, q, r)
    decreases q
  {
    var big := price.ppp + price.period;
    if q > 0 {
      assert q * big == (q - 1) * big + big;
      AtParts(price, g - big, q - 1, r);
      PartsWrap(price, q - 1);
      if r == 0 {
        AtParts(price, g, q - 1, big);
      } else {
        assert (q - 1) * big >= 0;
        assert q * price.period == (q - 1) * price.period + price.period;
        assert q * price.ppp == (q - 1) * price.ppp + price.ppp;
      }
    }
  }

  lemma PartsAreMetered(price: Price, q: nat, r: nat)
    requires price.ppp > 0 && r <= price.ppp + price.period
    ensures Parts(price, q, r) == At(price, Parts(price, q, r).Total())
  {
    var g := q * (price.ppp + price.period) + r;
    assert Parts(price, q, r).Total() == g by {
      MulDistributes(q, price.ppp, price.period);
    }
    AtParts(price, g, q, r);
  }

  /** The closed form with the source's own division: petty and surcharge of a total g. */
  lemma AtClosedForm(price: Price, g: nat)
    requires price.ppp > 0
    ensures var big := price.ppp + price.period;
            At(price, g) == Parts(price, g / big, g % big)
  {
    var big := price.ppp + price.period;
    AtParts(price, g, g / big, g % big);
  }

  /** The dial inside period q after r of its units. */
  function DialAt(price: Price, q: nat, r: nat): Dial
    requires r <= price.ppp + price.period
  {
    Dial(Parts(price, q, r),
         if r < price.ppp then price.ppp - r else 0,
         if r < price.ppp then price.period else price.ppp + price.period - r)
  }

  /** One more unit inside a period. */
  lemma TickInside(price: Price, q: nat, r: nat)
    requires price.ppp > 0 && 1 < r <= price.ppp + price.period
    ensures Tick(price, DialAt(price, q, r - 1)) == DialAt(price, q, r)
  {
  }

  /** The first unit of the next period. */
  lemma TickOver(price: Price, q: nat)
    requires price.ppp > 0 && q > 0
    ensures Tick(price, DialAt(price, q - 1, price.ppp + price.period)) == DialAt(price, q, 1)
  {
    PartsWrap(price, q - 1);
  }

  /** The counting meter follows the closed form, also through the end of a period. */
  lemma {:induction false} TicksAt(price: Price, n: nat, q: nat, r: nat)
    requires price.ppp > 0 && 1 <= r <= price.ppp + price.period
    requires n == q * (price.ppp + price.period) + r
    ensures Ticks(price, n) == DialAt(price, q, r)
    decreases q, r
  {
    var big := price.ppp + price.period;
    if r > 1 {
      TicksAt(price, n - 1, q, r - 1);
      TickInside(price, q, r);
    } else if q > 0 {
      assert q * big == (q - 1) * big + big;
      TicksAt(price, n - 1, q - 1, big);
      TickOver(price, q);
    }
  }

  /** The meter refines the unit-by-unit meter: after n units both show the same. */
  lemma {:induction false} TicksShowAt(price: Price, n: nat)
    ensures Ticks(price, n).tally == At(price, n)
  {
    if n > 0 {
      if price.ppp == 0 {
        TicksShowAt(price, n - 1);
      } else {
        var q, r := LastStarted(n, price.ppp + price.period);
        TicksAt(price, n, q, r);
        AtParts(price, n, q, r);
      }
    }
  }

  /** A positive amount lies r units into period q, counting the end of a period to it. */
  lemma LastStarted(n: nat, big: nat) returns (q: nat, r: nat)
    requires n > 0 && big > 0
    ensures 1 <= r <= big && n == q * big + r
  {
    r := CeilDivSplit(n, big);
    CeilDivLeast(n, big, 0);
    q := CeilDiv(n, big) - 1;
  }

  /** The metered tallies are exactly those the unit-by-unit meter shows. */
  lemma MeteredIffShown(price: Price, t: Tally)
    ensures Metered(price, t) <==> exists n: nat :: t == Ticks(price, n).tally
  {
    if Metered(price, t) {
      TicksShowAt(price, t.Total());
    }
    forall n: nat | t == Ticks(price, n).tally
      ensures Metered(price, t)
    {
      TicksShowAt(price, n);
      AtTotal(price, n);
    }
  }

  // ---------------------------------------------------------------- the payee's computation

  /** What the payee books for a gross amount that arrives on top of tally t. */
  function Receive(price: Price, t: Tally, gross: int): Tally {
    At(price, t.Total() + gross)
  }

  /** Phase one tops up the surcharge of the current period. */
  lemma SurchargeGap(price: Price, q: nat, r: nat)
    requires price.ppp > 0 && 1 <= r <= price.ppp + price.period
    ensures var s := Parts(price, q, r).surcharge;
            s > 0 && ((s - 1) / price.ppp + 1) * price.ppp - s == if r < price.ppp then price.ppp - r else 0
  {
    var m := if r < price.ppp then r else price.ppp;
    DivUnique(q, price.ppp, m - 1);
    MulMono(0, q, price.ppp);
    assert (q + 1) * price.ppp == q * price.ppp + price.ppp;
  }

  /** Phase two tops up the petty amount that the surcharge so far has bought. */
  lemma PettyGap(price: Price, q: nat, r: nat)
    requires price.ppp > 0 && price.ppp <= r <= price.ppp + price.period
    ensures var t := Parts(price, q, r);
            (t.surcharge / price.ppp) * price.period - t.petty == price.ppp + price.period - r
  {
    PartsWrap(price, q);
    assert q * price.ppp + price.ppp == (q + 1) * price.ppp + 0;
    DivUnique(q + 1, price.ppp, 0);
  }

  /** Phase three adds n whole big periods. */
  lemma WholePeriods(price: Price, q: nat, n: nat)
    ensures Parts(price, q + n, 0)
         == Tally(price.currency, Parts(price, q, 0).petty + n * price.period, Parts(price, q, 0).surcharge + n * price.ppp)
  {
  }

  /** Splits a total into periods so that the last one is started. */
  lemma LastPeriod(price: Price, t: Tally) returns (q: nat, r: nat)
    requires price.ppp > 0 && Metered(price, t)
    ensures r <= price.ppp + price.period && t.Total() == q * (price.ppp + price.period) + r
    ensures r == 0 ==> q == 0
    ensures t == Parts(price, q, r)
  {
    if t.Total() == 0 {
      q, r := 0, 0;
    } else {
      q, r := LastStarted(t.Total(), price.ppp + price.period);
    }
    AtParts(price, t.Total(), q, r);
  }

  /** First phase: fill up the surcharge of the current period. */
  method FillSurcharge(price: Price, before: Tally, gross: nat, ghost metered: bool, ghost q: nat, ghost r: nat)
    returns (after: Tally, rest: nat, ghost r': nat)
    requires price.ppp > 0
    requires metered ==> r <= price.ppp + price.period && (r == 0 ==> q == 0) && before == Parts(price, q, r)
    ensures after.petty == before.petty && after.Total() + rest == before.Total() + gross
    ensures metered ==> r' <= price.ppp + price.period && after == Parts(price, q, r') && r' + rest == r + gross
    ensures metered && rest > 0 ==> price.ppp <= r'
  {
    var remainder: int;
    r' := r;
    if metered && r > 0 { SurchargeGap(price, q, r); }
    if before.surcharge == 0 {
      remainder := price.ppp;
    } else {
      var temp := before.surcharge - 1;
      temp := temp / price.ppp + 1;
      temp := temp * price.ppp;
      remainder := temp - before.surcharge;
    }
    assert metered ==> remainder == if r < price.ppp then price.ppp - r else 0;
    if remainder >= gross {
      after, rest := Tally(price.currency, before.petty, before.surcharge + gross), 0;
      if metered { r' := r + gross; }
    } else {
      after, rest := Tally(price.currency, before.petty, before.surcharge + remainder), gross - remainder;
      if metered { r' := r + remainder; }
    }
  }

  /** Second phase: fill up the petty amount that the surcharge so far has bought. */
  method FillPeriod(price: Price, before: Tally, gross: nat, ghost metered: bool, ghost q: nat, ghost r: nat)
    returns (after: Tally, rest: nat, ghost r': nat)
    requires price.ppp > 0
    requires metered ==> price.ppp <= r <= price.ppp + price.period && before == Parts(price, q, r)
    ensures after.surcharge == before.surcharge && after.Total() + rest == before.Total() + gross
    ensures metered ==> r' <= price.ppp + price.period && after == Parts(price, q, r') && r' + rest == r + gross
    ensures metered && rest > 0 ==> r' == price.ppp + price.period
  {
    r' := r;
    if metered { PettyGap(price, q, r); }
    var temp := before.surcharge / price.ppp;
    temp := temp * price.period;
    var remainder := temp - before.petty;
    if remainder >= gross {
      after, rest := Tally(price.currency, before.petty + gross, before.surcharge), 0;
      if metered { r' := r + gross; }
    } else {
      after, rest := Tally(price.currency, before.petty + remainder, before.surcharge), gross - remainder;
      if metered { r' := r + remainder; }
    }
  }

  /** Third and last phase: whole big periods, then whatever is left of the gross amount. */
  method FillBigPeriods(price: Price, before: Tally, gross: nat, ghost metered: bool, ghost q: nat)
    returns (after: Tally)
    requires price.ppp > 0
    requires metered ==> before == Parts(price, q, 0)
    ensures after.Total() == before.Total() + gross
    ensures metered ==> after == At(price, after.Total())
  {
    var big := price.period + price.ppp;
    var bigPeriod := gross / big;
    WholePeriods(price, q, bigPeriod);
    after := Tally(price.currency, before.petty + bigPeriod * price.period, before.surcharge + bigPeriod * price.ppp);
    var rest := gross - bigPeriod * big;
    assert 0 <= rest < big;
    assert bigPeriod * big == bigPeriod * price.period + bigPeriod * price.ppp;
    ghost var q' := q + bigPeriod;
    assert metered ==> after == Parts(price, q', 0);
    if rest > 0 {
      if rest >= price.ppp {
        after := Tally(price.currency, after.petty + (rest - price.ppp), after.surcharge + price.ppp);
      } else {
        after := Tally(price.currency, after.petty, after.surcharge + rest);
      }
    }
    if metered { PartsAreMetered(price, q', rest); }
  }

  /** The payee's side: books a gross amount in four phases and reports its petty part. */
  method CalculatePettyAmountToReceive(price: Price, before: Tally, grossAmtReceived: nat)
    returns (after: Tally, pettyAmtToReceive: int)
    ensures after.Total() == before.Total() + grossAmtReceived
    ensures pettyAmtToReceive == after.petty - before.petty
    ensures Metered(price, before) ==> after == Receive(price, before, grossAmtReceived)
  {
    if price.ppp > 0 {
      ghost var metered := Metered(price, before);
      ghost var q: nat, r: nat := 0, 0;
      if metered { q, r := LastPeriod(price, before); }
      var gross: nat;
      after, gross, r := FillSurcharge(price, before, grossAmtReceived, metered, q, r);
      if gross > 0 {
        after, gross, r := FillPeriod(price, after, gross, metered, q, r);
        if gross > 0 {
          if metered { PartsWrap(price, q); }
          after := FillBigPeriods(price, after, gross, metered, q + 1);
        } else if metered {
          PartsAreMetered(price, q, r);
        }
      } else if metered {
        PartsAreMetered(price, q, r);
      }
      pettyAmtToReceive := after.petty - before.petty;
    } else {
      after := Tally(price.currency, before.petty + grossAmtReceived, before.surcharge);
      pettyAmtToReceive := grossAmtReceived;
    }
  }

  // ---------------------------------------------------------------- the payer's computation

  /** The surcharge due on a petty amount: ppp for every started period. */
  function SurchargeOn(price: Price, petty: int): (s: int)
    requires price.ppp > 0 ==> price.period > 0
    decreases if petty < 0 then 0 else petty
  {
    if price.ppp == 0 || petty <= 0 then 0
    else price.ppp + SurchargeOn(price, petty - price.period)
  }

  lemma {:induction false} SurchargeNonNegative(price: Price, petty: int)
    requires price.ppp > 0 ==> price.period > 0
    ensures 0 <= SurchargeOn(price, petty)
    decreases if petty < 0 then 0 else petty
  {
    if price.ppp > 0 && petty > 0 {
      SurchargeNonNegative(price, petty - price.period);
    }
  }

  /** The source's expression for it. */
  lemma {:induction false} SurchargeClosedForm(price: Price, petty: nat)
    requires price.ppp > 0 && price.period > 0
    ensures SurchargeOn(price, petty) == CeilDiv(petty, price.period) * price.ppp
    decreases petty
  {
    CeilDivStep(petty, price.period);
    if petty > price.period {
      SurchargeClosedForm(price, petty - price.period);
      var q := CeilDiv(petty - price.period, price.period);
      assert (q + 1) * price.ppp == q * price.ppp + price.ppp;
    }
  }

  /** The gross amount that buys a petty amount: what Reserve sets aside. */
  function Cost(price: Price, petty: int): int
    requires price.ppp > 0 ==> price.period > 0
  {
    petty + SurchargeOn(price, petty)
  }

  /** The payer's tally once a petty amount has been paid in full. */
  function PaidFor(price: Price, petty: int): Tally
    requires price.ppp > 0 ==> price.period > 0
  {
    Tally(price.currency, petty, SurchargeOn(price, petty))
  }

  /** The payer's totals after one more petty amount. */
  function Pay(price: Price, paid: Tally, x: int): Tally
    requires price.ppp > 0 ==> price.period > 0
  {
    if price.ppp > 0 then PaidFor(price, paid.petty + x) else Tally(price.currency, paid.petty + x, paid.surcharge)
  }

  /** The payer's side: the new totals and the gross amount to pay for one more petty amount. */
  function CalculateGrossAmountToPay(price: Price, paid: Tally, pettyAmtToPay: nat): (r: (Tally, int))
    requires price.ppp > 0 ==> price.period > 0
    requires 0 <= paid.petty
    ensures r.0 == Pay(price, paid, pettyAmtToPay)
    ensures r.1 == r.0.Total() - paid.Total()
  {
    if price.ppp > 0 then
      var expectedAmt := paid.petty + pettyAmtToPay;
      var expectedSurcharge := ((expectedAmt - 1) / price.period + 1) * price.ppp;
      SurchargeClosedForm(price, expectedAmt);
      (Tally(price.currency, expectedAmt, expectedSurcharge), (expectedAmt + expectedSurcharge) - (paid.petty + paid.surcharge))
    else
      (Tally(price.currency, paid.petty + pettyAmtToPay, paid.surcharge), pettyAmtToPay)
  }

  /** What one more unit of gross changes. */
  lemma AtStep(price: Price, g: nat)
    ensures At(price, g + 1) == Tally(price.currency, At(price, g).petty + 1, At(price, g).surcharge)
         || At(price, g + 1) == Tally(price.currency, At(price, g).petty, At(price, g).surcharge + 1)
  {
    TicksShowAt(price, g);
    TicksShowAt(price, g + 1);
  }

  /** More gross never means less petty or less surcharge. */
  lemma {:induction false} AtMono(price: Price, g: nat, g': nat)
    requires g <= g'
    ensures At(price, g).petty <= At(price, g').petty && At(price, g).surcharge <= At(price, g').surcharge
    decreases g'
  {
    if g < g' {
      AtMono(price, g, g' - 1);
      AtStep(price, g' - 1);
    }
  }

  /** Paying the cost of a petty amount shows exactly that amount, and one unit less does not. */
  lemma {:induction false} AtCost(price: Price, petty: nat, g: int)
    requires price.ppp > 0 ==> price.period > 0
    requires g == Cost(price, petty)
    ensures At(price, g) == PaidFor(price, petty)
    ensures petty > 0 ==> At(price, g - 1).petty == petty - 1
    decreases petty
  {
    if price.ppp > 0 && petty > price.period {
      AtCost(price, petty - price.period, g - price.period - price.ppp);
    }
  }

  /** The payer never charges a unit too much or too little: the cost of a petty amount is the
      least gross amount for which the payee credits it. */
  lemma CostIsLeast(price: Price, petty: nat, g: nat)
    requires price.ppp > 0 ==> price.period > 0
    ensures At(price, g).petty >= petty <==> g >= Cost(price, petty)
  {
    var c := Cost(price, petty);
    AtCost(price, petty, c);
    if g >= c {
      AtMono(price, c, g);
    } else if petty > 0 {
      AtMono(price, g, c - 1);
    }
  }

  /** A bigger petty amount costs more: strictly, so a reservation is exact. */
  lemma CostMono(price: Price, x: nat, y: nat)
    requires price.ppp > 0 ==> price.period > 0
    ensures x <= y <==> Cost(price, x) <= Cost(price, y)
  {
    var c := Cost(price, y);
    AtCost(price, y, c);
    CostIsLeast(price, x, c);
  }

  // ---------------------------------------------------------------- runs of payments

  function Sum(xs: seq<nat>): nat {
    if xs == [] then 0 else xs[0] + Sum(xs[1..])
  }

  /** The payer's totals after a run of petty payments. */
  function Payer(price: Price, paid: Tally, xs: seq<nat>): Tally
    requires price.ppp > 0 ==> price.period > 0
    decreases |xs|
  {
    if xs == [] then paid else Payer(price, Pay(price, paid, xs[0]), xs[1..])
  }

  /** The payee's totals after booking every gross amount the payer sent in the same run. */
  function Payee(price: Price, paid: Tally, received: Tally, xs: seq<nat>): Tally
    requires price.ppp > 0 ==> price.period > 0
    decreases |xs|
  {
    if xs == [] then received
    else
      var paid' := Pay(price, paid, xs[0]);
      Payee(price, paid', Receive(price, received, paid'.Total() - paid.Total()), xs[1..])
  }

  lemma PaidForIsMetered(price: Price, petty: nat)
    requires price.ppp > 0 ==> price.period > 0
    ensures Metered(price, PaidFor(price, petty))
  {
    AtCost(price, petty, Cost(price, petty));
    SurchargeNonNegative(price, petty);
  }

  /** Booking a gross amount that completes the cost of a petty amount shows that amount. */
  lemma ReceiveUpTo(price: Price, t: Tally, gross: int, petty: nat, g: int)
    requires price.ppp > 0 ==> price.period > 0
    requires g == t.Total() + gross == Cost(price, petty)
    ensures Receive(price, t, gross) == PaidFor(price, petty)
  {
    AtCost(price, petty, g);
  }

  /** One payment: from equal, fully paid tallies the payee recovers exactly the petty amount. */
  lemma PayReceiveOnce(price: Price, paid: nat, x: nat)
    requires price.ppp > 0 ==> price.period > 0
    ensures var before, after := PaidFor(price, paid), PaidFor(price, paid + x);
            && Pay(price, before, x) == after
            && Metered(price, before)
            && Receive(price, before, after.Total() - before.Total()) == after
  {
    var before, after := PaidFor(price, paid), PaidFor(price, paid + x);
    PaidForIsMetered(price, paid);
    ReceiveUpTo(price, before, after.Total() - before.Total(), paid + x, Cost(price, paid + x));
  }

  /** Along every run of payments at one price the two sides agree on both totals: the petty
      amounts that were meant arrive, and nothing else does. */
  lemma {:induction false} PayReceiveInverse(price: Price, paid: nat, xs: seq<nat>)
    requires price.ppp > 0 ==> price.period > 0
    ensures var start, end := PaidFor(price, paid), PaidFor(price, paid + Sum(xs));
            Payer(price, start, xs) == end && Payee(price, start, start, xs) == end
    decreases |xs|
  {
    if xs != [] {
      PayReceiveOnce(price, paid, xs[0]);
      PayReceiveInverse(price, paid + xs[0], xs[1..]);
    }
  }

  /** Splitting a gross amount changes nothing for the payee. */
  lemma SplitReceive(price: Price, t: Tally, g: nat, h: nat)
    requires Metered(price, t)
    ensures Metered(price, Receive(price, t, g))
    ensures Receive(price, Receive(price, t, g), h) == Receive(price, t, g + h)
    ensures Receive(price, t, g) == Ticks(price, t.Total() + g).tally
  {
    TicksShowAt(price, t.Total() + g);
    AtTotal(price, t.Total() + g);
  }

  // ---------------------------------------------------------------- two prices

  /** The surcharge that comes with a petty amount is never below what is due on it. */
  lemma ShownSurchargeCovers(price: Price, g: nat)
    requires price.ppp > 0 ==> price.period > 0
    ensures At(price, g).surcharge >= SurchargeOn(price, At(price, g).petty)
    ensures At(price, g).petty >= 0
  {
  }

  /** A higher ppp and a period no longer cost at least as much surcharge. */
  lemma {:induction false} DearerPrice(low: Price, high: Price, petty: int, petty': int)
    requires low.ppp > 0 ==> low.period > 0 && 0 < high.period <= low.period
    requires low.ppp <= high.ppp && petty <= petty'
    requires high.ppp > 0 ==> high.period > 0
    ensures SurchargeOn(low, petty) <= SurchargeOn(high, petty')
    decreases if petty < 0 then 0 else petty
  {
    if low.ppp > 0 && petty > 0 {
      DearerPrice(low, high, petty - low.period, petty' - high.period);
    } else {
      SurchargeNonNegative(high, petty');
    }
  }
}
