/**
 Proxies and routes (paymgr/paymentmgr_impl.go): the price each hop reserves, and what happens to
 a petty amount that is paid along a whole route of reservations.
 */
module Route {
  import opened Wrappers
  import opened Meter
  import opened ChannelLedger
  import opened LedgerInvariant

  // ---------------------------------------------------------------- prices along a route

  /** Prices served by the proxies of a route, from the payer's side to the recipient's: what the
      first of them asks for. The recipient itself takes petty amounts without surcharge. */
  function Quote(currency: CurrencyID, served: seq<Price>): Price {
    if served == [] then Price(currency, 0, 0) else Calibrate(served[0], Quote(currency, served[1..]))
  }

  predicate IsFree(price: Price) {
    price.ppp == 0 && price.period == 0
  }

  /** No proxy that serves for free forwards to one that charges. */
  predicate FreeOnlyAtTheEnd(served: seq<Price>) {
    forall i, j | 0 <= i < j < |served| :: IsFree(served[i]) ==> IsFree(served[j])
  }

  /** Every price along the route is one that the next hop upstream can reserve with. */
  predicate Quotable(currency: CurrencyID, served: seq<Price>) {
    forall i | 0 <= i <= |served| :: WellFormed(Quote(currency, served[i..]))
  }

  lemma {:induction false} QuoteIsFree(currency: CurrencyID, served: seq<Price>)
    requires forall i | 0 <= i < |served| :: WellFormed(served[i])
    ensures Quote(currency, served).ppp == 0 <==> forall i | 0 <= i < |served| :: IsFree(served[i])
  {
    if served != [] {
      QuoteIsFree(currency, served[1..]);
      assert forall i | 1 <= i < |served| :: served[i] == served[1..][i - 1];
    }
  }

  lemma QuotableTail(currency: CurrencyID, served: seq<Price>)
    requires served != []
    ensures Quotable(currency, served) <==> Quotable(currency, served[1..]) && WellFormed(Quote(currency, served))
  {
    forall i | 1 <= i <= |served|
      ensures served[i..] == served[1..][i - 1..]
    {
    }
    assert served[0..] == served;
    if Quotable(currency, served) {
      forall j | 0 <= j <= |served[1..]|
        ensures WellFormed(Quote(currency, served[1..][j..]))
      {
        assert served[j + 1..] == served[1..][j..];
      }
    }
  }

  /** A route can be reserved hop by hop exactly if free serving happens only at its end: a free
      proxy in front of a priced one asks for a positive ppp over a zero period. */
  lemma {:induction false} QuotableIff(currency: CurrencyID, served: seq<Price>)
    requires forall i | 0 <= i < |served| :: WellFormed(served[i])
    ensures Quotable(currency, served) <==> FreeOnlyAtTheEnd(served)
  {
    if served == [] {
      assert served[0..] == [];
    } else {
      var tail := served[1..];
      QuotableIff(currency, tail);
      QuotableTail(currency, served);
      QuoteIsFree(currency, tail);
      assert forall i | 1 <= i < |served| :: served[i] == tail[i - 1];
      assert forall i | 0 <= i < |tail| :: tail[i] == served[i + 1];
      if FreeOnlyAtTheEnd(served) {
        assert FreeOnlyAtTheEnd(tail);
      }
      if Quotable(currency, served) && IsFree(served[0]) {
        assert Quote(currency, tail).ppp == 0;
      }
    }
  }

  // ---------------------------------------------------------------- one proxy

  /** A price with a zero period never credits any petty amount. */
  lemma {:induction false} ZeroPeriodCreditsNothing(price: Price, g: nat)
    requires price.ppp > 0 && price.period == 0
    ensures At(price, g).petty == 0
    decreases g
  {
    if g > price.ppp {
      ZeroPeriodCreditsNothing(price, g - price.ppp);
    }
  }

  /** The inbound price of r is what a proxy serving at this price asks for on r's outbound price. */
  predicate Serves(r: Reservation, served: CheckedPrice) {
    r.inbound == Calibrate(served, r.outbound)
  }

  ghost predicate Proxied(r: Reservation) {
    exists served: CheckedPrice :: Serves(r, served)
  }

  /** What a proxy is owed and what it has passed on. */
  predicate EvenHanded(r: Reservation) {
    r.received.petty == r.paid.petty && r.received.surcharge >= r.paid.surcharge
  }

  /** A proxy never forwards at a loss: a payment driven by a received one passes on exactly the
      petty amount it brought in, and the surcharge received still covers the surcharge paid. */
  lemma ProxyNeverLoses(r: Reservation, petty: nat, gross: nat, x: nat)
    requires Backed(r, petty) && Proxied(r) && EvenHanded(r)
    requires gross > 0 && x > 0
    requires Charge(r, Some(gross), x).Ok?
    ensures var r' := Charge(r, Some(gross), x).value;
            EvenHanded(r') && Proxied(r') && r'.received.Total() == r.received.Total() + gross
  {
    ChargeIsExact(r, petty, Some(gross), x);
    var r' := Charge(r, Some(gross), x).value;
    var g := r.received.Total() + gross;
    AtTotal(r.inbound, g);
    PayReceiveOnce(r.outbound, r.paid.petty, x);
    var served: CheckedPrice :| Serves(r, served);
    assert Serves(r', served);
    if r.inbound.ppp > 0 && r.inbound.period == 0 {
      ZeroPeriodCreditsNothing(r.inbound, g);
      assert false;
    }
    ShownSurchargeCovers(r.inbound, g);
    DearerPrice(r.outbound, r.inbound, r'.paid.petty, r'.paid.petty);
  }

  /** The proxy has also earned what it serves for on all the petty amount it has passed on. */
  predicate HasEarned(r: Reservation, served: CheckedPrice) {
    EvenHanded(r) && r.received.surcharge >= r.paid.surcharge + SurchargeOn(served, r.paid.petty)
  }

  /** Whatever gross amounts a metered reservation has received, if the petty amounts are even the proxy has
      earned its surcharge. */
  lemma EvenEarns(r: Reservation, served: CheckedPrice)
    requires Metered(r.inbound, r.received) && 0 <= r.paid.petty && r.paid == PaidFor(r.outbound, r.paid.petty)
    requires EvenHanded(r) && Serves(r, served)
    ensures HasEarned(r, served)
  {
    var g := r.received.Total();
    if r.inbound.ppp > 0 && r.inbound.period == 0 {
      ZeroPeriodCreditsNothing(r.inbound, g);
    } else {
      CalibrateEarns(served, r.outbound, r.paid.petty);
      ShownSurchargeCovers(r.inbound, g);
    }
  }

  /** One payment for others leaves the proxy with what it serves for on everything it has passed on. */
  lemma PaymentEarns(r: Reservation, petty: nat, gross: nat, x: nat, served: CheckedPrice)
    requires Backed(r, petty) && Serves(r, served) && EvenHanded(r)
    requires gross > 0 && x > 0
    requires Charge(r, Some(gross), x).Ok?
    ensures var r' := Charge(r, Some(gross), x).value;
            HasEarned(r', served) && Serves(r', served)
  {
    var r' := Charge(r, Some(gross), x).value;
    ProxyNeverLoses(r, petty, gross, x);
    ChargeIsExact(r, petty, Some(gross), x);
    SplitReceive(r.inbound, r.received, gross, 0);
    PayReceiveOnce(r.outbound, r.paid.petty, x);
    EvenEarns(r', served);
  }

  /** Along any run of payments for others the proxy stays even-handed, whatever gross amounts arrive. */
  lemma {:induction false} ProxyRunNeverLoses(r: Reservation, petty: nat, pays: seq<Payment>)
    requires Backed(r, petty) && Proxied(r) && EvenHanded(r)
    requires Legal(pays) && forall i | 0 <= i < |pays| :: pays[i].0.Some?
    ensures ChargeAll(r, pays).Ok? ==>
      var r' := ChargeAll(r, pays).value;
      EvenHanded(r') && r'.received.Total() >= r'.paid.Total()
    decreases |pays|
  {
    if pays != [] && Charge(r, pays[0].0, pays[0].1).Ok? {
      var r' := Charge(r, pays[0].0, pays[0].1).value;
      ProxyNeverLoses(r, petty, pays[0].0.value, pays[0].1);
      ChargeIsExact(r, petty, pays[0].0, pays[0].1);
      if r'.remain != 0 {
        ProxyRunNeverLoses(r', petty, pays[1..]);
      } else if pays[1..] != [] {
        NothingLeft(r', petty, pays[1].0, pays[1].1);
      }
    }
  }

  // ---------------------------------------------------------------- a whole route

  /** One petty amount paid along a route of reservations: the payer's own first, then each proxy
      pays what it is asked for out of what it received. Yields the gross amount that arrives. */
  function Forward(rs: seq<Reservation>, gross: Option<int>, x: nat): (sent: Result<(seq<Reservation>, int)>)
    requires rs != []
    ensures sent.Ok? ==> sent.value.0 != []
    decreases |rs|
  {
    match Charge(rs[0], gross, x)
    case Err(e) => Err(e)
    case Ok(r) =>
      var paid := rs[0].remain - r.remain;
      if |rs| == 1 then Ok(([r], paid))
      else
        match Forward(rs[1..], Some(paid), x)
        case Err(e) => Err(e)
        case Ok((rest, final)) => Ok(([r] + rest, final))
  }

  /** Reservations of `petty` along a route, all of them used up to `paid`: every hop received at
      the price the hop before it pays. */
  ghost predicate InStep(rs: seq<Reservation>, petty: nat, paid: nat) {
    rs == [] || (
      && Backed(rs[0], petty) && rs[0].paid.petty == paid
      && (|rs| > 1 ==> rs[1].inbound == rs[0].outbound && rs[1].received == rs[0].paid)
      && InStep(rs[1..], petty, paid))
  }

  /** What a payment that brings the total to `paid` makes of one hop's reservation of `petty`. */
  ghost predicate HopPaid(r: Reservation, r': Reservation, petty: nat, paid: nat) {
    && r'.outbound == r.outbound && r'.inbound == r.inbound
    && r'.paid == PaidFor(r.outbound, paid)
    && (if paid < petty then Backed(r', petty) else r'.remain == 0)
  }

  /** The same for a whole route: every hop receives exactly what the hop before it pays. */
  ghost predicate RoutePaid(rs: seq<Reservation>, rs': seq<Reservation>, petty: nat, paid: nat) {
    if rs == [] then rs' == []
    else
      && rs' != []
      && HopPaid(rs[0], rs'[0], petty, paid)
      && (|rs'| > 1 ==> rs'[1].received == rs'[0].paid)
      && RoutePaid(rs[1..], rs'[1..], petty, paid)
  }

  /** The first hop of a route that is driven by a received amount books exactly what was sent. */
  lemma FirstHop(r: Reservation, petty: nat, paid: nat, x: nat, gross: Option<int>)
    requires Backed(r, petty) && r.paid.petty == paid && x > 0
    requires gross.Some? ==>
      && WellFormed(r.inbound) && r.received == PaidFor(r.inbound, paid)
      && gross.value == Cost(r.inbound, paid + x) - Cost(r.inbound, paid)
    ensures Charge(r, gross, x).Ok? <==> paid + x <= petty
    ensures paid + x > petty ==> Charge(r, gross, x) == Err(NotCovered)
    ensures Charge(r, gross, x).Ok? ==>
      var r' := Charge(r, gross, x).value;
      && HopPaid(r, r', petty, paid + x)
      && r.remain - r'.remain == Cost(r.outbound, paid + x) - Cost(r.outbound, paid)
      && r'.received == (if gross.Some? then PaidFor(r.inbound, paid + x) else r.received)
  {
    if gross.Some? {
      PayReceiveOnce(r.inbound, paid, x);
      CostMono(r.inbound, paid + x, paid);
    }
    ChargeIsExact(r, petty, gross, x);
    PayReceiveOnce(r.outbound, paid, x);
  }

  lemma ForwardStep(rs: seq<Reservation>, gross: Option<int>, x: nat, r: Reservation, rest: seq<Reservation>, final: int)
    requires |rs| > 1
    requires Charge(rs[0], gross, x) == Ok(r)
    requires Forward(rs[1..], Some(rs[0].remain - r.remain), x) == Ok((rest, final))
    ensures Forward(rs, gross, x) == Ok(([r] + rest, final))
  {
  }

  /** What the first hop of a route has received and is about to receive: the price is one it can
      be paid at, and the gross amount is what its sender owes for the petty amount x. */
  ghost predicate SentTo(r: Reservation, paid: nat, x: nat, gross: Option<int>) {
    gross.Some? ==>
      && WellFormed(r.inbound) && r.received == PaidFor(r.inbound, paid)
      && gross.value == Cost(r.inbound, paid + x) - Cost(r.inbound, paid)
  }

  /** Every payment that the reservations cover reaches the end of the route: each hop's match
      check passes, each hop's reservation covers its share, and each hop receives exactly what
      the hop before it pays. */
  lemma {:induction false} RoutePayment(rs: seq<Reservation>, petty: nat, paid: nat, x: nat, gross: Option<int>)
    returns (rs': seq<Reservation>, final: int)
    requires rs != [] && InStep(rs, petty, paid) && x > 0 && paid + x <= petty
    requires SentTo(rs[0], paid, x, gross)
    ensures Forward(rs, gross, x) == Ok((rs', final))
    ensures RoutePaid(rs, rs', petty, paid + x)
    ensures rs'[0].received == (if gross.Some? then PaidFor(rs[0].inbound, paid + x) else rs[0].received)
    ensures final == Cost(rs[|rs| - 1].outbound, paid + x) - Cost(rs[|rs| - 1].outbound, paid)
    decreases |rs|
  {
    FirstHop(rs[0], petty, paid, x, gross);
    var r := Charge(rs[0], gross, x).value;
    if |rs| == 1 {
      rs', final := [r], rs[0].remain - r.remain;
    } else {
      InStepTail(rs, petty, paid);
      var rest;
      rest, final := RoutePayment(rs[1..], petty, paid, x, Some(rs[0].remain - r.remain));
      rs' := [r] + rest;
      ForwardStep(rs, gross, x, r, rest, final);
      assert rs'[1..] == rest;
    }
  }

  /** A payment beyond the reservations is stopped by the first hop. */
  lemma RouteOverdrawn(rs: seq<Reservation>, petty: nat, paid: nat, x: nat, gross: Option<int>)
    requires rs != [] && InStep(rs, petty, paid) && x > 0 && paid + x > petty
    requires SentTo(rs[0], paid, x, gross)
    ensures Forward(rs, gross, x) == Err(NotCovered)
  {
    FirstHop(rs[0], petty, paid, x, gross);
  }

  lemma InStepTail(rs: seq<Reservation>, petty: nat, paid: nat)
    requires |rs| > 1 && InStep(rs, petty, paid)
    ensures InStep(rs[1..], petty, paid)
    ensures WellFormed(rs[1].inbound) && rs[1].inbound == rs[0].outbound
    ensures rs[1].received == PaidFor(rs[1].inbound, paid)
  {
  }

  lemma {:induction false} RoutePaidInStep(rs: seq<Reservation>, rs': seq<Reservation>, petty: nat, before: nat, paid: nat)
    requires InStep(rs, petty, before) && RoutePaid(rs, rs', petty, paid) && paid < petty
    ensures InStep(rs', petty, paid)
  {
    if rs != [] {
      RoutePaidInStep(rs[1..], rs'[1..], petty, before, paid);
      if |rs| > 1 {
        assert HopPaid(rs[1..][0], rs'[1..][0], petty, paid);
      }
    }
  }

  /** The last hop keeps its price and the route its length. */
  lemma {:induction false} RoutePaidEnds(rs: seq<Reservation>, rs': seq<Reservation>, petty: nat, paid: nat)
    requires rs != [] && RoutePaid(rs, rs', petty, paid)
    ensures |rs'| == |rs| && rs'[|rs| - 1].outbound == rs[|rs| - 1].outbound
  {
    if |rs| > 1 {
      RoutePaidEnds(rs[1..], rs'[1..], petty, paid);
    }
  }

  /** What reaches the recipient over a run of petty payments; None once one of them is refused. */
  function Delivered(rs: seq<Reservation>, xs: seq<nat>): Option<int>
    requires rs != []
    decreases |xs|
  {
    if xs == [] then Some(0)
    else
      match Forward(rs, None, xs[0])
      case Err(_) => None
      case Ok((rs', final)) =>
        match Delivered(rs', xs[1..])
        case None => None
        case Some(more) => Some(final + more)
  }

  lemma DeliveredStep(rs: seq<Reservation>, xs: seq<nat>, rs': seq<Reservation>, final: int)
    requires rs != [] && xs != []
    requires Forward(rs, None, xs[0]) == Ok((rs', final))
    ensures Delivered(rs, xs) == match Delivered(rs', xs[1..])
                                 case None => None
                                 case Some(more) => Some(final + more)
  {
  }

  /** A route that is used up refuses every further payment. */
  lemma UsedUpRefuses(rs: seq<Reservation>, petty: nat, xs: seq<nat>)
    requires rs != []
    requires rs[0].paid == PaidFor(rs[0].outbound, petty) && rs[0].remain == 0
    requires xs != [] && xs[0] > 0
    ensures Delivered(rs, xs) == None
  {
    NothingLeft(rs[0], petty, None, xs[0]);
  }

  /** Over a whole run the recipient gets exactly the petty amounts, and every payment goes
      through as long as they stay within what was reserved in total. */
  lemma {:induction false} RouteDelivers(rs: seq<Reservation>, petty: nat, paid: nat, xs: seq<nat>)
    requires rs != [] && InStep(rs, petty, paid) && rs[|rs| - 1].outbound.ppp == 0
    requires forall i | 0 <= i < |xs| :: xs[i] > 0
    ensures Delivered(rs, xs) == if paid + Sum(xs) <= petty then Some(Sum(xs)) else None
    decreases |xs|
  {
    if xs != [] {
      var x, tail := xs[0], xs[1..];
      if paid + x > petty {
        RouteOverdrawn(rs, petty, paid, x, None);
      } else {
        var rs', final := RoutePayment(rs, petty, paid, x, None);
        DeliveredStep(rs, xs, rs', final);
        RoutePaidEnds(rs, rs', petty, paid + x);
        if paid + x < petty {
          RoutePaidInStep(rs, rs', petty, paid, paid + x);
          RouteDelivers(rs', petty, paid + x, tail);
        } else if tail != [] {
          UsedUpRefuses(rs', petty, tail);
        }
      }
    }
  }

  /** What r brings in beyond what it pays out. */
  function Margin(r: Reservation): int {
    r.received.Total() - r.paid.Total()
  }

  /** What the proxies of a route keep: every hop's margin after the payer's. */
  function Kept(rs: seq<Reservation>): int {
    if |rs| <= 1 then 0 else Margin(rs[1]) + Kept(rs[1..])
  }

  /** No money is lost on the way: what the payer has paid is what the recipient has got plus what
      the proxies keep, and no proxy keeps less than nothing. */
  lemma {:induction false} RouteConserves(rs: seq<Reservation>, petty: nat, paid: nat)
    requires rs != [] && InStep(rs, petty, paid)
    requires forall i | 0 < i < |rs| :: Proxied(rs[i])
    ensures rs[0].paid.Total() == rs[|rs| - 1].paid.Total() + Kept(rs)
    ensures forall i | 0 < i < |rs| :: EvenHanded(rs[i])
  {
    if |rs| > 1 {
      InStepTail(rs, petty, paid);
      RouteConserves(rs[1..], petty, paid);
      assert Backed(rs[1], petty);
      DearerPrice(rs[1].outbound, rs[1].inbound, paid, paid);
      forall i | 0 < i < |rs|
        ensures EvenHanded(rs[i])
      {
        if i > 1 {
          assert rs[i] == rs[1..][i - 1];
        }
      }
    }
  }

  /** A route that has been paid `paid` along, also the whole amount: every hop has paid what is due on
      it, at the price the next one asks for, and the next one has received just that. */
  ghost predicate Settled(rs: seq<Reservation>, paid: nat) {
    rs == [] || (
      && rs[0].paid == PaidFor(rs[0].outbound, paid)
      && (|rs| > 1 ==> rs[1].inbound == rs[0].outbound && rs[1].received == rs[0].paid)
      && Settled(rs[1..], paid))
  }

  lemma {:induction false} InStepSettled(rs: seq<Reservation>, petty: nat, paid: nat)
    requires InStep(rs, petty, paid)
    ensures Settled(rs, paid)
  {
    if rs != [] {
      InStepSettled(rs[1..], petty, paid);
    }
  }

  lemma {:induction false} RoutePaidSettled(rs: seq<Reservation>, rs': seq<Reservation>, petty: nat, before: nat, paid: nat)
    requires InStep(rs, petty, before) && RoutePaid(rs, rs', petty, paid)
    ensures Settled(rs', paid)
  {
    if rs != [] {
      RoutePaidSettled(rs[1..], rs'[1..], petty, before, paid);
      if |rs| > 1 {
        assert HopPaid(rs[1..][0], rs'[1..][0], petty, paid);
      }
    }
  }

  /** Every hop of a route pays at the quote of the hops ahead of it. */
  predicate Quoted(rs: seq<Reservation>, currency: CurrencyID, served: seq<Price>) {
    && rs != [] && rs[0].outbound == Quote(currency, served)
    && (if served == [] then |rs| == 1 else Quoted(rs[1..], currency, served[1..]))
  }

  lemma {:induction false} RoutePaidQuoted(
    rs: seq<Reservation>, rs': seq<Reservation>, petty: nat, paid: nat, currency: CurrencyID, served: seq<Price>)
    requires RoutePaid(rs, rs', petty, paid) && Quoted(rs, currency, served)
    ensures Quoted(rs', currency, served)
    decreases |served|
  {
    if served != [] {
      RoutePaidQuoted(rs[1..], rs'[1..], petty, paid, currency, served[1..]);
    }
  }

  /** Every proxy keeps at least the surcharge it serves for on the petty amount that has gone through it,
      and exactly that where the periods of all priced proxies are equal. */
  ghost predicate Earned(rs: seq<Reservation>, served: seq<CheckedPrice>, paid: nat) {
    && |rs| == |served| + 1
    && (forall i | 0 <= i < |served| :: Margin(rs[i + 1]) >= SurchargeOn(served[i], paid))
    && (OnePeriodServed(served) ==> forall i | 0 <= i < |served| :: Margin(rs[i + 1]) == SurchargeOn(served[i], paid))
  }

  /** The surcharges served for on a petty amount, in all. */
  function Fees(served: seq<CheckedPrice>, petty: nat): int {
    if served == [] then 0 else SurchargeOn(served[0], petty) + Fees(served[1..], petty)
  }

  predicate OnePeriodServed(served: seq<Price>) {
    forall i, j | 0 <= i < |served| && 0 <= j < |served| ::
      IsFree(served[i]) || IsFree(served[j]) || served[i].period == served[j].period
  }

  /** The quote of proxies that share a period has that period. */
  lemma {:induction false} QuotePeriod(currency: CurrencyID, served: seq<CheckedPrice>, period: nat)
    requires forall i | 0 <= i < |served| :: IsFree(served[i]) || served[i].period == period
    requires Quotable(currency, served)
    ensures IsFree(Quote(currency, served)) || Quote(currency, served).period == period
  {
    if served != [] {
      QuotableTail(currency, served);
      QuotePeriod(currency, served[1..], period);
    }
  }

  /** What the proxies of a route earn by it, hop by hop. */
  lemma {:induction false} RouteEarns(rs: seq<Reservation>, currency: CurrencyID, served: seq<CheckedPrice>, paid: nat)
    requires Settled(rs, paid) && Quoted(rs, currency, served) && Quotable(currency, served)
    ensures Earned(rs, served, paid)
    ensures Kept(rs) >= Fees(served, paid) && (OnePeriodServed(served) ==> Kept(rs) == Fees(served, paid))
    decreases |served|
  {
    if served != [] {
      var tail := served[1..];
      QuotableTail(currency, served);
      RouteEarns(rs[1..], currency, tail, paid);
      assert rs[1].outbound == Quote(currency, tail) && rs[1].inbound == Calibrate(served[0], rs[1].outbound);
      assert rs[1].paid == PaidFor(rs[1].outbound, paid);
      CalibrateEarns(served[0], rs[1].outbound, paid);
      if OnePeriodServed(served) {
        if !IsFree(served[0]) {
          QuotePeriod(currency, tail, served[0].period);
        }
        assert Margin(rs[1]) == SurchargeOn(served[0], paid);
        forall i, j | 0 <= i < |tail| && 0 <= j < |tail|
          ensures IsFree(tail[i]) || IsFree(tail[j]) || tail[i].period == tail[j].period
        {
          assert tail[i] == served[i + 1] && tail[j] == served[j + 1];
        }
      }
      forall i | 0 <= i < |served|
        ensures Margin(rs[i + 1]) >= SurchargeOn(served[i], paid)
        ensures OnePeriodServed(served) ==> Margin(rs[i + 1]) == SurchargeOn(served[i], paid)
      {
        if i > 0 {
          assert served[i] == tail[i - 1] && rs[i + 1] == rs[1..][i];
        }
      }
    }
  }

  // ---------------------------------------------------------------- a freshly reserved route

  /** The reservations that hop-by-hop reserving leaves behind, the payer's first: every node pays
      at the quote of the hops still ahead of it, and was asked for by the node before it. */
  function ReserveRoute(currency: CurrencyID, inbound: Price, served: seq<Price>, petty: nat, expiration: Time, inactivity: Time)
    : (rs: seq<Reservation>)
    requires Quotable(currency, served)
    ensures rs != []
    decreases |served|
  {
    assert served[0..] == served;
    var r := Fresh(inbound, Quote(currency, served), petty, expiration, inactivity);
    if served == [] then [r]
    else
      QuotableTail(currency, served);
      [r] + ReserveRoute(currency, r.outbound, served[1..], petty, expiration, inactivity)
  }

  lemma {:induction false} ReserveRouteInStep(
    currency: CurrencyID, inbound: Price, served: seq<Price>, petty: nat, expiration: Time, inactivity: Time)
    requires Quotable(currency, served) && petty > 0
    ensures var rs := ReserveRoute(currency, inbound, served, petty, expiration, inactivity);
            && |rs| == |served| + 1
            && InStep(rs, petty, 0)
            && rs[0] == Fresh(inbound, rs[0].outbound, petty, expiration, inactivity)
            && rs[0].outbound == Quote(currency, served)
            && rs[|rs| - 1].outbound.ppp == 0
    decreases |served|
  {
    assert served[0..] == served;
    var rs := ReserveRoute(currency, inbound, served, petty, expiration, inactivity);
    FreshIsBacked(inbound, rs[0].outbound, petty, expiration, inactivity);
    if served != [] {
      QuotableTail(currency, served);
      ReserveRouteInStep(currency, rs[0].outbound, served[1..], petty, expiration, inactivity);
      assert rs[1..] == ReserveRoute(currency, rs[0].outbound, served[1..], petty, expiration, inactivity);
    }
  }

  /** From reserving to paying: on a route whose free proxies all come last, every run of petty
      payments within the reserved amount arrives in full, and no other run does. */
  lemma ReservedRouteDelivers(currency: CurrencyID, inbound: Price, served: seq<Price>, petty: nat,
                              expiration: Time, inactivity: Time, xs: seq<nat>)
    requires forall i | 0 <= i < |served| :: WellFormed(served[i])
    requires FreeOnlyAtTheEnd(served) && petty > 0
    requires forall i | 0 <= i < |xs| :: xs[i] > 0
    ensures Quotable(currency, served)
    ensures Delivered(ReserveRoute(currency, inbound, served, petty, expiration, inactivity), xs)
         == if Sum(xs) <= petty then Some(Sum(xs)) else None
  {
    QuotableIff(currency, served);
    ReserveRouteInStep(currency, inbound, served, petty, expiration, inactivity);
    RouteDelivers(ReserveRoute(currency, inbound, served, petty, expiration, inactivity), petty, 0, xs);
  }

  lemma {:induction false} ReserveRouteQuoted(
    currency: CurrencyID, inbound: Price, served: seq<Price>, petty: nat, expiration: Time, inactivity: Time)
    requires Quotable(currency, served)
    ensures Quoted(ReserveRoute(currency, inbound, served, petty, expiration, inactivity), currency, served)
    decreases |served|
  {
    assert served[0..] == served;
    var rs := ReserveRoute(currency, inbound, served, petty, expiration, inactivity);
    if served != [] {
      QuotableTail(currency, served);
      ReserveRouteQuoted(currency, rs[0].outbound, served[1..], petty, expiration, inactivity);
      assert rs[1..] == ReserveRoute(currency, rs[0].outbound, served[1..], petty, expiration, inactivity);
    }
  }

  /** The reservations of a route after a run of petty payments; None once one of them is refused. */
  function After(rs: seq<Reservation>, xs: seq<nat>): Option<seq<Reservation>>
    requires rs != []
    decreases |xs|
  {
    if xs == [] then Some(rs)
    else
      match Forward(rs, None, xs[0])
      case Err(_) => None
      case Ok((rs', _)) => After(rs', xs[1..])
  }

  lemma AfterStep(rs: seq<Reservation>, xs: seq<nat>, rs': seq<Reservation>, final: int)
    requires rs != [] && xs != [] && Forward(rs, None, xs[0]) == Ok((rs', final))
    ensures After(rs, xs) == After(rs', xs[1..])
  {
  }

  lemma PaymentSettles(rs: seq<Reservation>, petty: nat, paid: nat, x: nat, currency: CurrencyID, served: seq<Price>)
    returns (rs': seq<Reservation>, final: int)
    requires InStep(rs, petty, paid) && Quoted(rs, currency, served) && x > 0 && paid + x <= petty
    ensures Forward(rs, None, x) == Ok((rs', final)) && rs' != []
    ensures Quoted(rs', currency, served) && Settled(rs', paid + x)
    ensures paid + x < petty ==> InStep(rs', petty, paid + x)
  {
    rs', final := RoutePayment(rs, petty, paid, x, None);
    RoutePaidQuoted(rs, rs', petty, paid + x, currency, served);
    RoutePaidSettled(rs, rs', petty, paid, paid + x);
    if paid + x < petty {
      RoutePaidInStep(rs, rs', petty, paid, paid + x);
    }
  }

  /** Along every run within the reserved amount every hop stays settled at its quote. */
  lemma {:induction false} RunSettles(
    rs: seq<Reservation>, petty: nat, paid: nat, xs: seq<nat>, currency: CurrencyID, served: seq<Price>)
    returns (last: seq<Reservation>)
    requires InStep(rs, petty, paid) && Quoted(rs, currency, served)
    requires (forall i | 0 <= i < |xs| :: xs[i] > 0) && paid + Sum(xs) <= petty
    ensures After(rs, xs) == Some(last)
    ensures Settled(last, paid + Sum(xs)) && Quoted(last, currency, served)
    decreases |xs|
  {
    if xs == [] {
      InStepSettled(rs, petty, paid);
      last := rs;
    } else {
      var rs', final := PaymentSettles(rs, petty, paid, xs[0], currency, served);
      AfterStep(rs, xs, rs', final);
      if paid + xs[0] < petty {
        last := RunSettles(rs', petty, paid + xs[0], xs[1..], currency, served);
      } else {
        assert xs[1..] == [];
        last := rs';
      }
    }
  }

  /** All the payer has spent is the petty amounts and what the proxies keep, at least what they serve for. */
  ghost predicate EarnedInAll(rs: seq<Reservation>, served: seq<CheckedPrice>, paid: nat) {
    && rs != [] && Earned(rs, served, paid)
    && rs[0].paid.Total() == paid + Kept(rs)
    && Kept(rs) >= Fees(served, paid)
    && (OnePeriodServed(served) ==> Kept(rs) == Fees(served, paid))
  }

  lemma SettledEarns(rs: seq<Reservation>, currency: CurrencyID, served: seq<CheckedPrice>, paid: nat)
    requires Settled(rs, paid) && Quoted(rs, currency, served) && Quotable(currency, served)
    ensures EarnedInAll(rs, served, paid)
  {
    RouteEarns(rs, currency, served, paid);
    KeptInAll(rs, currency, served, paid);
  }

  lemma RunEarns(rs: seq<Reservation>, petty: nat, xs: seq<nat>, currency: CurrencyID, served: seq<CheckedPrice>)
    returns (last: seq<Reservation>)
    requires InStep(rs, petty, 0) && Quoted(rs, currency, served) && Quotable(currency, served)
    requires (forall i | 0 <= i < |xs| :: xs[i] > 0) && Sum(xs) <= petty
    ensures After(rs, xs) == Some(last) && EarnedInAll(last, served, Sum(xs))
  {
    last := RunSettles(rs, petty, 0, xs, currency, served);
    SettledEarns(last, currency, served, Sum(xs));
  }

  /** From reserving to earning: after every run of payments within the reserved amount each proxy has kept
      at least the surcharge it serves for on all that went through it, and exactly that where the
      periods are equal; all the payer has spent is the petty amounts and what the proxies keep. */
  lemma ReservedRouteEarns(currency: CurrencyID, inbound: Price, served: seq<CheckedPrice>, petty: nat,
                           expiration: Time, inactivity: Time, xs: seq<nat>)
    requires FreeOnlyAtTheEnd(served) && petty > 0
    requires (forall i | 0 <= i < |xs| :: xs[i] > 0) && Sum(xs) <= petty
    ensures Quotable(currency, served)
    ensures var rs := After(ReserveRoute(currency, inbound, served, petty, expiration, inactivity), xs);
            rs.Some? && EarnedInAll(rs.value, served, Sum(xs))
  {
    QuotableIff(currency, served);
    ReserveRouteInStep(currency, inbound, served, petty, expiration, inactivity);
    ReserveRouteQuoted(currency, inbound, served, petty, expiration, inactivity);
    var last := RunEarns(ReserveRoute(currency, inbound, served, petty, expiration, inactivity), petty, xs, currency, served);
  }

  lemma {:induction false} KeptInAll(rs: seq<Reservation>, currency: CurrencyID, served: seq<Price>, paid: nat)
    requires Settled(rs, paid) && Quoted(rs, currency, served)
    ensures rs[0].paid.Total() == paid + Kept(rs)
    decreases |served|
  {
    if served != [] {
      KeptInAll(rs[1..], currency, served[1..], paid);
    }
  }
}
