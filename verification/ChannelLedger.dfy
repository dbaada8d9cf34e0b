/**
 The ledger of one outbound payment channel (paymgr/paymentmgr_impl.go, paymgr/types.go), as a
 value: what each operation does to the channel state and its reservations. The class in
 OutboundChannel.dfy performs the same operations in place.
 */
module ChannelLedger {
  import opened Wrappers
  import opened Meter

  datatype Result<+T> = Ok(value: T) | Err(error: Error)
  datatype Error = NotPositive | LossPresent | NoReservation | ReservationExpired | PettyMismatch
                 | NotCovered | SigningFailed

  /** Seconds on the node's clock. */
  type Time = int

  /** A payment voucher: lane and nonce, and the total redeemed once it is accepted. */
  datatype Voucher = Voucher(sender: string, channel: string, lane: nat, nonce: nat, redeemed: int)

  /** The channel state (paychstate/state.go). */
  datatype State = State(
    fromAddr: string, chAddr: string, balance: int, redeemed: int, nonce: nat,
    voucher: Option<Voucher>, lossVoucher: Option<Voucher>, stateNonce: nat)

  /** A reservation; `expiration` is None once the reservation has been used. */
  datatype Reservation = Reservation(
    inbound: Price, received: Tally, outbound: CheckedPrice, paid: Tally, remain: int,
    lastAccessed: Time, expiration: Option<Time>, inactivity: Time)

  datatype Ledger = Ledger(
    state: State, reservedAmt: int, reservedNonce: nat, reservations: map<nat, Reservation>)

  predicate Expired(r: Reservation, now: Time) {
    match r.expiration
    case Some(expiration) => now > expiration
    case None => now > r.lastAccessed + r.inactivity
  }

  // ---------------------------------------------------------------- sums over reservations

  ghost function SumRemain(m: map<nat, Reservation>): int
    decreases |m|
  {
    if m == map[] then 0 else var k :| k in m; m[k].remain + SumRemain(m - {k})
  }

  lemma {:induction false} SumRemove(m: map<nat, Reservation>, k: nat)
    requires k in m
    ensures SumRemain(m) == m[k].remain + SumRemain(m - {k})
    decreases |m|
  {
    var j :| j in m && SumRemain(m) == m[j].remain + SumRemain(m - {j});
    if j != k {
      SumRemove(m - {j}, k);
      SumRemove(m - {k}, j);
      assert m - {j} - {k} == m - {k} - {j};
    }
  }

  lemma SumUpdate(m: map<nat, Reservation>, k: nat, r: Reservation)
    ensures SumRemain(m[k := r]) == r.remain + SumRemain(m - {k})
  {
    SumRemove(m[k := r], k);
    assert m[k := r] - {k} == m - {k};
  }

  /** The reservations among `m` that are still alive, and those that are not. */
  function Live(m: map<nat, Reservation>, now: Time): map<nat, Reservation> {
    map id | id in m && !Expired(m[id], now) :: m[id]
  }

  function Dead(m: map<nat, Reservation>, now: Time): map<nat, Reservation> {
    map id | id in m && Expired(m[id], now) :: m[id]
  }

  lemma LiveDeadStep(m: map<nat, Reservation>, now: Time, k: nat)
    requires k in m
    ensures Live(m, now) - {k} == Live(m - {k}, now)
    ensures Dead(m, now) - {k} == Dead(m - {k}, now)
    ensures k in Live(m, now) <==> !Expired(m[k], now)
    ensures k in Dead(m, now) <==> Expired(m[k], now)
  {
  }

  lemma SumAbsent(m: map<nat, Reservation>, k: nat)
    requires k !in m
    ensures SumRemain(m - {k}) == SumRemain(m)
  {
    assert m - {k} == m;
  }

  lemma {:induction false} SumLiveDead(m: map<nat, Reservation>, now: Time)
    ensures SumRemain(m) == SumRemain(Live(m, now)) + SumRemain(Dead(m, now))
    decreases |m|
  {
    if m == map[] {
      assert Live(m, now) == m && Dead(m, now) == m;
    } else {
      var k :| k in m;
      LiveDeadStep(m, now, k);
      SumRemove(m, k);
      SumLiveDead(m - {k}, now);
      if Expired(m[k], now) {
        SumRemove(Dead(m, now), k);
        SumAbsent(Live(m, now), k);
      } else {
        SumRemove(Live(m, now), k);
        SumAbsent(Dead(m, now), k);
      }
    }
  }

  // ---------------------------------------------------------------- prices

  /** The price a proxy asks upstream: the served ppp on top of the downstream one, over the
      shorter of the two periods. */
  function Calibrate(served: Price, outbound: Price): Price {
    Price(served.currency, served.ppp + outbound.ppp,
          if outbound.period > 0 && outbound.period < served.period then outbound.period else served.period)
  }

  /** Surcharges over one period add up as their ppp do. */
  lemma {:induction false} SurchargeAdds(a: Price, b: Price, sum: Price, x: int)
    requires sum.period > 0 && a.period == sum.period && b.period == sum.period && sum.ppp == a.ppp + b.ppp
    ensures SurchargeOn(sum, x) == SurchargeOn(a, x) + SurchargeOn(b, x)
    decreases if x < 0 then 0 else x
  {
    if x > 0 {
      SurchargeAdds(a, b, sum, x - sum.period);
    }
  }

  /** What a proxy asks upstream earns it what it serves for on top of what it pays downstream, for every
      petty amount; and no more than that if it pays nothing downstream or the periods are equal. */
  lemma CalibrateEarns(served: Price, outbound: Price, x: nat)
    requires WellFormed(served) && WellFormed(outbound) && (served.ppp > 0 || outbound.ppp == 0)
    ensures WellFormed(Calibrate(served, outbound))
    ensures SurchargeOn(Calibrate(served, outbound), x) >= SurchargeOn(served, x) + SurchargeOn(outbound, x)
    ensures outbound.ppp == 0 || outbound.period == served.period ==>
      SurchargeOn(Calibrate(served, outbound), x) == SurchargeOn(served, x) + SurchargeOn(outbound, x)
  {
    if outbound.ppp > 0 {
      var asked := Calibrate(served, outbound);
      var a, b := served.(period := asked.period), outbound.(period := asked.period);
      SurchargeAdds(a, b, asked, x);
      DearerPrice(served, a, x, x);
      DearerPrice(outbound, b, x, x);
    }
  }

  /** Whatever the petty amount, the surcharge at `price` is enough for both others. */
  ghost predicate EarnsBoth(price: Price, served: Price, outbound: Price)
    requires WellFormed(price) && WellFormed(served) && WellFormed(outbound)
  {
    forall x: nat :: SurchargeOn(price, x) >= SurchargeOn(served, x) + SurchargeOn(outbound, x)
  }

  lemma CalibrateEarnsBoth(served: Price, outbound: Price)
    requires WellFormed(served) && WellFormed(outbound) && (served.ppp > 0 || outbound.ppp == 0)
    ensures WellFormed(Calibrate(served, outbound)) && EarnsBoth(Calibrate(served, outbound), served, outbound)
  {
    forall x: nat
      ensures WellFormed(Calibrate(served, outbound))
      ensures SurchargeOn(Calibrate(served, outbound), x) >= SurchargeOn(served, x) + SurchargeOn(outbound, x)
    {
      CalibrateEarns(served, outbound, x);
    }
  }

  /** No other price would do with a lower ppp, nor with this ppp and a longer period. */
  lemma CalibrateIsLeast(served: Price, outbound: Price, price: Price)
    requires WellFormed(served) && WellFormed(outbound) && served.ppp > 0 && outbound.ppp > 0 && WellFormed(price)
    ensures EarnsBoth(price, served, outbound) ==> price.ppp >= Calibrate(served, outbound).ppp
    ensures price.ppp == Calibrate(served, outbound).ppp ==>
      (EarnsBoth(price, served, outbound) <==> price.period <= Calibrate(served, outbound).period)
  {
    var asked := Calibrate(served, outbound);
    if EarnsBoth(price, served, outbound) {
      assert SurchargeOn(price, 1) >= SurchargeOn(served, 1) + SurchargeOn(outbound, 1);
      OnePeriod(served, 1);
      OnePeriod(outbound, 1);
      if price.ppp > 0 {
        OnePeriod(price, 1);
      }
    }
    if price.ppp == asked.ppp && price.period > asked.period {
      var x := asked.period + 1;
      OnePeriod(price, x);
      SurchargeNonNegative(served, x - served.period);
      SurchargeNonNegative(outbound, x - outbound.period);
      OnePeriod(served, 1);
      OnePeriod(outbound, 1);
      assert SurchargeOn(price, x) < SurchargeOn(served, x) + SurchargeOn(outbound, x);
    } else if price.ppp == asked.ppp {
      forall x: nat
        ensures SurchargeOn(price, x) >= SurchargeOn(served, x) + SurchargeOn(outbound, x)
      {
        CalibrateEarns(served, outbound, x);
        DearerPrice(asked, price, x, x);
      }
    }
  }

  /** Within the first period one ppp is due. */
  lemma OnePeriod(price: Price, x: nat)
    requires WellFormed(price) && price.ppp > 0 && 0 < x <= price.period
    ensures SurchargeOn(price, x) == price.ppp
  {
    assert SurchargeOn(price, x - price.period) == 0;
  }

  // ---------------------------------------------------------------- operations

  function Available(l: Ledger): int {
    l.state.balance - (l.reservedAmt + l.state.redeemed)
  }

  /** Drops expired reservations and gives their remaining amount back. */
  ghost function Release(l: Ledger, now: Time): Ledger {
    l.(reservations := Live(l.reservations, now),
       reservedAmt := l.reservedAmt - SumRemain(Dead(l.reservations, now)))
  }

  /** A fresh reservation of a petty amount. */
  function Fresh(inbound: Price, outbound: CheckedPrice, petty: nat, expiration: Time, inactivity: Time): Reservation
  {
    Reservation(inbound, Tally(inbound.currency, 0, 0), outbound, Tally(outbound.currency, 0, 0), Cost(outbound, petty), 0, Some(expiration), inactivity)
  }

  /** The locked part of one reservation attempt: the new ledger, and the reservation id if it
      succeeded. Expired reservations stay released when it does not. */
  ghost function Reserve(l: Ledger, now: Time, r: Reservation): (Ledger, Option<nat>) {
    if l.state.lossVoucher.Some? then (l, None)
    else
      var l' := Release(l, now);
      if Available(l') < r.remain then (l', None)
      else
        var id := l'.reservedNonce + 1;
        (l'.(reservations := l'.reservations[id := r], reservedAmt := l'.reservedAmt + r.remain, reservedNonce := id),
         Some(id))
  }

  /** What a payment does to its reservation: the gross amount received must carry the petty
      amount asked for, and what remains must cover the gross amount to pay. */
  function Charge(r: Reservation, grossReceived: Option<int>, petty: int): (result: Result<Reservation>)
    ensures result.Ok? ==> result.value.outbound == r.outbound && result.value.inbound == r.inbound
  {
    var received := if grossReceived.Some? then Receive(r.inbound, r.received, grossReceived.value) else r.received;
    if grossReceived.Some? && received.petty - r.received.petty != petty then Err(PettyMismatch)
    else
      var paid := Pay(r.outbound, r.paid, petty);
      var gross := paid.Total() - r.paid.Total();
      if gross > r.remain then Err(NotCovered)
      else Ok(r.(received := received, paid := paid, remain := r.remain - gross))
  }

  /** A payment whose voucher is out and whose commit or revert is still to come. */
  datatype Pending = Pending(
    resID: nat, res: Option<Reservation>, reservedAmt: int, state: State, voucher: Voucher, gross: int)

  function VoucherFor(s: State, gross: int): Voucher {
    Voucher(s.fromAddr, s.chAddr, 0, s.nonce + 1, s.redeemed + gross)
  }

  /** The provisional outcome of charging reservation `resID`, which becomes r. */
  function MakePending(l: Ledger, resID: nat, r: Reservation): Pending
    requires resID in l.reservations
  {
    var gross := l.reservations[resID].remain - r.remain;
    var voucher := VoucherFor(l.state, gross);
    Pending(resID, if r.remain == 0 then None else Some(r), l.reservedAmt - gross,
            l.state.(redeemed := l.state.redeemed + gross, nonce := l.state.nonce + 1,
                     voucher := Some(voucher), stateNonce := l.state.stateNonce + 1),
            voucher, gross)
  }

  /** The locked part of Pay. `signed` says whether the voucher could be signed. */
  ghost function PayLocked(l: Ledger, now: Time, resID: nat, grossReceived: Option<int>, petty: int, signed: bool)
    : (Ledger, Result<Pending>)
  {
    if l.state.lossVoucher.Some? then (l, Err(LossPresent))
    else
      var l' := Release(l, now);
      if resID !in l'.reservations then (l', Err(NoReservation))
      else
        match Charge(l'.reservations[resID], grossReceived, petty)
        case Err(e) => (l', Err(e))
        case Ok(r) => if signed then (l', Ok(MakePending(l', resID, r))) else (l', Err(SigningFailed))
  }

  /** The commit closure. */
  function Commit(l: Ledger, p: Pending, newLastAccessed: Time): Ledger {
    Ledger(p.state, p.reservedAmt, l.reservedNonce,
           match p.res
           case None => l.reservations - {p.resID}
           case Some(r) => l.reservations[p.resID := r.(lastAccessed := newLastAccessed, expiration := None)])
  }

  /** A loss voucher worth recording: signed for this channel and ahead of the ledger. */
  predicate ProvesLoss(s: State, v: Voucher, issued: set<Voucher>) {
    && v in issued
    && v.sender == s.fromAddr && v.channel == s.chAddr && v.lane == 0
    && v.nonce > s.nonce && v.redeemed >= s.redeemed
  }

  /** The revert closure: records a loss voucher, if there is a valid one. */
  function Revert(l: Ledger, loss: Option<Voucher>, issued: set<Voucher>): Ledger {
    if loss.Some? && ProvesLoss(l.state, loss.value, issued) then
      Ledger(l.state.(lossVoucher := loss, stateNonce := l.state.stateNonce + 1), 0, l.reservedNonce, map[])
    else l
  }

  /** UpdateOutboundChannelBalance, given the balance found on chain. */
  function UpdateBalance(l: Ledger, balance: int): Ledger {
    if l.state.balance == balance then l
    else l.(state := l.state.(balance := balance, stateNonce := l.state.stateNonce + 1))
  }

  /** BearNetworkLoss: takes over the recorded loss voucher. */
  function Bear(l: Ledger): Ledger {
    match l.state.lossVoucher
    case None => l
    case Some(v) =>
      l.(state := l.state.(redeemed := v.redeemed, nonce := v.nonce, voucher := Some(v), lossVoucher := None,
                           stateNonce := l.state.stateNonce + 1))
  }

  // ---------------------------------------------------------------- the invariant

  /** r is a reservation of `petty` in all, of which r.paid has been used up. */
  ghost predicate Backed(r: Reservation, petty: nat) {
    && Metered(r.inbound, r.received)
    && 0 <= r.paid.petty < petty
    && r.paid == PaidFor(r.outbound, r.paid.petty)
    && r.remain == Cost(r.outbound, petty) - r.paid.Total()
  }

  ghost predicate Reserved(r: Reservation) {
    exists petty: nat :: Backed(r, petty)
  }

  ghost predicate Sound(l: Ledger) {
    && l.reservedAmt == SumRemain(l.reservations)
    && (forall id | id in l.reservations :: 1 <= id <= l.reservedNonce && Reserved(l.reservations[id]))
    && 0 <= l.state.redeemed
    && l.state.redeemed + l.reservedAmt <= l.state.balance
    && (l.state.lossVoucher.Some? ==>
          && l.reservations == map[]
          && l.state.nonce < l.state.lossVoucher.value.nonce
          && l.state.redeemed <= l.state.lossVoucher.value.redeemed <= l.state.balance)
  }

  /** A pending payment fits the ledger it was made on. */
  ghost predicate Fits(l: Ledger, p: Pending) {
    && l.state.lossVoucher.None?
    && p.resID in l.reservations
    && exists r: Reservation ::
         && p == MakePending(l, p.resID, r)
         && 0 < p.gross
         && (if r.remain == 0 then p.res.None? else Reserved(r))
  }
}
