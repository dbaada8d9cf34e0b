/**
 The cached state of one outbound payment channel and the operations that update it in place
 (paymgr/paymentmgr_impl.go, paymgr/utils.go). Every method runs under the channel's write lock,
 except the two checks that only read. Between Pay and Commit or Revert the lock stays held:
 `pending` is what the two closures have captured.
 */
module OutboundChannels {
  import opened Wrappers
  import opened Meter
  import opened ChannelLedger
  import opened LedgerInvariant

  /** The gross amount to set aside for a petty amount. */
  method GrossAmountRequired(outbound: CheckedPrice, petty: nat) returns (gross: int)
    requires petty > 0
    ensures gross == Cost(outbound, petty)
  {
    if outbound.ppp > 0 {
      // A surcharge for every started period.
      SurchargeClosedForm(outbound, petty);
      var temp := petty - 1;
      temp := temp / outbound.period;
      temp := temp + 1;
      temp := temp * outbound.ppp;
      gross := temp + petty;
    } else {
      gross := petty;
    }
  }

  /** The checks that Reserve makes before it looks at any channel, and the gross amount it then asks
      every channel for. */
  method CheckReserve(now: Time, expiration: Time, outbound: Price, petty: int) returns (gross: Option<int>)
    ensures gross.Some? <==> now <= expiration && petty > 0 && WellFormed(outbound)
    ensures gross.Some? ==> gross.value == Cost(outbound, petty)
  {
    if now > expiration {
      return None;
    }
    if petty <= 0 {
      return None;
    }
    if !((outbound.ppp == 0 && outbound.period == 0) || (outbound.ppp > 0 && outbound.period > 0)) {
      return None;
    }
    var required := GrossAmountRequired(outbound, petty);
    return Some(required);
  }

  /** The inbound price of one channel's reservation. Served for free in front of a priced next hop, it
      is one that the node upstream cannot reserve with. */
  method InboundPrice(servedRequired: bool, served: Price, outbound: CheckedPrice) returns (inbound: Option<Price>)
    ensures inbound.Some? <==> servedRequired ==> WellFormed(served)
    ensures inbound.Some? ==> inbound.value == if servedRequired then Calibrate(served, outbound) else Price(served.currency, 0, 0)
    ensures inbound.Some? ==> (WellFormed(inbound.value) <==> !(servedRequired && served.ppp == 0 && outbound.ppp > 0))
    ensures inbound.Some? && WellFormed(inbound.value) && servedRequired ==> EarnsBoth(inbound.value, served, outbound)
  {
    if servedRequired && WellFormed(served) && (served.ppp > 0 || outbound.ppp == 0) {
      CalibrateEarnsBoth(served, outbound);
    }
    if !servedRequired {
      return Some(Price(served.currency, 0, 0));
    }
    if !((served.ppp == 0 && served.period == 0) || (served.ppp > 0 && served.period > 0)) {
      return None;
    }
    var ppp, period := served.ppp + outbound.ppp, served.period;
    if outbound.period > 0 && outbound.period < period {
      period := outbound.period;
    }
    return Some(Price(served.currency, ppp, period));
  }

  /** The arithmetic of one payment on a reservation: match check, cover check, new totals. */
  method ChargeReservation(res: Reservation, grossReceived: Option<int>, petty: nat)
    returns (result: Result<Reservation>)
    requires Reserved(res)
    requires petty > 0 && (grossReceived.Some? ==> grossReceived.value > 0)
    ensures result == Charge(res, grossReceived, petty)
  {
    ReservedRemain(res);
    var received := res.received;
    if grossReceived.Some? {
      var toReceive;
      received, toReceive := CalculatePettyAmountToReceive(res.inbound, res.received, grossReceived.value);
      if toReceive != petty {
        return Err(PettyMismatch);
      }
    }
    var (paid, gross) := CalculateGrossAmountToPay(res.outbound, res.paid, petty);
    if gross > res.remain {
      return Err(NotCovered);
    }
    return Ok(res.(received := received, paid := paid, remain := res.remain - gross));
  }

  lemma WithoutDead(m: map<nat, Reservation>, now: Time, removed: set<nat>)
    requires removed == Dead(m, now).Keys
    ensures m - removed == Live(m, now)
  {
  }

  class OutboundChannel {
    var state: State
    var reservedAmt: int
    var reservedNonce: nat
    var reservations: map<nat, Reservation>
    var pending: Option<Pending>

    function View(): Ledger
      reads this
    {
      Ledger(state, reservedAmt, reservedNonce, reservations)
    }

    ghost predicate Valid()
      reads this
    {
      Sound(View()) && (pending.Some? ==> Fits(View(), pending.value))
    }

    /** AddOutboundChannel: the ledger starts from what is found on chain. */
    constructor (fromAddr: string, chAddr: string, balance: int, redeemed: int)
      requires 0 <= redeemed <= balance
      ensures Valid() && pending == None
      ensures View() == Ledger(State(fromAddr, chAddr, balance, redeemed, 0, None, None, 0), 0, 0, map[])
    {
      state := State(fromAddr, chAddr, balance, redeemed, 0, None, None, 0);
      reservedAmt, reservedNonce, reservations, pending := 0, 0, map[], None;
    }

    /** The total remaining amount of the reservations that have expired. */
    method GetExpiredAmount(now: Time) returns (expired: int)
      ensures expired == SumRemain(Dead(reservations, now))
    {
      expired := 0;
      var ids := reservations.Keys;
      ghost var dead := Dead(reservations, now);
      ghost var seen: map<nat, Reservation> := map[];
      while ids != {}
        invariant ids <= reservations.Keys
        invariant seen == map id | id in dead && id !in ids :: dead[id]
        invariant expired == SumRemain(seen)
      {
        var id :| id in ids;
        ids := ids - {id};
        if Expired(reservations[id], now) {
          expired := expired + reservations[id].remain;
          SumUpdate(seen, id, reservations[id]);
          SumAbsent(seen, id);
          seen := seen[id := reservations[id]];
        }
      }
      assert seen == dead;
    }

    /** Cleans the reservations that have expired. */
    method ReleaseExpiredAmount(now: Time)
      requires Valid() && pending.None?
      modifies this`reservations, this`reservedAmt
      ensures Valid() && View() == Release(old(View()), now)
    {
      ReleaseKeepsSound(View(), now);
      var expired := GetExpiredAmount(now);
      var removed := set id | id in reservations && Expired(reservations[id], now);
      WithoutDead(reservations, now, removed);
      reservations := reservations - removed;
      reservedAmt := reservedAmt - expired;
    }

    /** What the routine that cleans reservations looks at under the read lock: something has expired. */
    method NeedsCleaning(now: Time) returns (needed: bool)
      requires Valid()
      ensures needed <==> Dead(reservations, now) != map[]
      ensures !needed ==> Release(View(), now) == View()
    {
      NothingExpired(View(), now);
      var expired := GetExpiredAmount(now);
      return expired > 0;
    }

    /** One visit of that routine with nobody else at the channel in between: it takes the write lock only
        if something has expired, and misses nothing by that unless it does not get the lock. */
    method CleanReservations(now: Time, locked: bool, later: Time)
      requires Valid() && pending.None?
      modifies this`reservations, this`reservedAmt
      ensures Valid()
      ensures View() == if Dead(old(reservations), now) != map[] && locked then Release(old(View()), later) else old(View())
      ensures locked && now == later ==> View() == Release(old(View()), now)
    {
      var needed := NeedsCleaning(now);
      if needed && locked {
        ReleaseExpiredAmount(later);
      }
    }

    /** The provisional check of a reservation attempt, under the read lock. */
    method CanReserve(now: Time, gross: int) returns (ok: bool)
      requires Valid()
      ensures ok <==> state.lossVoucher.None? && gross <= Available(Release(View(), now))
    {
      if state.lossVoucher.Some? {
        return false;
      }
      var expired := GetExpiredAmount(now);
      var available := state.balance - (reservedAmt + state.redeemed);
      available := available + expired;
      return available >= gross;
    }

    /** One reservation attempt for `petty`, when no other channel has been charged yet. */
    method Reserve(now: Time, inbound: Price, outbound: CheckedPrice, petty: nat, expiration: Time, inactivity: Time)
      returns (resID: Option<nat>)
      requires Valid() && pending.None?
      requires petty > 0
      modifies this
      ensures Valid() && pending.None?
      ensures (View(), resID)
           == ChannelLedger.Reserve(old(View()), now, Fresh(inbound, outbound, petty, expiration, inactivity))
    {
      ghost var r := Fresh(inbound, outbound, petty, expiration, inactivity);
      FreshIsBacked(inbound, outbound, petty, expiration, inactivity);
      ReserveKeepsSound(View(), now, r);
      if state.lossVoucher.Some? {
        return None;
      }
      ReleaseExpiredAmount(now);
      var gross := GrossAmountRequired(outbound, petty);
      var available := state.balance - (reservedAmt + state.redeemed);
      if available < gross {
        return None;
      }
      var res := Reservation(inbound, Tally(inbound.currency, 0, 0), outbound, Tally(outbound.currency, 0, 0), gross,
                             0, Some(expiration), inactivity);
      var id := Enter(res);
      return Some(id);
    }

    /** Enters a reservation under the next id. */
    method Enter(r: Reservation) returns (id: nat)
      modifies this`reservations, this`reservedAmt, this`reservedNonce
      ensures id == old(reservedNonce) + 1
      ensures View() == Ledger(old(state), old(reservedAmt) + r.remain, id, old(reservations)[id := r])
    {
      id := reservedNonce + 1;
      reservations := reservations[id := r];
      reservedAmt := reservedAmt + r.remain;
      reservedNonce := id;
    }

    /** The provisional check of Pay, under the read lock. */
    method CanPay(now: Time, resID: nat, grossReceived: Option<int>, petty: int) returns (ok: Result<()>)
      requires Valid()
      ensures petty > 0 && (grossReceived.Some? ==> grossReceived.value > 0) ==>
        (ok.Ok? <==> PayLocked(View(), now, resID, grossReceived, petty, true).1.Ok?)
      ensures petty <= 0 || (grossReceived.Some? && grossReceived.value <= 0) ==> ok == Err(NotPositive)
    {
      if petty <= 0 || (grossReceived.Some? && grossReceived.value <= 0) {
        return Err(NotPositive);
      }
      if state.lossVoucher.Some? {
        return Err(LossPresent);
      }
      if resID !in reservations {
        return Err(NoReservation);
      }
      var res := reservations[resID];
      if Expired(res, now) {
        return Err(ReservationExpired);
      }
      var charged := ChargeReservation(res, grossReceived, petty);
      ok := if charged.Ok? then Ok(()) else Err(charged.error);
    }

    /** Pay under the write lock: issues a voucher and leaves the payment pending. */
    method Pay(now: Time, resID: nat, grossReceived: Option<int>, petty: nat, signed: bool)
      returns (voucher: Result<Voucher>)
      requires Valid() && pending.None?
      requires petty > 0 && (grossReceived.Some? ==> grossReceived.value > 0)
      modifies this
      ensures Valid()
      ensures View() == PayLocked(old(View()), now, resID, grossReceived, petty, signed).0
      ensures match PayLocked(old(View()), now, resID, grossReceived, petty, signed).1
              case Err(e) => pending.None? && voucher == Err(e)
              case Ok(p) => pending == Some(p) && voucher == Ok(p.voucher)
    {
      PayFits(View(), now, resID, grossReceived, petty, signed);
      if state.lossVoucher.Some? {
        return Err(LossPresent);
      }
      ReleaseExpiredAmount(now);
      if resID !in reservations {
        return Err(NoReservation);
      }
      var res := reservations[resID];
      var charged := ChargeReservation(res, grossReceived, petty);
      if charged.Err? {
        return Err(charged.error);
      }
      if !signed {
        return Err(SigningFailed);
      }
      // The provisional state, reserved amount and reservation; nothing is installed yet.
      var p := MakePending(View(), resID, charged.value);
      pending := Some(p);
      return Ok(p.voucher);
    }

    /** The commit closure of a pending payment. */
    method Commit(newLastAccessed: Time)
      requires Valid() && pending.Some?
      modifies this
      ensures Valid() && pending.None?
      ensures View() == ChannelLedger.Commit(old(View()), old(pending).value, newLastAccessed)
    {
      var p := pending.value;
      CommitKeepsSound(View(), p, newLastAccessed);
      match p.res {
        case None =>
          reservations := reservations - {p.resID};
        case Some(r) =>
          reservations := reservations[p.resID := r.(lastAccessed := newLastAccessed, expiration := None)];
      }
      reservedAmt := p.reservedAmt;
      state := p.state;
      pending := None;
    }

    /** The revert closure of a pending payment, with the loss voucher the recipient returned. */
    method Revert(loss: Option<Voucher>, ghost issued: set<Voucher>, verified: bool)
      requires Valid() && pending.Some?
      requires loss.Some? ==> (verified <==> loss.value in issued)
      requires forall v | v in issued :: v.redeemed <= state.balance
      modifies this
      ensures Valid() && pending.None?
      ensures View() == ChannelLedger.Revert(old(View()), loss, issued)
    {
      RevertKeepsSound(View(), loss, issued);
      pending := None;
      if loss.Some? {
        var v := loss.value;
        if !verified || v.sender != state.fromAddr || v.channel != state.chAddr || v.lane != 0
           || v.nonce <= state.nonce || v.redeemed < state.redeemed {
          return;
        }
        state := state.(lossVoucher := loss);
        state := state.(stateNonce := state.stateNonce + 1);
        reservedAmt := 0;
        reservations := map[];
      }
    }

    /** UpdateOutboundChannelBalance with the balance found on chain. The ledger stays sound exactly if that
        covers what it has redeemed, reserved and recorded as lost. */
    method UpdateBalance(balance: int) returns (updated: bool)
      requires Valid() && pending.None?
      modifies this`state
      ensures View() == ChannelLedger.UpdateBalance(old(View()), balance) && state.balance == balance
      ensures updated <==> old(state).balance != balance
      ensures Valid() <==> Covers(old(View()), balance)
    {
      UpdateKeepsSoundIff(View(), balance);
      if state.balance == balance {
        return false;
      }
      state := state.(balance := balance);
      state := state.(stateNonce := state.stateNonce + 1);
      return true;
    }

    /** BearNetworkLoss. */
    method BearNetworkLoss() returns (borne: bool)
      requires Valid() && pending.None?
      modifies this`state
      ensures Valid() && View() == Bear(old(View()))
      ensures borne <==> old(state).lossVoucher.Some?
    {
      BearKeepsSound(View());
      if state.lossVoucher.None? {
        return false;
      }
      var v := state.lossVoucher.value;
      state := state.(redeemed := v.redeemed);
      state := state.(nonce := v.nonce);
      state := state.(voucher := state.lossVoucher);
      state := state.(lossVoucher := None);
      state := state.(stateNonce := state.stateNonce + 1);
      return true;
    }
  }
}
