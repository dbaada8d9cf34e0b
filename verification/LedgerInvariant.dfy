/** What every operation of the channel ledger keeps, and what a reservation is good for. */
module LedgerInvariant {
  import opened Wrappers
  import opened Meter
  import opened ChannelLedger

  // ---------------------------------------------------------------- reservations

  lemma ReservedRemain(r: Reservation)
    requires Reserved(r)
    ensures 0 < r.remain
  {
    var petty: nat :| Backed(r, petty);
    CostMono(r.outbound, petty, r.paid.petty);
  }

  lemma {:induction false} SumBounds(m: map<nat, Reservation>)
    requires forall id | id in m :: Reserved(m[id])
    ensures 0 <= SumRemain(m)
    ensures forall id | id in m :: 0 < m[id].remain <= SumRemain(m)
    decreases |m|
  {
    forall id | id in m
      ensures 0 < m[id].remain <= SumRemain(m)
    {
      ReservedRemain(m[id]);
      SumRemove(m, id);
      SumBounds(m - {id});
    }
    if m != map[] {
      var id :| id in m;
    }
  }

  lemma FreshIsBacked(inbound: Price, outbound: CheckedPrice, petty: nat, expiration: Time, inactivity: Time)
    requires petty > 0
    ensures Backed(Fresh(inbound, outbound, petty, expiration, inactivity), petty)
  {
  }

  /** A reservation that has not been used expires when it was said to and not before; once it has been
      used, when it has been left alone for longer than it was said to be. */
  lemma FreshExpires(
    inbound: Price, outbound: CheckedPrice, petty: nat, expiration: Time, inactivity: Time, used: Time, t: Time)
    ensures var r := Fresh(inbound, outbound, petty, expiration, inactivity);
            && (Expired(r, t) <==> t > expiration)
            && (Expired(r.(lastAccessed := used, expiration := None), t) <==> t - used > inactivity)
  {
  }

  /** An expired reservation is released with all that remains of it; a live one stays, with what remains
      of it set aside. */
  lemma ReleaseGivesBack(l: Ledger, now: Time, id: nat)
    requires Sound(l) && id in l.reservations
    ensures Expired(l.reservations[id], now) ==>
      && id !in Release(l, now).reservations
      && Available(Release(l, now)) >= Available(l) + l.reservations[id].remain
    ensures !Expired(l.reservations[id], now) ==>
      && id in Release(l, now).reservations && Release(l, now).reservations[id] == l.reservations[id]
      && Release(l, now).reservedAmt >= l.reservations[id].remain
  {
    SumLiveDead(l.reservations, now);
    SumBounds(Dead(l.reservations, now));
    SumBounds(Live(l.reservations, now));
    if Expired(l.reservations[id], now) {
      assert id in Dead(l.reservations, now);
    } else {
      assert id in Live(l.reservations, now);
    }
  }

  /** The petty amount of a reservation is determined by what remains of it. */
  lemma BackedIsUnique(r: Reservation, petty: nat, petty': nat)
    requires Backed(r, petty) && Backed(r, petty')
    ensures petty == petty'
  {
    CostMono(r.outbound, petty, petty');
    CostMono(r.outbound, petty', petty);
  }

  /** One payment on a reservation of `petty`: it is covered exactly if the petty amounts paid
      stay within the reservation, and it uses the reservation up exactly if they reach it. */
  lemma ChargeIsExact(r: Reservation, petty: nat, grossReceived: Option<int>, x: nat)
    requires Backed(r, petty) && x > 0
    requires grossReceived.Some? ==> grossReceived.value > 0
    requires Charge(r, grossReceived, x) != Err(PettyMismatch)
    ensures match Charge(r, grossReceived, x)
            case Err(e) => e == NotCovered && r.paid.petty + x > petty
            case Ok(r') =>
              && r'.paid.petty == r.paid.petty + x <= petty
              && r'.remain == Cost(r.outbound, petty) - r'.paid.Total()
              && 0 < r.remain - r'.remain
              && (r'.remain == 0 <==> r'.paid.petty == petty)
              && (r'.remain != 0 ==> Backed(r', petty))
  {
    var p := r.paid.petty;
    PayReceiveOnce(r.outbound, p, x);
    CostMono(r.outbound, p + x, petty);
    CostMono(r.outbound, petty, p + x);
    CostMono(r.outbound, p + x, p);
    if grossReceived.Some? {
      SplitReceive(r.inbound, r.received, grossReceived.value, 0);
    }
  }

  /** A payment on a reservation: the gross amount that drives it, if it is for somebody else, and
      the petty amount. */
  type Payment = (Option<int>, nat)

  predicate Legal(pays: seq<Payment>) {
    forall i | 0 <= i < |pays| :: pays[i].1 > 0 && (pays[i].0.Some? ==> pays[i].0.value > 0)
  }

  function Asked(pays: seq<Payment>): nat {
    if pays == [] then 0 else pays[0].1 + Asked(pays[1..])
  }

  /** Payments on one reservation, one after the other, up to the first that is refused. */
  function ChargeAll(r: Reservation, pays: seq<Payment>): Result<Reservation>
    decreases |pays|
  {
    if pays == [] then Ok(r)
    else
      match Charge(r, pays[0].0, pays[0].1)
      case Err(e) => Err(e)
      case Ok(r') => ChargeAll(r', pays[1..])
  }

  /** However a reservation of `petty` is split into payments, for the node itself or for others, as
      long as what arrives matches what is asked for they are covered exactly if they stay within it
      in total, and it is used up exactly if they reach it. */
  lemma {:induction false} ReservationIsExact(r: Reservation, petty: nat, pays: seq<Payment>)
    requires Backed(r, petty) && Legal(pays)
    ensures match ChargeAll(r, pays)
            case Err(e) => e == PettyMismatch || (e == NotCovered && r.paid.petty + Asked(pays) > petty)
            case Ok(r') =>
              && r'.paid.petty == r.paid.petty + Asked(pays) <= petty
              && r'.remain == Cost(r.outbound, petty) - r'.paid.Total()
              && (r'.remain == 0 <==> r'.paid.petty == petty)
              && (r'.remain != 0 ==> Backed(r', petty))
    decreases |pays|
  {
    if pays == [] {
      CostMono(r.outbound, petty, r.paid.petty);
    } else if Charge(r, pays[0].0, pays[0].1) != Err(PettyMismatch) {
      ChargeIsExact(r, petty, pays[0].0, pays[0].1);
      match Charge(r, pays[0].0, pays[0].1)
      case Err(_) =>
      case Ok(r') =>
        if r'.remain != 0 {
          ReservationIsExact(r', petty, pays[1..]);
        } else if pays[1..] != [] {
          NothingLeft(r', petty, pays[1].0, pays[1].1);
        }
    }
  }

  /** A used-up reservation covers nothing more. */
  lemma NothingLeft(r: Reservation, petty: nat, grossReceived: Option<int>, x: nat)
    requires r.paid == PaidFor(r.outbound, petty) && r.remain == 0 && x > 0
    ensures Charge(r, grossReceived, x) == Err(PettyMismatch) || Charge(r, grossReceived, x) == Err(NotCovered)
    ensures grossReceived.None? ==> Charge(r, grossReceived, x) == Err(NotCovered)
  {
    PayReceiveOnce(r.outbound, petty, x);
    CostMono(r.outbound, petty + x, petty);
  }

  /** What remains covers what has been paid only in the first half: exactly while the cost of the
      petty amount paid is at most half the cost of the whole. */
  lemma RemainCoversPaidIff(r: Reservation, petty: nat)
    requires Backed(r, petty)
    ensures r.remain >= r.paid.petty + r.paid.surcharge <==> 2 * Cost(r.outbound, r.paid.petty) <= Cost(r.outbound, petty)
  {
  }

  /** Reserving three and paying two without surcharge leaves one. */
  lemma RemainNeedNotCoverPaid(l: Ledger, c: CurrencyID, expiration: Time, inactivity: Time)
    requires l.state.lossVoucher.None? && l.reservations == map[] && l.reservedNonce == 0 && expiration >= 0
    requires Available(l) >= 3
    ensures var (l1, id) := Reserve(l, 0, Fresh(Price(c, 0, 0), Price(c, 0, 0), 3, expiration, inactivity));
            && id == Some(1)
            && var (l2, pending) := PayLocked(l1, 0, 1, None, 2, true);
               && pending.Ok?
               && var r := Commit(l2, pending.value, 0).reservations;
                  1 in r && r[1].remain < r[1].paid.petty + r[1].paid.surcharge
  {
    var r := Fresh(Price(c, 0, 0), Price(c, 0, 0), 3, expiration, inactivity);
    assert r.remain == 3;
    var (l1, id) := Reserve(l, 0, r);
    NothingDead(l.reservations, 0);
    assert id == Some(1) && l1.reservations[1] == r;
    var (l2, pending) := PayLocked(l1, 0, 1, None, 2, true);
    assert l2.reservations[1] == r;
  }

  lemma NothingDead(m: map<nat, Reservation>, now: Time)
    requires m == map[]
    ensures Live(m, now) == m && SumRemain(Dead(m, now)) == 0
  {
    assert Dead(m, now) == map[];
  }

  // ---------------------------------------------------------------- the ledger

  lemma ReleaseKeepsSound(l: Ledger, now: Time)
    requires Sound(l)
    ensures Sound(Release(l, now))
    ensures Release(l, now).reservedAmt <= l.reservedAmt
  {
    SumLiveDead(l.reservations, now);
    SumBounds(Dead(l.reservations, now));
    if l.state.lossVoucher.Some? {
      assert Live(l.reservations, now) == map[];
    }
  }

  /** The later expired reservations are released, the more is available. */
  lemma ReleaseLater(l: Ledger, t: Time, t': Time)
    requires Sound(l) && t <= t'
    ensures Available(Release(l, t)) <= Available(Release(l, t'))
  {
    ReleaseKeepsSound(l, t);
    ReleaseKeepsSound(l, t');
    ReleaseKeepsSound(Release(l, t), t');
    var released := Release(l, t);
    assert Live(released.reservations, t') == Live(l.reservations, t');
  }

  /** A sound ledger has something to give back exactly if a reservation has expired. */
  lemma NothingExpired(l: Ledger, now: Time)
    requires Sound(l)
    ensures 0 < SumRemain(Dead(l.reservations, now)) <==> Dead(l.reservations, now) != map[]
    ensures Dead(l.reservations, now) == map[] ==> Release(l, now) == l
  {
    var dead := Dead(l.reservations, now);
    SumBounds(dead);
    if dead != map[] {
      var id :| id in dead;
    } else {
      assert forall id | id in l.reservations :: id !in dead;
      assert Live(l.reservations, now) == l.reservations;
    }
  }

  lemma ReserveKeepsSound(l: Ledger, now: Time, r: Reservation)
    requires Sound(l) && Reserved(r)
    ensures Sound(Reserve(l, now, r).0)
  {
    if l.state.lossVoucher.None? {
      ReleaseKeepsSound(l, now);
      var l' := Release(l, now);
      var id := l'.reservedNonce + 1;
      SumUpdate(l'.reservations, id, r);
      SumAbsent(l'.reservations, id);
    }
  }

  /** A reservation takes exactly its amount out of what is available, under an id that no
      reservation of the channel has had before; it fails only for want of money, or after a loss. */
  lemma ReserveIsExact(l: Ledger, now: Time, r: Reservation)
    requires Sound(l)
    ensures var (l', id) := Reserve(l, now, r);
            && (id.Some? <==> l.state.lossVoucher.None? && r.remain <= Available(Release(l, now)))
            && (id.Some? ==>
                  && id.value == l.reservedNonce + 1 && (forall k | k in l.reservations :: k < id.value)
                  && Available(l') == Available(Release(l, now)) - r.remain
                  && l'.reservations - {id.value} == Live(l.reservations, now))
            && (id.None? ==> l' == if l.state.lossVoucher.Some? then l else Release(l, now))
  {
  }

  /** Pay succeeds exactly on a reservation that is alive and covers it, with no loss recorded and a voucher
      that could be signed; when it does not, no money has moved. */
  lemma PayIff(l: Ledger, now: Time, resID: nat, grossReceived: Option<int>, petty: nat, signed: bool)
    ensures var (l', result) := PayLocked(l, now, resID, grossReceived, petty, signed);
            && (result.Ok? <==>
                  && l.state.lossVoucher.None? && signed
                  && resID in l.reservations && !Expired(l.reservations[resID], now)
                  && Charge(l.reservations[resID], grossReceived, petty).Ok?)
            && l' == (if l.state.lossVoucher.Some? then l else Release(l, now))
            && (result.Ok? ==>
                  var p, r := result.value, Charge(l.reservations[resID], grossReceived, petty).value;
                  && p.gross == l.reservations[resID].remain - r.remain
                  && p.state.redeemed - l.state.redeemed == l'.reservedAmt - p.reservedAmt == p.gross)
  {
  }

  /** A successful Pay yields a pending payment that fits, on a ledger that is still sound. */
  lemma PayFits(l: Ledger, now: Time, resID: nat, grossReceived: Option<int>, petty: nat, signed: bool)
    requires Sound(l) && petty > 0 && (grossReceived.Some? ==> grossReceived.value > 0)
    ensures var (l', result) := PayLocked(l, now, resID, grossReceived, petty, signed);
            Sound(l') && l'.state == l.state && (result.Ok? ==> Fits(l', result.value))
  {
    ReleaseKeepsSound(l, now);
    var (l', result) := PayLocked(l, now, resID, grossReceived, petty, signed);
    if result.Ok? {
      var r := l'.reservations[resID];
      var total: nat :| Backed(r, total);
      ChargeIsExact(r, total, grossReceived, petty);
      var r' := Charge(r, grossReceived, petty).value;
      assert result.value == MakePending(l', resID, r');
    }
  }

  lemma CommitKeepsSound(l: Ledger, p: Pending, newLastAccessed: Time)
    requires Sound(l) && Fits(l, p)
    ensures Sound(Commit(l, p, newLastAccessed))
  {
    var r: Reservation :| p == MakePending(l, p.resID, r) && 0 < p.gross
      && (if r.remain == 0 then p.res.None? else Reserved(r));
    SumRemove(l.reservations, p.resID);
    SumBounds(l.reservations);
    if p.res.Some? {
      var used := r.(lastAccessed := newLastAccessed, expiration := None);
      var petty: nat :| Backed(r, petty);
      assert Backed(used, petty);
      SumUpdate(l.reservations, p.resID, used);
    }
  }

  lemma RevertKeepsSound(l: Ledger, loss: Option<Voucher>, issued: set<Voucher>)
    requires Sound(l) && l.state.lossVoucher.None?
    requires forall v | v in issued :: v.redeemed <= l.state.balance
    ensures Sound(Revert(l, loss, issued))
  {
  }

  lemma UpdateBalanceKeepsSound(l: Ledger, balance: int)
    requires Sound(l) && l.state.balance <= balance
    ensures Sound(UpdateBalance(l, balance))
  {
  }

  /** A balance covers what is redeemed and reserved, and a recorded loss. */
  predicate Covers(l: Ledger, balance: int) {
    && l.state.redeemed + l.reservedAmt <= balance
    && (l.state.lossVoucher.Some? ==> l.state.lossVoucher.value.redeemed <= balance)
  }

  lemma UpdateKeepsSoundIff(l: Ledger, balance: int)
    requires Sound(l)
    ensures Sound(UpdateBalance(l, balance)) <==> Covers(l, balance)
    ensures l.state.balance <= balance ==> Covers(l, balance)
  {
  }

  /** The balance found on chain is taken over whole: all of it but what is reserved and redeemed is
      available, and nothing else changes. */
  lemma UpdateIsExact(l: Ledger, balance: int)
    ensures var l' := UpdateBalance(l, balance);
            && l'.state.balance == balance
            && Available(l') == balance - (l.reservedAmt + l.state.redeemed)
            && l'.reservations == l.reservations && l'.reservedAmt == l.reservedAmt && l'.reservedNonce == l.reservedNonce
            && l'.state == l.state.(balance := balance, stateNonce := l'.state.stateNonce)
            && (l'.state.stateNonce == l.state.stateNonce <==> l.state.balance == balance)
  {
  }

  /** Reverting with a voucher and bearing the loss brings the ledger to that voucher, without reservations,
      exactly if the voucher verifies, is for this channel and lane 0, and is ahead of the ledger; any
      other leaves the ledger as it is. */
  lemma RevertThenBear(l: Ledger, v: Voucher, issued: set<Voucher>)
    requires l.state.lossVoucher.None?
    ensures var l' := Bear(Revert(l, Some(v), issued));
            if v in issued && v.sender == l.state.fromAddr && v.channel == l.state.chAddr && v.lane == 0
               && v.nonce > l.state.nonce && v.redeemed >= l.state.redeemed
            then
              && l'.state.nonce == v.nonce && l'.state.redeemed == v.redeemed && l'.state.voucher == Some(v)
              && l'.state.lossVoucher.None? && l'.state.balance == l.state.balance
              && l'.state.stateNonce == l.state.stateNonce + 2
              && l'.reservations == map[] && Available(l') == l.state.balance - v.redeemed
            else l' == l
  {
  }

  /** Taking over the loss voucher leaves a ledger without loss and without reservations. */
  lemma BearKeepsSound(l: Ledger)
    requires Sound(l)
    ensures Sound(Bear(l))
    ensures l.state.lossVoucher.Some? ==> Available(Bear(l)) == l.state.balance - l.state.lossVoucher.value.redeemed
  {
  }

  /** One payment, from the lock to the commit: if what arrives matches what is asked for, it succeeds
      exactly if the reservation of `total` covers it; what is available does not change, the money
      moves from reserved to redeemed; the reservation is used up exactly when its total is reached,
      and otherwise lives until it is left alone for too long; no other live one is touched. */
  lemma PayCommitIsExact(l: Ledger, now: Time, resID: nat, total: nat, grossReceived: Option<int>, x: nat, later: Time)
    requires Sound(l) && l.state.lossVoucher.None? && x > 0 && (grossReceived.Some? ==> grossReceived.value > 0)
    requires resID in l.reservations && !Expired(l.reservations[resID], now) && Backed(l.reservations[resID], total)
    ensures var r := l.reservations[resID];
            var (l', result) := PayLocked(l, now, resID, grossReceived, x, true);
            if grossReceived.Some? && Receive(r.inbound, r.received, grossReceived.value).petty - r.received.petty != x
            then result == Err(PettyMismatch)
            else if r.paid.petty + x > total then result == Err(NotCovered)
            else
              && result.Ok?
              && var after := Commit(l', result.value, later);
                 && Available(after) == Available(Release(l, now))
                 && after.state.redeemed - l.state.redeemed == Cost(r.outbound, r.paid.petty + x) - Cost(r.outbound, r.paid.petty)
                 && after.reservations - {resID} == Live(l.reservations, now) - {resID}
                 && (resID in after.reservations <==> r.paid.petty + x < total)
                 && (resID in after.reservations ==>
                       && Backed(after.reservations[resID], total)
                       && after.reservations[resID].paid.petty == r.paid.petty + x
                       && forall t :: Expired(after.reservations[resID], t) <==> t > later + r.inactivity)
  {
    if Charge(l.reservations[resID], grossReceived, x) != Err(PettyMismatch) {
      ChargeIsExact(l.reservations[resID], total, grossReceived, x);
    }
  }

  /** A voucher that is issued is within the balance, also while the payment is pending. */
  lemma VoucherWithinBalance(l: Ledger, p: Pending)
    requires Sound(l) && Fits(l, p)
    ensures p.voucher == VoucherFor(l.state, p.gross)
    ensures l.state.redeemed < p.voucher.redeemed <= l.state.balance
    ensures p.state.redeemed == p.voucher.redeemed && p.state.nonce == l.state.nonce + 1
         && p.state.voucher == Some(p.voucher) && p.state.lossVoucher == None
  {
    SumBounds(l.reservations);
    var r: Reservation :| p == MakePending(l, p.resID, r) && 0 < p.gross
      && (if r.remain == 0 then p.res.None? else Reserved(r));
    if r.remain != 0 { ReservedRemain(r); }
    assert l.reservations[p.resID].remain <= l.reservedAmt;
  }
}
