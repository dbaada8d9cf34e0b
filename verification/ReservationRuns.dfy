/**
 What becomes of one reservation over whole runs of its channel (paymgr/paymentmgr_impl.go), with
 any other activity on the channel and on the network in between.
 */
module ReservationRuns {
  import opened Wrappers
  import opened Meter
  import opened ChannelLedger
  import opened LedgerInvariant
  import opened Protocol
  import opened Route

  /** The petty amount of the payment that went out last. */
  ghost function AskedLast(s: System, e: Event, asked: nat): nat {
    if Enabled(s, e) && e.Pay? && PayLocked(s.l, s.now, e.resID, e.grossReceived, e.amount, e.signed).1.Ok?
    then e.amount else asked
  }

  /** What an event commits on reservation id, if `asked` went out last. */
  function CommittedBy(s: System, e: Event, id: nat, asked: nat): nat {
    if Enabled(s, e) && e.Acknowledge? && s.sending.value.resID == id then asked else 0
  }

  /** The petty amounts committed on reservation id over a run. */
  ghost function Committed(s: System, es: seq<Event>, id: nat, asked: nat): nat
    decreases |es|
  {
    if es == [] then 0
    else CommittedBy(s, es[0], id, asked) + Committed(Step(s, es[0]), es[1..], id, AskedLast(s, es[0], asked))
  }

  /** r is a reservation of `total` at this price, of which `paid` has been used up. */
  ghost predicate Stands(r: Reservation, price: Price, total: nat, paid: nat) {
    Backed(r, total) && r.outbound == price && r.paid.petty == paid
  }

  /** Reservation id while `paid` of its `total` has been committed and `asked` went out last: if it is
      there it stands, and a payment pending on it leaves it standing, or used up exactly if that
      reaches the total. */
  ghost predicate Holds(s: System, id: nat, price: Price, total: nat, paid: nat, asked: nat) {
    && id <= s.l.reservedNonce && paid <= total
    && (id in s.l.reservations ==> Stands(s.l.reservations[id], price, total, paid))
    && (s.sending.Some? && s.sending.value.resID == id ==>
          if s.sending.value.res.None? then paid + asked == total
          else Stands(s.sending.value.res.value, price, total, paid + asked))
  }

  lemma PayHolds(s: System, e: Event, id: nat, price: Price, total: nat, paid: nat, asked: nat)
    requires Inv(s) && Enabled(s, e) && e.Pay? && Holds(s, id, price, total, paid, asked)
    ensures Holds(Next(s, e), id, price, total, paid, AskedLast(s, e, asked))
  {
    var (l, result) := PayLocked(s.l, s.now, e.resID, e.grossReceived, e.amount, e.signed);
    if result.Ok? && e.resID == id {
      ChargeIsExact(l.reservations[id], total, e.grossReceived, e.amount);
    }
  }

  lemma AcknowledgeHolds(s: System, id: nat, price: Price, total: nat, paid: nat, asked: nat)
    requires Inv(s) && Enabled(s, Acknowledge) && Holds(s, id, price, total, paid, asked)
    ensures Holds(Next(s, Acknowledge), id, price, total, paid + CommittedBy(s, Acknowledge, id, asked), asked)
  {
    var p := s.sending.value;
    if p.resID == id && p.res.Some? {
      var used := p.res.value.(lastAccessed := s.now, expiration := None);
      assert Stands(used, price, total, paid + asked);
    }
  }

  lemma StepHolds(s: System, e: Event, id: nat, price: Price, total: nat, paid: nat, asked: nat)
    requires Inv(s) && Holds(s, id, price, total, paid, asked)
    ensures Holds(Step(s, e), id, price, total, paid + CommittedBy(s, e, id, asked), AskedLast(s, e, asked))
  {
    if Enabled(s, e) {
      match e {
        case Pay(_, _, _, _) => PayHolds(s, e, id, price, total, paid, asked);
        case Acknowledge => AcknowledgeHolds(s, id, price, total, paid, asked);
        case _ =>
      }
    }
  }

  lemma CommittedStep(s: System, es: seq<Event>, id: nat, asked: nat)
    requires es != []
    ensures Run(s, es) == Run(Step(s, es[0]), es[1..])
    ensures Committed(s, es, id, asked)
         == CommittedBy(s, es[0], id, asked) + Committed(Step(s, es[0]), es[1..], id, AskedLast(s, es[0], asked))
  {
  }

  lemma {:induction false} RunHolds(s: System, es: seq<Event>, id: nat, price: Price, total: nat, paid: nat, asked: nat)
    returns (last: nat)
    requires Inv(s) && Holds(s, id, price, total, paid, asked)
    ensures Holds(Run(s, es), id, price, total, paid + Committed(s, es, id, asked), last)
    decreases |es|
  {
    if es == [] {
      last := asked;
    } else {
      var s', paid', asked' := Step(s, es[0]), paid + CommittedBy(s, es[0], id, asked), AskedLast(s, es[0], asked);
      StepInv(s, es[0]);
      StepHolds(s, es[0], id, price, total, paid, asked);
      CommittedStep(s, es, id, asked);
      last := RunHolds(s', es[1..], id, price, total, paid', asked');
    }
  }

  // ---------------------------------------------------------------- how long it stays

  /** A reservation goes only by expiring, with a recorded loss, or when its whole amount is committed. */
  lemma StepStays(s: System, e: Event, id: nat, price: Price, total: nat, paid: nat, asked: nat)
    requires Inv(s) && Holds(s, id, price, total, paid, asked) && id in s.l.reservations
    ensures var t := Step(s, e);
            || id in t.l.reservations
            || Expired(s.l.reservations[id], s.now)
            || t.l.state.lossVoucher.Some?
            || paid + CommittedBy(s, e, id, asked) == total
  {
  }

  /** At every state of the run no loss is recorded, and reservation id has not expired. */
  ghost predicate Undisturbed(s: System, es: seq<Event>, id: nat)
    decreases |es|
  {
    && s.l.state.lossVoucher.None?
    && (id in s.l.reservations ==> !Expired(s.l.reservations[id], s.now))
    && (es == [] || Undisturbed(Step(s, es[0]), es[1..], id))
  }

  lemma {:induction false} RunStays(s: System, es: seq<Event>, id: nat, price: Price, total: nat, paid: nat, asked: nat)
    requires Inv(s) && Holds(s, id, price, total, paid, asked) && id in s.l.reservations
    requires Undisturbed(s, es, id) && paid + Committed(s, es, id, asked) < total
    ensures id in Run(s, es).l.reservations
    decreases |es|
  {
    if es != [] {
      var s', paid', asked' := Step(s, es[0]), paid + CommittedBy(s, es[0], id, asked), AskedLast(s, es[0], asked);
      StepInv(s, es[0]);
      StepHolds(s, es[0], id, price, total, paid, asked);
      StepStays(s, es[0], id, price, total, paid, asked);
      CommittedStep(s, es, id, asked);
      RunStays(s', es[1..], id, price, total, paid', asked');
    }
  }

  lemma {:induction false} UndisturbedEnd(s: System, es: seq<Event>, id: nat)
    requires Undisturbed(s, es, id)
    ensures Undisturbed(Run(s, es), [], id)
    decreases |es|
  {
    if es != [] {
      UndisturbedEnd(Step(s, es[0]), es[1..], id);
    }
  }

  // ---------------------------------------------------------------- what it is good for

  /** Over every run, with any other reservations, payments, losses and expiries in between: what is
      committed on a reservation never exceeds the amount reserved, and as long as it is there, exactly
      what has been committed is used up and the rest is still backed at the same price. Until it
      expires or a loss is recorded, it is there exactly as long as something of it is left. */
  lemma NothingBeyondReserved(s: System, es: seq<Event>, id: nat, total: nat)
    requires Inv(s) && (s.sending.Some? ==> s.sending.value.resID != id)
    requires id in s.l.reservations && Backed(s.l.reservations[id], total)
    ensures var before, t := s.l.reservations[id], Run(s, es);
            var paid := before.paid.petty + Committed(s, es, id, 0);
            && paid <= total
            && (id in t.l.reservations ==> paid < total && Stands(t.l.reservations[id], before.outbound, total, paid))
            && (Undisturbed(s, es, id) ==> (id in t.l.reservations <==> paid < total))
  {
    var before := s.l.reservations[id];
    var last := RunHolds(s, es, id, before.outbound, total, before.paid.petty, 0);
    if Undisturbed(s, es, id) && before.paid.petty + Committed(s, es, id, 0) < total {
      RunStays(s, es, id, before.outbound, total, before.paid.petty, 0);
    }
  }

  /** What a payment of x on reservation id meets once `paid` of `total` has been committed: none left, a
      gross amount that does not carry x, too little left, or success. */
  ghost predicate PaysExactly(t: System, id: nat, total: nat, paid: nat, grossReceived: Option<int>, x: nat) {
    var result := PayLocked(t.l, t.now, id, grossReceived, x, true).1;
    if paid == total then result == Err(NoReservation)
    else
      && id in t.l.reservations
      && var r := t.l.reservations[id];
         if grossReceived.Some? && Meter.Receive(r.inbound, r.received, grossReceived.value).petty - r.received.petty != x
         then result == Err(PettyMismatch)
         else if paid + x > total then result == Err(NotCovered)
         else result.Ok?
  }

  /** Until it expires or a loss is recorded, in every state that a run leads to, a payment on the
      reservation, for the node itself or for others, goes through exactly if what arrives matches it
      and all payments together stay within the reserved amount. */
  lemma CoveredUpToReserved(s: System, es: seq<Event>, id: nat, total: nat, grossReceived: Option<int>, x: nat)
    requires Inv(s) && (s.sending.Some? ==> s.sending.value.resID != id)
    requires x > 0 && (grossReceived.Some? ==> grossReceived.value > 0)
    requires id in s.l.reservations && Backed(s.l.reservations[id], total) && Undisturbed(s, es, id)
    ensures PaysExactly(Run(s, es), id, total, s.l.reservations[id].paid.petty + Committed(s, es, id, 0), grossReceived, x)
  {
    NothingBeyondReserved(s, es, id, total);
    RunInv(s, es);
    UndisturbedEnd(s, es, id);
    var t := Run(s, es);
    if id in t.l.reservations {
      PayCommitIsExact(t.l, t.now, id, total, grossReceived, x, t.now);
    }
  }

  /** From reserving on: a reservation made in any reachable state is good for exactly the amount it
      was made for, over every run that follows. */
  lemma GoodForAmountReserved(s: System, e: Event, es: seq<Event>, id: nat, grossReceived: Option<int>, x: nat)
    requires Inv(s) && Enabled(s, e) && e.Reserve?
    requires ChannelLedger.Reserve(s.l, s.now, Fresh(e.inbound, e.outbound, e.petty, e.expiration, e.inactivity)).1 == Some(id)
    requires x > 0 && (grossReceived.Some? ==> grossReceived.value > 0)
    ensures var paid, t := Committed(Step(s, e), es, id, 0), Run(Step(s, e), es);
            && paid <= e.petty
            && (id in t.l.reservations ==> paid < e.petty && Stands(t.l.reservations[id], e.outbound, e.petty, paid))
            && (Undisturbed(Step(s, e), es, id) ==> PaysExactly(t, id, e.petty, paid, grossReceived, x))
  {
    FreshIsBacked(e.inbound, e.outbound, e.petty, e.expiration, e.inactivity);
    StepInv(s, e);
    NothingBeyondReserved(Step(s, e), es, id, e.petty);
    if Undisturbed(Step(s, e), es, id) {
      CoveredUpToReserved(Step(s, e), es, id, e.petty, grossReceived, x);
    }
  }

  // ---------------------------------------------------------------- a reservation that is not used

  /** Reservation id is as it was made, or gone, and no payment on it is pending. */
  ghost predicate Untouched(s: System, id: nat, r: Reservation) {
    && id <= s.l.reservedNonce
    && (id in s.l.reservations ==> s.l.reservations[id] == r)
    && (s.sending.Some? ==> s.sending.value.resID != id)
  }

  /** From s to t, reservation id goes only by expiring or with a recorded loss. */
  ghost predicate Remains(s: System, t: System, id: nat, r: Reservation) {
    && Untouched(t, id, r) && s.now <= t.now
    && (id in s.l.reservations && !Expired(r, s.now) && t.l.state.lossVoucher.None? ==> id in t.l.reservations)
  }

  lemma PayUntouched(s: System, e: Event, id: nat, r: Reservation)
    requires Enabled(s, e) && Untouched(s, id, r) && e.Pay? && e.resID != id
    ensures Remains(s, Next(s, e), id, r)
  {
  }

  lemma SettleUntouched(s: System, e: Event, id: nat, r: Reservation)
    requires Enabled(s, e) && Untouched(s, id, r) && (e.Acknowledge? || e.GiveUp?)
    ensures Remains(s, Next(s, e), id, r)
  {
  }

  lemma OtherUntouched(s: System, e: Event, id: nat, r: Reservation)
    requires Enabled(s, e) && Untouched(s, id, r) && !e.Pay? && !e.Acknowledge? && !e.GiveUp?
    ensures Remains(s, Next(s, e), id, r)
  {
  }

  lemma StepUntouched(s: System, e: Event, id: nat, r: Reservation)
    requires Untouched(s, id, r) && !(e.Pay? && e.resID == id)
    ensures Remains(s, Step(s, e), id, r)
  {
    if Enabled(s, e) {
      if e.Pay? {
        PayUntouched(s, e, id, r);
      } else if e.Acknowledge? || e.GiveUp? {
        SettleUntouched(s, e, id, r);
      } else {
        OtherUntouched(s, e, id, r);
      }
    }
  }

  /** No payment on reservation id is asked for. */
  predicate Unused(es: seq<Event>, id: nat) {
    forall e | e in es && e.Pay? :: e.resID != id
  }

  /** No loss is recorded at any state of the run. */
  ghost predicate Lossless(s: System, es: seq<Event>)
    decreases |es|
  {
    s.l.state.lossVoucher.None? && (es == [] || Lossless(Step(s, es[0]), es[1..]))
  }

  lemma LosslessEnd(s: System, es: seq<Event>)
    ensures Lossless(s, es) ==> s.l.state.lossVoucher.None?
  {
  }

  lemma {:induction false} RunUntouched(s: System, es: seq<Event>, id: nat, r: Reservation, expiration: Time)
    requires Inv(s) && Untouched(s, id, r) && Unused(es, id) && r.expiration == Some(expiration)
    ensures Inv(Run(s, es)) && Untouched(Run(s, es), id, r) && s.now <= Run(s, es).now
    ensures id in s.l.reservations && Run(s, es).now <= expiration && Lossless(s, es) ==> id in Run(s, es).l.reservations
    decreases |es|
  {
    if es != [] {
      assert es[0] in es && forall e | e in es[1..] :: e in es;
      StepInv(s, es[0]);
      StepUntouched(s, es[0], id, r);
      LosslessEnd(Step(s, es[0]), es[1..]);
      RunUntouched(Step(s, es[0]), es[1..], id, r, expiration);
    }
  }

  /** A reservation that is not used lasts just as long as it was made for: over every run that follows,
      up to `expiration` it is there unchanged with its whole amount set aside, unless a loss has been
      recorded; and after it, it is released, with its whole amount available again. */
  lemma UnusedReservationLasts(s: System, e: Event, es: seq<Event>, id: nat)
    requires Inv(s) && Enabled(s, e) && e.Reserve? && Unused(es, id)
    requires ChannelLedger.Reserve(s.l, s.now, Fresh(e.inbound, e.outbound, e.petty, e.expiration, e.inactivity)).1 == Some(id)
    ensures var t, r := Run(Step(s, e), es), Fresh(e.inbound, e.outbound, e.petty, e.expiration, e.inactivity);
            var released := Release(t.l, t.now);
            && (t.now <= e.expiration && Lossless(Step(s, e), es) ==>
                  && id in released.reservations && t.l.reservations[id] == released.reservations[id] == r
                  && released.reservedAmt >= Cost(e.outbound, e.petty))
            && (t.now > e.expiration ==> id !in released.reservations)
            && (t.now > e.expiration && id in t.l.reservations ==>
                  Available(released) >= Available(t.l) + Cost(e.outbound, e.petty))
  {
    var r := Fresh(e.inbound, e.outbound, e.petty, e.expiration, e.inactivity);
    StepInv(s, e);
    assert Untouched(Step(s, e), id, r);
    RunUntouched(Step(s, e), es, id, r, e.expiration);
    var t := Run(Step(s, e), es);
    if id in t.l.reservations {
      FreshExpires(e.inbound, e.outbound, e.petty, e.expiration, e.inactivity, t.now, t.now);
      ReleaseGivesBack(t.l, t.now, id);
    }
  }

  /** Time alone ends it: however long the clock goes on, a cleaning then finds it expired exactly if that has
      gone past the expiration. */
  lemma TimeReleases(t: System, id: nat, expiration: Time, elapsed: nat)
    requires Inv(t) && t.sending.None? && id in t.l.reservations && t.l.reservations[id].expiration == Some(expiration)
    ensures var u := Step(Step(t, Tick(elapsed)), Clean);
            && (id in u.l.reservations <==> t.now + elapsed <= expiration)
            && (id !in u.l.reservations ==> Available(u.l) >= Available(t.l) + t.l.reservations[id].remain)
  {
    ReleaseGivesBack(t.l, t.now + elapsed, id);
  }

  // ---------------------------------------------------------------- a proxy's reservation

  /** Reservation id was made for others, and what has come in for it covers what has gone out. */
  ghost predicate Even(s: System, id: nat, served: CheckedPrice) {
    && id <= s.l.reservedNonce
    && (id in s.l.reservations ==> Serves(s.l.reservations[id], served) && EvenHanded(s.l.reservations[id]))
    && (s.sending.Some? && s.sending.value.resID == id && s.sending.value.res.Some? ==>
          Serves(s.sending.value.res.value, served) && EvenHanded(s.sending.value.res.value))
  }

  /** Every payment on reservation id is made for others. */
  predicate Driven(es: seq<Event>, id: nat) {
    forall e | e in es && e.Pay? && e.resID == id :: e.grossReceived.Some?
  }

  /** A payment for others that goes through, also one that uses the reservation up, passes on exactly
      the petty amount that came in for it, and brings in what the node serves for. */
  lemma PaymentIsEven(s: System, e: Event, id: nat, served: CheckedPrice)
    requires Inv(s) && Enabled(s, e) && Even(s, id, served) && e.Pay? && e.resID == id && e.grossReceived.Some?
    ensures var (l, result) := PayLocked(s.l, s.now, id, e.grossReceived, e.amount, e.signed);
            result.Ok? ==>
              && id in l.reservations
              && Charge(l.reservations[id], e.grossReceived, e.amount).Ok?
              && HasEarned(Charge(l.reservations[id], e.grossReceived, e.amount).value, served)
              && (result.value.res.Some? ==> Serves(result.value.res.value, served) && EvenHanded(result.value.res.value))
  {
    var (l, result) := PayLocked(s.l, s.now, id, e.grossReceived, e.amount, e.signed);
    if result.Ok? {
      var r := s.l.reservations[id];
      assert l.reservations[id] == r && Reserved(r);
      var petty: nat :| Backed(r, petty);
      PaymentEarns(r, petty, e.grossReceived.value, e.amount, served);
    }
  }

  lemma AcknowledgeEven(s: System, id: nat, served: CheckedPrice)
    requires Inv(s) && Enabled(s, Acknowledge) && Even(s, id, served)
    ensures Even(Next(s, Acknowledge), id, served)
  {
    var p := s.sending.value;
    if p.resID == id && p.res.Some? {
      var used := p.res.value.(lastAccessed := s.now, expiration := None);
      assert Serves(used, served) && EvenHanded(used);
    }
  }

  lemma PayEven(s: System, e: Event, id: nat, served: CheckedPrice)
    requires Inv(s) && Enabled(s, e) && Even(s, id, served) && e.Pay? && (e.resID == id ==> e.grossReceived.Some?)
    ensures Even(Next(s, e), id, served)
  {
    ReleasedEven(s, id, served);
    if e.resID == id {
      PaymentIsEven(s, e, id, served);
    }
  }

  lemma ReleasedEven(s: System, id: nat, served: CheckedPrice)
    requires Even(s, id, served)
    ensures Even(s.(l := Release(s.l, s.now)), id, served)
  {
    var l := Release(s.l, s.now);
    assert id in l.reservations ==> id in s.l.reservations && l.reservations[id] == s.l.reservations[id];
  }

  lemma OtherEven(s: System, e: Event, id: nat, served: CheckedPrice)
    requires Inv(s) && Enabled(s, e) && Even(s, id, served) && !e.Pay? && !e.Acknowledge?
    ensures Even(Next(s, e), id, served)
  {
    var l := Next(s, e).l;
    assert id in l.reservations ==> id in s.l.reservations && l.reservations[id] == s.l.reservations[id];
  }

  lemma StepEven(s: System, e: Event, id: nat, served: CheckedPrice)
    requires Inv(s) && Even(s, id, served) && (e.Pay? && e.resID == id ==> e.grossReceived.Some?)
    ensures Even(Step(s, e), id, served)
  {
    if Enabled(s, e) {
      if e.Pay? {
        PayEven(s, e, id, served);
      } else if e.Acknowledge? {
        AcknowledgeEven(s, id, served);
      } else {
        OtherEven(s, e, id, served);
      }
    }
  }

  lemma {:induction false} RunEven(s: System, es: seq<Event>, id: nat, served: CheckedPrice)
    requires Inv(s) && Even(s, id, served) && Driven(es, id)
    ensures Inv(Run(s, es)) && Even(Run(s, es), id, served)
    decreases |es|
  {
    if es != [] {
      assert es[0] in es && forall e | e in es[1..] :: e in es;
      StepInv(s, es[0]);
      StepEven(s, es[0], id, served);
      RunEven(Step(s, es[0]), es[1..], id, served);
    }
  }

  /** A proxy earns what it serves for: from the reserving on, over every run of its channel in which the
      reservation serves others only, with any other activity in between, petty received and paid are
      equal and the surcharge received covers the surcharge paid and the proxy's own, and so it will
      be after every further payment that goes through, the last one included. */
  lemma ProxyEarnsOverRuns(s: System, e: Event, es: seq<Event>, id: nat, served: CheckedPrice, pay: Event)
    requires Inv(s) && Enabled(s, e) && e.Reserve? && e.inbound == Calibrate(served, e.outbound)
    requires ChannelLedger.Reserve(s.l, s.now, Fresh(e.inbound, e.outbound, e.petty, e.expiration, e.inactivity)).1 == Some(id)
    requires Driven(es, id)
    ensures var t := Run(Step(s, e), es);
            && (id in t.l.reservations ==> HasEarned(t.l.reservations[id], served))
            && (pay.Pay? && pay.resID == id && pay.grossReceived.Some? && Enabled(t, pay) ==>
                  var (l, result) := PayLocked(t.l, t.now, id, pay.grossReceived, pay.amount, pay.signed);
                  result.Ok? ==>
                    && id in l.reservations && Charge(l.reservations[id], pay.grossReceived, pay.amount).Ok?
                    && HasEarned(Charge(l.reservations[id], pay.grossReceived, pay.amount).value, served))
  {
    var r := Fresh(e.inbound, e.outbound, e.petty, e.expiration, e.inactivity);
    assert Serves(r, served) && EvenHanded(r);
    StepInv(s, e);
    RunEven(Step(s, e), es, id, served);
    var t := Run(Step(s, e), es);
    if id in t.l.reservations {
      assert Reserved(t.l.reservations[id]);
      EvenEarns(t.l.reservations[id], served);
    }
    if pay.Pay? && pay.resID == id && pay.grossReceived.Some? && Enabled(t, pay) {
      PaymentIsEven(t, pay, id, served);
    }
  }
}
