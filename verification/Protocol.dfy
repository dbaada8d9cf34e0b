/**
 Sender and recipient of one payment channel over an unreliable network. Vouchers can be lost,
 delayed, repeated and reordered; acknowledgements and loss reports can be lost or delayed. The
 sender commits only on an acknowledgement of the very voucher it has pending.
 */
module Protocol {
  import opened Wrappers
  import opened Meter
  import opened ChannelLedger
  import opened LedgerInvariant
  import opened InboundChannels

  datatype System = System(
    l: Ledger,                    // the sender's outbound channel
    sending: Option<Pending>,     // its pending payment, while the channel lock is held
    issued: set<Voucher>,         // every voucher it has signed: the network may deliver any of them
    r: State,                     // the recipient's inbound channel
    receiving: Option<State>,     // its provisional state, while its channel lock is held
    committed: set<Voucher>,      // vouchers the recipient has committed: these may be acknowledged
    reported: set<Voucher>,       // vouchers the recipient has reported as its latest
    chain: int,                   // the balance on chain
    now: Time)

  datatype Event =
    | Reserve(inbound: Price, outbound: CheckedPrice, petty: nat, expiration: Time, inactivity: Time)
    | Pay(resID: nat, grossReceived: Option<int>, amount: nat, signed: bool)
    | Acknowledge                         // an acknowledgement arrives and the sender commits
    | GiveUp(loss: Option<Voucher>)       // the sender reverts, perhaps with a loss report
    | Clean | UpdateBalance | Bear
    | TopUp(extra: nat) | Tick(elapsed: nat)
    | ProbeVoucher(v: Voucher) | ReceiveVoucher(v: Voucher)
    | CommitReceived | RevertReceived

  predicate Enabled(s: System, e: Event) {
    match e
    case Reserve(_, _, petty, _, _) => s.sending.None? && petty > 0
    case Pay(_, grossReceived, petty, _) =>
      s.sending.None? && petty > 0 && (grossReceived.Some? ==> grossReceived.value > 0)
    case Acknowledge => s.sending.Some? && s.sending.value.voucher in s.committed
    case GiveUp(loss) =>
      s.sending.Some? && (loss.Some? ==> loss.value in s.reported || loss.value !in s.issued)
    case Clean => s.sending.None?
    case UpdateBalance => s.sending.None?
    case Bear => s.sending.None?
    case TopUp(_) => true
    case Tick(_) => true
    case ProbeVoucher(v) => v in s.issued && s.receiving.None?
    case ReceiveVoucher(v) => v in s.issued && s.receiving.None?
    case CommitReceived => s.receiving.Some?
    case RevertReceived => s.receiving.Some?
  }

  /** What the recipient answers when it finds itself out of step. */
  function Reports(s: System, receipt: Receipt): set<Voucher> {
    if receipt.OutOfStep? && receipt.latest.Some? then s.reported + {receipt.latest.value} else s.reported
  }

  ghost function Next(s: System, e: Event): System
    requires Enabled(s, e)
  {
    match e
    case Reserve(inbound, outbound, petty, expiration, inactivity) =>
      s.(l := ChannelLedger.Reserve(s.l, s.now, Fresh(inbound, outbound, petty, expiration, inactivity)).0)
    case Pay(resID, grossReceived, petty, signed) =>
      (match PayLocked(s.l, s.now, resID, grossReceived, petty, signed)
       case (l, Err(_)) => s.(l := l)
       case (l, Ok(p)) => s.(l := l, sending := Some(p), issued := s.issued + {p.voucher}))
    case Acknowledge => s.(l := Commit(s.l, s.sending.value, s.now), sending := None)
    case GiveUp(loss) => s.(l := Revert(s.l, loss, s.issued), sending := None)
    case Clean => s.(l := Release(s.l, s.now))
    case UpdateBalance => s.(l := ChannelLedger.UpdateBalance(s.l, s.chain))
    case Bear => s.(l := ChannelLedger.Bear(s.l))
    case TopUp(extra) => s.(chain := s.chain + extra)
    case Tick(elapsed) => s.(now := s.now + elapsed)
    case ProbeVoucher(v) => s.(reported := Reports(s, Probe(s.r, v, s.chain)))
    case ReceiveVoucher(v) =>
      var receipt := InboundChannels.Receive(s.r, v, s.chain);
      s.(reported := Reports(s, receipt), receiving := if receipt.Accepted? then Some(receipt.next) else None)
    case CommitReceived =>
      s.(r := s.receiving.value, receiving := None,
         committed := s.committed + (if s.receiving.value.voucher.Some? then {s.receiving.value.voucher.value} else {}))
    case RevertReceived => s.(receiving := None)
  }

  /** One event; an event that is not enabled does nothing. */
  ghost function Step(s: System, e: Event): System {
    if Enabled(s, e) then Next(s, e) else s
  }

  ghost function Run(s: System, es: seq<Event>): System
    decreases |es|
  {
    if es == [] then s else Run(Step(s, es[0]), es[1..])
  }

  /** Both sides add a channel that is found on chain with the same redeemed amount. */
  ghost predicate Init(s: System) {
    && s.l == Ledger(State(s.r.fromAddr, s.r.chAddr, s.l.state.balance, s.r.redeemed, 0, None, None, 0), 0, 0, map[])
    && s.r == State(s.r.fromAddr, s.r.chAddr, s.r.balance, s.r.redeemed, 0, None, None, 0)
    && s.sending.None? && s.receiving.None?
    && s.issued == {} && s.committed == {} && s.reported == {}
    && 0 <= s.r.redeemed <= s.r.balance <= s.chain
    && s.r.redeemed <= s.l.state.balance <= s.chain
  }

  // ---------------------------------------------------------------- the invariant

  /** What is known of every voucher the sender has ever signed. */
  ghost predicate VouchersSound(s: System) {
    forall v | v in s.issued ::
      && v.sender == s.l.state.fromAddr && v.channel == s.l.state.chAddr && v.lane == 0
      && 0 <= v.redeemed <= s.l.state.balance
      && v.nonce <= s.l.state.nonce + 1
      && (v.nonce == s.l.state.nonce + 1 ==> v.redeemed > s.l.state.redeemed)
  }

  /** The recipient is in step with the sender, or exactly one voucher ahead. */
  ghost predicate AtMostOneAhead(s: System) {
    && s.l.state.nonce <= s.r.nonce <= s.l.state.nonce + 1
    && (s.r.nonce == s.l.state.nonce ==> s.r.redeemed == s.l.state.redeemed && s.r.voucher == s.l.state.voucher)
    && (s.r.nonce == s.l.state.nonce + 1 ==> s.r.voucher.Some?)
    && (s.r.voucher.Some? ==>
          && s.r.voucher.value in s.committed
          && s.r.voucher.value.nonce == s.r.nonce && s.r.voucher.value.redeemed == s.r.redeemed)
    && (s.l.state.lossVoucher.Some? ==> s.r.nonce == s.l.state.nonce + 1 && s.l.state.lossVoucher == s.r.voucher)
  }

  /** Whatever the recipient acknowledges or reports, it has committed; and of the vouchers with
      its current nonce it has committed only one. */
  ghost predicate AnswersSound(s: System) {
    && s.reported <= s.committed <= s.issued
    && forall v | v in s.committed :: v.nonce <= s.r.nonce && (v.nonce == s.r.nonce ==> s.r.voucher == Some(v))
  }

  ghost predicate RecipientSound(s: System) {
    && s.r.lossVoucher.None?
    && 0 <= s.r.redeemed <= s.r.balance <= s.chain
    && (s.receiving.Some? ==>
          var next := s.receiving.value;
          && next.voucher.Some? && next.voucher.value in s.issued
          && s.r.nonce < next.nonce
          && next.nonce == next.voucher.value.nonce && next.redeemed == next.voucher.value.redeemed
          && next.lossVoucher.None? && 0 <= next.redeemed <= next.balance <= s.chain)
  }

  ghost predicate SenderSound(s: System) {
    && Sound(s.l) && s.l.state.balance <= s.chain
    && (s.sending.Some? ==> Fits(s.l, s.sending.value) && s.sending.value.voucher in s.issued)
  }

  ghost predicate Inv(s: System) {
    SenderSound(s) && VouchersSound(s) && RecipientSound(s) && AnswersSound(s) && AtMostOneAhead(s)
  }

  lemma InitInv(s: System)
    requires Init(s)
    ensures Inv(s)
  {
  }

  lemma ReserveInv(s: System, e: Event)
    requires Inv(s) && Enabled(s, e) && e.Reserve?
    ensures Inv(Next(s, e))
  {
    FreshIsBacked(e.inbound, e.outbound, e.petty, e.expiration, e.inactivity);
    ReserveKeepsSound(s.l, s.now, Fresh(e.inbound, e.outbound, e.petty, e.expiration, e.inactivity));
  }

  /** Issuing a voucher: the only new one is a single nonce ahead and within the balance. */
  lemma IssueInv(s: System, l: Ledger, p: Pending)
    requires Inv(s) && s.sending.None? && Sound(l) && l.state == s.l.state && Fits(l, p)
    ensures Inv(s.(l := l, sending := Some(p), issued := s.issued + {p.voucher}))
  {
    VoucherWithinBalance(l, p);
  }

  lemma PayInv(s: System, e: Event)
    requires Inv(s) && Enabled(s, e) && e.Pay?
    ensures Inv(Next(s, e))
  {
    PayFits(s.l, s.now, e.resID, e.grossReceived, e.amount, e.signed);
    var (l, result) := PayLocked(s.l, s.now, e.resID, e.grossReceived, e.amount, e.signed);
    match result {
      case Err(_) =>
        assert Next(s, e) == s.(l := l);
      case Ok(p) =>
        IssueInv(s, l, p);
        assert Next(s, e) == s.(l := l, sending := Some(p), issued := s.issued + {p.voucher});
    }
  }

  lemma AcknowledgeInv(s: System)
    requires Inv(s) && Enabled(s, Acknowledge)
    ensures Inv(Next(s, Acknowledge))
  {
    CommitKeepsSound(s.l, s.sending.value, s.now);
    VoucherWithinBalance(s.l, s.sending.value);
  }

  lemma GiveUpInv(s: System, e: Event)
    requires Inv(s) && Enabled(s, e) && e.GiveUp?
    ensures Inv(Next(s, e))
  {
    RevertKeepsSound(s.l, e.loss, s.issued);
  }

  lemma MaintenanceInv(s: System, e: Event)
    requires Inv(s) && Enabled(s, e) && (e.Clean? || e.UpdateBalance? || e.Bear? || e.TopUp? || e.Tick?)
    ensures Inv(Next(s, e))
  {
    match e {
      case Clean => ReleaseKeepsSound(s.l, s.now);
      case UpdateBalance => UpdateBalanceKeepsSound(s.l, s.chain);
      case Bear => BearKeepsSound(s.l);
      case _ =>
    }
  }

  lemma RecipientInv(s: System, e: Event)
    requires Inv(s) && Enabled(s, e)
    requires e.ProbeVoucher? || e.ReceiveVoucher? || e.CommitReceived? || e.RevertReceived?
    ensures Inv(Next(s, e))
  {
  }

  lemma StepInv(s: System, e: Event)
    requires Inv(s)
    ensures Inv(Step(s, e))
  {
    if Enabled(s, e) {
      match e {
        case Reserve(_, _, _, _, _) => ReserveInv(s, e);
        case Pay(_, _, _, _) => PayInv(s, e);
        case Acknowledge => AcknowledgeInv(s);
        case GiveUp(_) => GiveUpInv(s, e);
        case ProbeVoucher(_) => RecipientInv(s, e);
        case ReceiveVoucher(_) => RecipientInv(s, e);
        case CommitReceived => RecipientInv(s, e);
        case RevertReceived => RecipientInv(s, e);
        case _ => MaintenanceInv(s, e);
      }
    }
  }

  lemma {:induction false} RunInv(s: System, es: seq<Event>)
    requires Inv(s)
    ensures Inv(Run(s, es))
    decreases |es|
  {
    if es != [] {
      StepInv(s, es[0]);
      RunInv(Step(s, es[0]), es[1..]);
    }
  }

  // ---------------------------------------------------------------- what it means

  /** The two records show the same money. */
  predicate Agree(s: System) {
    && s.r.nonce == s.l.state.nonce && s.r.redeemed == s.l.state.redeemed && s.r.voucher == s.l.state.voucher
  }

  /** Over every run: the recipient is in step or exactly one voucher ahead, it agrees with the
      sender whenever the nonces agree, and no voucher ever signed exceeds the balance on chain. */
  lemma TwoPartyAgreement(s: System, es: seq<Event>)
    requires Init(s)
    ensures var t := Run(s, es);
            && (t.r.nonce == t.l.state.nonce || t.r.nonce == t.l.state.nonce + 1)
            && (t.r.nonce == t.l.state.nonce ==> Agree(t))
            && (t.r.nonce == t.l.state.nonce + 1 ==>
                  t.r.voucher.Some? && t.r.voucher.value in t.issued && t.r.redeemed > t.l.state.redeemed)
            && Sound(t.l)
            && forall v | v in t.issued :: v.redeemed <= t.l.state.balance <= t.chain
  {
    InitInv(s);
    RunInv(s, es);
  }

  /** Recording a loss report and bearing the loss puts the two sides back in step, exactly. */
  lemma BearingRestoresAgreement(s: System, es: seq<Event>)
    requires Init(s)
    ensures var t := Run(s, es);
            t.l.state.lossVoucher.Some? && t.sending.None? ==> Agree(Step(t, Bear))
  {
    InitInv(s);
    RunInv(s, es);
  }

  /** From every reachable state that has lost step while a payment is pending, three events lead
      back to agreement: the pending voucher is answered, the sender reverts with the answer, and
      bears the loss. */
  lemma LostAckIsRecovered(s: System, es: seq<Event>)
    requires Init(s)
    ensures var t := Run(s, es);
            t.sending.Some? && t.receiving.None? && t.r.nonce == t.l.state.nonce + 1 ==>
              && Probe(t.r, t.sending.value.voucher, t.chain) == OutOfStep(t.r.voucher)
              && Agree(Run(t, [ProbeVoucher(t.sending.value.voucher), GiveUp(t.r.voucher), Bear]))
  {
    InitInv(s);
    RunInv(s, es);
    var t := Run(s, es);
    if t.sending.Some? && t.receiving.None? && t.r.nonce == t.l.state.nonce + 1 {
      Recover(t);
    }
  }

  lemma ProbeReports(t: System)
    requires Inv(t) && t.sending.Some? && t.receiving.None? && t.r.nonce == t.l.state.nonce + 1
    ensures Probe(t.r, t.sending.value.voucher, t.chain) == OutOfStep(t.r.voucher)
    ensures Step(t, ProbeVoucher(t.sending.value.voucher)) == t.(reported := t.reported + {t.r.voucher.value})
  {
    VoucherWithinBalance(t.l, t.sending.value);
  }

  lemma ReportIsRecorded(t: System)
    requires Inv(t) && t.sending.Some? && t.r.nonce == t.l.state.nonce + 1
    requires t.r.voucher.value in t.reported
    ensures Step(t, GiveUp(t.r.voucher)).l.state.lossVoucher == t.r.voucher
    ensures Step(t, GiveUp(t.r.voucher)).sending.None? && Step(t, GiveUp(t.r.voucher)).r == t.r
  {
  }

  lemma RunThree(t: System, a: Event, b: Event, c: Event)
    ensures Run(t, [a, b, c]) == Step(Step(Step(t, a), b), c)
  {
    assert [a, b, c][1..] == [b, c] && [b, c][1..] == [c] && [c][1..] == [];
    assert Run(t, [a, b, c]) == Run(Step(t, a), [b, c]);
    assert Run(Step(t, a), [b, c]) == Run(Step(Step(t, a), b), [c]);
  }

  lemma Recover(t: System)
    requires Inv(t) && t.sending.Some? && t.receiving.None? && t.r.nonce == t.l.state.nonce + 1
    ensures Probe(t.r, t.sending.value.voucher, t.chain) == OutOfStep(t.r.voucher)
    ensures Agree(Run(t, [ProbeVoucher(t.sending.value.voucher), GiveUp(t.r.voucher), Bear]))
  {
    var a, b := ProbeVoucher(t.sending.value.voucher), GiveUp(t.r.voucher);
    ProbeReports(t);
    StepInv(t, a);
    ReportIsRecorded(Step(t, a));
    RunThree(t, a, b, Bear);
  }

  /** The recipient never turns away a good voucher: any voucher of the sender that is new to it is
      accepted, whatever order they arrive in, and credits exactly what was added to the sender's total. */
  lemma NewVouchersAreAccepted(s: System, es: seq<Event>, v: Voucher)
    requires Init(s)
    ensures var t := Run(s, es);
            v in t.issued && v.nonce > t.r.nonce ==>
              && InboundChannels.Receive(t.r, v, t.chain).Accepted?
              && t.r.nonce == t.l.state.nonce
              && InboundChannels.Receive(t.r, v, t.chain).gross == v.redeemed - t.l.state.redeemed > 0
  {
    InitInv(s);
    RunInv(s, es);
  }

  /** What the recipient has recorded is never taken back. */
  lemma {:induction false} RecipientNeverLoses(s: System, es: seq<Event>)
    requires Inv(s)
    ensures s.r.redeemed <= Run(s, es).r.redeemed && s.r.nonce <= Run(s, es).r.nonce
    decreases |es|
  {
    if es != [] {
      StepInv(s, es[0]);
      RecipientGains(s, es[0]);
      RecipientNeverLoses(Step(s, es[0]), es[1..]);
    }
  }

  lemma RecipientGains(s: System, e: Event)
    requires Inv(s)
    ensures s.r.redeemed <= Step(s, e).r.redeemed && s.r.nonce <= Step(s, e).r.nonce
  {
  }

  /** A top-up arrives whole: in every state that a run leads to, with nothing pending, updating the balance
      after it makes all of the balance on chain but what is reserved and redeemed available, at least
      the top-up, on a ledger that is sound. */
  lemma TopUpArrives(s: System, es: seq<Event>, extra: nat)
    requires Init(s)
    ensures var t := Run(s, es);
            var u := Step(Step(t, TopUp(extra)), UpdateBalance);
            t.sending.None? ==>
              && u.l.state.balance == t.chain + extra
              && Available(u.l) == t.chain + extra - (t.l.reservedAmt + t.l.state.redeemed)
              && Available(u.l) >= extra
              && u.l.reservations == t.l.reservations && Sound(u.l)
  {
    InitInv(s);
    RunInv(s, es);
    UpdateIsExact(Run(s, es).l, Run(s, es).chain + extra);
    UpdateBalanceKeepsSound(Run(s, es).l, Run(s, es).chain + extra);
  }

  lemma RunFour(t: System, a: Event, b: Event, c: Event, d: Event)
    ensures Run(t, [a, b, c, d]) == Step(Step(Step(Step(t, a), b), c), d)
  {
    RunThree(Step(t, a), b, c, d);
    assert [a, b, c, d][1..] == [b, c, d];
    assert Run(t, [a, b, c, d]) == Run(Step(t, a), [b, c, d]);
  }

  /** Over a network that loses nothing a payment completes: from every reachable state in agreement with
      nothing pending, a payment that the ledger lets through, its voucher received and committed, and
      its acknowledgement lead to agreement again, with the gross amount moved on both sides. */
  lemma PaymentCompletes(s: System, es: seq<Event>, resID: nat, grossReceived: Option<int>, x: nat)
    requires Init(s) && x > 0 && (grossReceived.Some? ==> grossReceived.value > 0)
    ensures var t := Run(s, es);
            var result := PayLocked(t.l, t.now, resID, grossReceived, x, true).1;
            t.sending.None? && t.receiving.None? && Agree(t) && result.Ok? ==>
              var v := result.value.voucher;
              var u := Run(t, [Pay(resID, grossReceived, x, true), ReceiveVoucher(v), CommitReceived, Acknowledge]);
              && Agree(u) && u.sending.None? && u.receiving.None?
              && u.r.redeemed == t.r.redeemed + result.value.gross && u.r.nonce == t.r.nonce + 1
              && u.r.voucher == Some(v)
              && u.l == Commit(PayLocked(t.l, t.now, resID, grossReceived, x, true).0, result.value, t.now)
  {
    InitInv(s);
    RunInv(s, es);
    var t := Run(s, es);
    if t.sending.None? && t.receiving.None? && Agree(t) && PayLocked(t.l, t.now, resID, grossReceived, x, true).1.Ok? {
      var (l, result) := PayLocked(t.l, t.now, resID, grossReceived, x, true);
      Completes(t, Pay(resID, grossReceived, x, true), l, result.value);
    }
  }

  /** The network has delivered the voucher that the sender has pending; both sides were in step before. */
  lemma Delivered(t: System, p: Pending)
    requires Inv(t) && t.sending == Some(p) && t.receiving.None? && Agree(t)
    ensures var u := Step(Step(t, ReceiveVoucher(p.voucher)), CommitReceived);
            && u.l == t.l && u.sending == t.sending && u.receiving.None? && u.now == t.now
            && u.r.redeemed == p.voucher.redeemed && u.r.nonce == p.voucher.nonce && u.r.voucher == Some(p.voucher)
            && p.voucher in u.committed
  {
    VoucherWithinBalance(t.l, p);
    AcceptedIff(t.r, p.voucher, t.chain);
  }

  lemma PayStep(t: System, a: Event, l: Ledger, p: Pending)
    requires Enabled(t, a) && a.Pay?
    requires PayLocked(t.l, t.now, a.resID, a.grossReceived, a.amount, a.signed) == (l, Ok(p))
    ensures Step(t, a) == t.(l := l, sending := Some(p), issued := t.issued + {p.voucher})
  {
  }

  lemma NextVoucher(t: System, a: Event, l: Ledger, p: Pending)
    requires SenderSound(t) && Enabled(t, a) && a.Pay?
    requires PayLocked(t.l, t.now, a.resID, a.grossReceived, a.amount, a.signed) == (l, Ok(p))
    ensures l.state == t.l.state
    ensures p.state.nonce == p.voucher.nonce == l.state.nonce + 1
    ensures p.state.redeemed == p.voucher.redeemed == l.state.redeemed + p.gross
    ensures p.state.voucher == Some(p.voucher)
  {
    PayFits(t.l, t.now, a.resID, a.grossReceived, a.amount, a.signed);
    VoucherWithinBalance(l, p);
  }

  lemma Completes(t: System, a: Event, l: Ledger, p: Pending)
    requires Inv(t) && Enabled(t, a) && a.Pay? && t.receiving.None? && Agree(t)
    requires PayLocked(t.l, t.now, a.resID, a.grossReceived, a.amount, a.signed) == (l, Ok(p))
    ensures var u := Run(t, [a, ReceiveVoucher(p.voucher), CommitReceived, Acknowledge]);
            && Agree(u) && u.sending.None? && u.receiving.None?
            && u.r.redeemed == t.r.redeemed + p.gross && u.r.nonce == t.r.nonce + 1
            && u.r.voucher == Some(p.voucher) && u.l == Commit(l, p, t.now)
  {
    NextVoucher(t, a, l, p);
    PayStep(t, a, l, p);
    StepInv(t, a);
    Delivered(Step(t, a), p);
    RunFour(t, a, ReceiveVoucher(p.voucher), CommitReceived, Acknowledge);
  }
}
