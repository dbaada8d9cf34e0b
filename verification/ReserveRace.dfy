/**
 Reserve at several channels at once (paymgr/paymentmgr_impl.go, Reserve): one attempt per channel
 to the same recipient, all of them interleaved with each other and with whatever else happens to
 the channels, and one reservation at most.
 */
module ReserveRace {
  import opened Wrappers
  import opened Meter
  import opened ChannelLedger
  import opened LedgerInvariant

  /** What is to be reserved; each channel comes with its own inbound price. */
  datatype Call = Call(inbound: map<string, Price>, outbound: CheckedPrice, petty: nat, expiration: Time, inactivity: Time)

  /** An attempt: before its provisional check, after it, under the channel's write lock, cleared
      to reserve (and the others told to stop), or over. */
  datatype Phase = Start | Checked | Locked | Cleared | Over

  datatype Race = Race(
    channels: map<string, Ledger>,
    phases: map<string, Phase>,
    stopped: bool,                          // the context the attempts share has been cancelled
    winner: Option<(string, nat)>,          // the channel and reservation id to be returned
    cleaned: map<string, Time>)             // when an attempt has released a channel's expired reservations

  datatype Event =
    | Check(ch: string, now: Time)
    | Lock(ch: string)
    | Clean(ch: string, now: Time)
    | Claim(ch: string)
    | Quit(ch: string)                      // an inspection, a policy, or the context ends the attempt
    | Other(ch: string, l: Ledger)          // somebody else changes the channel

  /** The reservation that an attempt on ch would enter. */
  function Wanted(call: Call, ch: string): Reservation
    requires ch in call.inbound
  {
    Fresh(call.inbound[ch], call.outbound, call.petty, call.expiration, call.inactivity)
  }

  predicate Enabled(s: Race, e: Event) {
    && e.ch in s.channels && e.ch in s.phases
    && match e
       case Check(ch, _) => s.phases[ch] == Start
       case Lock(ch) => s.phases[ch] == Checked
       case Clean(ch, _) => s.phases[ch] == Locked
       case Claim(ch) => s.phases[ch] == Cleared
       case Quit(ch) => s.phases[ch] == Start || s.phases[ch] == Checked
       case Other(ch, _) => s.phases[ch] != Locked && s.phases[ch] != Cleared
  }

  /** Where an attempt stands after the check under the write lock. */
  ghost predicate Clears(l: Ledger, now: Time, gross: int) {
    l.state.lossVoucher.None? && gross <= Available(Release(l, now))
  }

  /** The reservation entered. */
  function Charged(l: Ledger, r: Reservation): Ledger {
    var id := l.reservedNonce + 1;
    l.(reservations := l.reservations[id := r], reservedAmt := l.reservedAmt + r.remain, reservedNonce := id)
  }

  ghost function Next(call: Call, s: Race, e: Event): Race
    requires Enabled(s, e) && e.ch in call.inbound
  {
    var l, gross := s.channels[e.ch], Wanted(call, e.ch).remain;
    match e
    case Check(ch, now) => s.(phases := s.phases[ch := if Clears(l, now, gross) then Checked else Over])
    case Lock(ch) => s.(phases := s.phases[ch := Locked])
    case Clean(ch, now) =>
      if l.state.lossVoucher.Some? then s.(phases := s.phases[ch := Over])
      else
        s.(channels := s.channels[ch := Release(l, now)],
           cleaned := s.cleaned[ch := now],
           stopped := s.stopped || Clears(l, now, gross),
           phases := s.phases[ch := if Clears(l, now, gross) then Cleared else Over])
    case Claim(ch) =>
      if s.winner.Some? then s.(phases := s.phases[ch := Over])
      else
        s.(channels := s.channels[ch := Charged(l, Wanted(call, ch))],
           winner := Some((ch, l.reservedNonce + 1)),
           phases := s.phases[ch := Over])
    case Quit(ch) => s.(phases := s.phases[ch := Over])
    case Other(ch, l') => s.(channels := s.channels[ch := l'])
  }

  ghost function Step(call: Call, s: Race, e: Event): Race
    requires call.inbound.Keys == s.channels.Keys
    ensures Step(call, s, e).channels.Keys == s.channels.Keys
  {
    if Enabled(s, e) then Next(call, s, e) else s
  }

  ghost function Run(call: Call, s: Race, es: seq<Event>): (t: Race)
    requires call.inbound.Keys == s.channels.Keys
    ensures t.channels.Keys == s.channels.Keys
    decreases |es|
  {
    if es == [] then s else Run(call, Step(call, s, es[0]), es[1..])
  }

  ghost predicate Init(call: Call, s: Race) {
    && call.petty > 0
    && call.inbound.Keys == s.channels.Keys == s.phases.Keys
    && (forall ch | ch in s.phases :: s.phases[ch] == Start)
    && (forall ch | ch in s.channels :: Sound(s.channels[ch]))
    && !s.stopped && s.winner.None? && s.cleaned == map[]
  }

  // ---------------------------------------------------------------- one reservation at most

  /** A ledger is sound, and one whose attempt is cleared can bear the reservation. */
  ghost predicate Okay(l: Ledger, phase: Phase, r: Reservation) {
    && Sound(l)
    && (phase == Cleared ==> l.state.lossVoucher.None? && r.remain <= Available(l))
  }

  ghost predicate ChannelsOkay(call: Call, s: Race) {
    && call.petty > 0
    && call.inbound.Keys == s.channels.Keys == s.phases.Keys
    && forall ch | ch in s.channels :: Okay(s.channels[ch], s.phases[ch], Wanted(call, ch))
  }

  /** Once the attempts have been told to stop, one of them has charged or is about to. */
  ghost predicate ChargeOkay(s: Race) {
    s.stopped ==> s.winner.Some? || exists ch :: ch in s.phases && s.phases[ch] == Cleared
  }

  ghost predicate Inv(call: Call, s: Race) {
    ChannelsOkay(call, s) && ChargeOkay(s)
  }

  lemma ChargedKeepsSound(l: Ledger, r: Reservation)
    requires Sound(l) && Reserved(r) && l.state.lossVoucher.None? && r.remain <= Available(l)
    ensures Sound(Charged(l, r))
  {
    var id := l.reservedNonce + 1;
    SumUpdate(l.reservations, id, r);
    SumAbsent(l.reservations, id);
  }

  /** An event changes nothing but the channel and the attempt that it names. */
  lemma OthersStay(call: Call, s: Race, e: Event)
    requires Enabled(s, e) && e.ch in call.inbound
    ensures var t := Next(call, s, e);
            && t.channels.Keys == s.channels.Keys && t.phases.Keys == s.phases.Keys
            && t.channels - {e.ch} == s.channels - {e.ch} && t.phases - {e.ch} == s.phases - {e.ch}
  {
  }

  lemma OwnStep(call: Call, s: Race, e: Event)
    requires Enabled(s, e) && e.ch in call.inbound && call.petty > 0 && (e.Other? ==> Sound(e.l))
    requires Okay(s.channels[e.ch], s.phases[e.ch], Wanted(call, e.ch))
    ensures var t := Next(call, s, e);
            && e.ch in t.channels && e.ch in t.phases
            && Okay(t.channels[e.ch], t.phases[e.ch], Wanted(call, e.ch))
  {
    match e {
      case Clean(ch, now) => ReleaseKeepsSound(s.channels[ch], now);
      case Claim(ch) =>
        FreshIsBacked(call.inbound[ch], call.outbound, call.petty, call.expiration, call.inactivity);
        ChargedKeepsSound(s.channels[ch], Wanted(call, ch));
      case _ =>
    }
  }

  lemma ChannelsStep(call: Call, s: Race, e: Event)
    requires ChannelsOkay(call, s) && Enabled(s, e) && (e.Other? ==> Sound(e.l))
    ensures ChannelsOkay(call, Next(call, s, e))
  {
    OwnStep(call, s, e);
    OthersStay(call, s, e);
    var t := Next(call, s, e);
    forall ch | ch in t.channels
      ensures Okay(t.channels[ch], t.phases[ch], Wanted(call, ch))
    {
      if ch != e.ch {
        assert t.channels[ch] == (t.channels - {e.ch})[ch] == s.channels[ch];
        assert t.phases[ch] == (t.phases - {e.ch})[ch] == s.phases[ch];
      }
    }
  }

  lemma ChargeStep(call: Call, s: Race, e: Event)
    requires ChargeOkay(s) && Enabled(s, e) && e.ch in call.inbound
    ensures ChargeOkay(Next(call, s, e))
  {
    var t := Next(call, s, e);
    if s.stopped && s.winner.None? {
      var ch :| ch in s.phases && s.phases[ch] == Cleared;
      assert t.winner.Some? || t.phases[ch] == Cleared;
    }
    assert e.Clean? ==> e.ch in t.phases;
  }

  /** Somebody else only ever leaves a sound ledger behind (LedgerInvariant). */
  ghost predicate Fair(es: seq<Event>) {
    forall e | e in es && e.Other? :: Sound(e.l)
  }

  lemma StepInv(call: Call, s: Race, e: Event)
    requires Inv(call, s) && (e.Other? ==> Sound(e.l))
    ensures Inv(call, Step(call, s, e))
  {
    if Enabled(s, e) {
      ChannelsStep(call, s, e);
      ChargeStep(call, s, e);
    }
  }

  lemma {:induction false} RunInv(call: Call, s: Race, es: seq<Event>)
    requires Inv(call, s) && Fair(es)
    ensures Inv(call, Run(call, s, es))
    decreases |es|
  {
    if es != [] {
      assert es[0] in es && forall e | e in es[1..] :: e in es;
      StepInv(call, s, es[0]);
      RunInv(call, Step(call, s, es[0]), es[1..]);
    }
  }

  // ---------------------------------------------------------------- who enters a reservation

  /** What one step makes of a ledger, unless somebody else changes it: a cleaning releases what has
      expired, the first claim enters the wanted reservation and makes its channel the winner, and
      nothing else changes it. */
  lemma StepEffect(call: Call, s: Race, e: Event, ch: string)
    requires call.inbound.Keys == s.channels.Keys && ch in s.channels && !(e.Other? && e.ch == ch)
    ensures var t := Step(call, s, e);
            if e == Claim(ch) && Enabled(s, e) && s.winner.None? then
              && t.channels[ch] == Charged(s.channels[ch], Wanted(call, ch))
              && t.winner == Some((ch, t.channels[ch].reservedNonce))
            else if e.Clean? && e.ch == ch && Enabled(s, e) && s.channels[ch].state.lossVoucher.None? then
              t.channels[ch] == Release(s.channels[ch], e.now)
            else t.channels[ch] == s.channels[ch]
  {
  }

  /** The reservation that an attempt enters in one step, read off the ledger of its channel. */
  ghost function Gain(call: Call, s: Race, e: Event): seq<(string, nat)>
    requires call.inbound.Keys == s.channels.Keys
  {
    var t := Step(call, s, e);
    if !e.Other? && e.ch in s.channels && t.channels[e.ch].reservedNonce != s.channels[e.ch].reservedNonce
    then [(e.ch, t.channels[e.ch].reservedNonce)] else []
  }

  ghost function Gains(call: Call, s: Race, es: seq<Event>): seq<(string, nat)>
    requires call.inbound.Keys == s.channels.Keys
    decreases |es|
  {
    if es == [] then [] else Gain(call, s, es[0]) + Gains(call, Step(call, s, es[0]), es[1..])
  }

  lemma GainIsWin(call: Call, s: Race, e: Event)
    requires call.inbound.Keys == s.channels.Keys
    ensures var t := Step(call, s, e);
            if s.winner.Some? then t.winner == s.winner && Gain(call, s, e) == []
            else Gain(call, s, e) == if t.winner.Some? then [t.winner.value] else []
  {
    if e.ch in s.channels && !e.Other? {
      StepEffect(call, s, e, e.ch);
    }
  }

  lemma {:induction false} GainsAreWin(call: Call, s: Race, es: seq<Event>)
    requires call.inbound.Keys == s.channels.Keys
    ensures var t := Run(call, s, es);
            if s.winner.Some? then t.winner == s.winner && Gains(call, s, es) == []
            else Gains(call, s, es) == if t.winner.Some? then [t.winner.value] else []
    decreases |es|
  {
    if es != [] {
      GainIsWin(call, s, es[0]);
      GainsAreWin(call, Step(call, s, es[0]), es[1..]);
    }
  }

  ghost predicate AllOver(s: Race) {
    forall ch | ch in s.phases :: s.phases[ch] == Over
  }

  /** Over all interleavings, also with other activity on the channels: the ledgers gain at most one
      reservation from the attempts, exactly the one that is returned; all of them stay sound; and when
      all attempts are over, the call fails only if no channel was ever cleared. */
  lemma AtMostOneCharge(call: Call, s: Race, es: seq<Event>)
    requires Init(call, s) && Fair(es)
    ensures var t := Run(call, s, es);
            && Gains(call, s, es) == (if t.winner.Some? then [t.winner.value] else [])
            && (forall ch | ch in t.channels :: Sound(t.channels[ch]))
            && (AllOver(t) ==> (t.stopped ==> t.winner.Some?))
  {
    RunInv(call, s, es);
    GainsAreWin(call, s, es);
  }

  // ---------------------------------------------------------------- what becomes of each channel

  /** Without other activity on it: untouched, or released at the time an attempt cleaned it, and
      the winner has the reservation on top. */
  ghost function Outcome(call: Call, s: Race, t: Race, ch: string): Ledger
    requires ch in s.channels && ch in call.inbound
  {
    if ch !in t.cleaned then s.channels[ch]
    else if t.winner.Some? && t.winner.value.0 == ch then
      Charged(Release(s.channels[ch], t.cleaned[ch]), Wanted(call, ch))
    else Release(s.channels[ch], t.cleaned[ch])
  }

  ghost predicate Tracked(call: Call, s: Race, t: Race, ch: string)
    requires ch in s.channels && ch in call.inbound
  {
    && ch in t.channels && ch in t.phases
    && t.channels[ch] == Outcome(call, s, t, ch)
    && (t.phases[ch] == Cleared || (t.winner.Some? && t.winner.value.0 == ch) ==>
          ch in t.cleaned && Clears(s.channels[ch], t.cleaned[ch], Wanted(call, ch).remain))
    && (t.winner.Some? && t.winner.value.0 == ch ==>
          t.phases[ch] == Over && t.winner.value.1 == s.channels[ch].reservedNonce + 1)
    && (ch in t.cleaned ==> t.phases[ch] == Cleared || t.phases[ch] == Over)
  }

  lemma StepTrackedOther(call: Call, s: Race, t: Race, e: Event, ch: string)
    requires call.inbound.Keys == s.channels.Keys == t.channels.Keys && ch in s.channels
    requires Tracked(call, s, t, ch) && e.ch != ch
    ensures Tracked(call, s, Step(call, t, e), ch)
  {
    if Enabled(t, e) {
      OthersStay(call, t, e);
      var u := Next(call, t, e);
      assert u.channels[ch] == (u.channels - {e.ch})[ch] == t.channels[ch];
      assert u.phases[ch] == (u.phases - {e.ch})[ch] == t.phases[ch];
    }
  }

  lemma StepTracked(call: Call, s: Race, t: Race, e: Event, ch: string)
    requires call.inbound.Keys == s.channels.Keys == t.channels.Keys && ch in s.channels
    requires Tracked(call, s, t, ch) && (e.Other? ==> e.ch != ch)
    ensures Tracked(call, s, Step(call, t, e), ch)
  {
    if e.ch != ch {
      StepTrackedOther(call, s, t, e, ch);
    }
  }

  lemma {:induction false} RunTracked(call: Call, s: Race, t: Race, es: seq<Event>, ch: string)
    requires call.inbound.Keys == s.channels.Keys == t.channels.Keys && ch in s.channels
    requires Tracked(call, s, t, ch) && forall e | e in es :: e.Other? ==> e.ch != ch
    ensures Tracked(call, s, Run(call, t, es), ch)
    decreases |es|
  {
    if es != [] {
      assert es[0] in es && forall e | e in es[1..] :: e in es;
      StepTracked(call, s, t, es[0], ch);
      RunTracked(call, s, Step(call, t, es[0]), es[1..], ch);
    }
  }

  /** Over all interleavings: a channel that nobody else touches is, if it wins, what one reservation on
      it alone would have made of it, and otherwise has lost nothing but expired reservations. */
  lemma RaceOutcome(call: Call, s: Race, es: seq<Event>, ch: string)
    requires Init(call, s) && ch in s.channels && forall e | e in es :: e.Other? ==> e.ch != ch
    ensures var t := Run(call, s, es);
            && (t.winner.Some? && t.winner.value.0 == ch ==>
                  && ch in t.cleaned
                  && (t.channels[ch], Some(t.winner.value.1))
                     == ChannelLedger.Reserve(s.channels[ch], t.cleaned[ch], Wanted(call, ch)))
            && (!(t.winner.Some? && t.winner.value.0 == ch) ==>
                  t.channels[ch] == if ch in t.cleaned then Release(s.channels[ch], t.cleaned[ch]) else s.channels[ch])
  {
    RunTracked(call, s, s, es, ch);
  }

  // ---------------------------------------------------------------- when the call succeeds

  /** The attempts run on their own, between two times, and stop by themselves only once told to. */
  ghost predicate Undisturbed(call: Call, s: Race, es: seq<Event>, from: Time, to: Time)
    requires call.inbound.Keys == s.channels.Keys
    decreases |es|
  {
    es == [] || (
      && !es[0].Other?
      && (es[0].Quit? ==> s.stopped)
      && (es[0].Check? || es[0].Clean? ==> from <= es[0].now <= to)
      && Undisturbed(call, Step(call, s, es[0]), es[1..], from, to))
  }

  /** Before the attempts are told to stop none is cleared, and one is over only on a channel that could
      not have made the reservation when the call began. */
  ghost predicate StillOpen(call: Call, s: Race, t: Race, ch: string, from: Time)
    requires ch in s.channels && ch in call.inbound
  {
    && Sound(s.channels[ch]) && Tracked(call, s, t, ch)
    && (!t.stopped && t.phases[ch] == Over ==> !Clears(s.channels[ch], from, Wanted(call, ch).remain))
  }

  ghost predicate ClearedStops(t: Race) {
    forall ch | ch in t.phases && t.phases[ch] == Cleared :: t.stopped
  }

  lemma ClearedStopsStep(call: Call, t: Race, e: Event)
    requires call.inbound.Keys == t.channels.Keys && ClearedStops(t)
    ensures ClearedStops(Step(call, t, e)) && (t.stopped ==> Step(call, t, e).stopped)
  {
  }

  lemma ClearsLater(l: Ledger, t: Time, t': Time, gross: int)
    requires Sound(l) && t <= t'
    ensures Clears(l, t, gross) ==> Clears(l, t', gross)
  {
    ReleaseLater(l, t, t');
  }

  lemma StepStillOpen(call: Call, s: Race, t: Race, e: Event, ch: string, from: Time)
    requires call.inbound.Keys == s.channels.Keys == t.channels.Keys && ch in s.channels
    requires StillOpen(call, s, t, ch, from) && ClearedStops(t)
    requires !e.Other? && (e.Quit? ==> t.stopped) && (e.Check? || e.Clean? ==> from <= e.now)
    ensures StillOpen(call, s, Step(call, t, e), ch, from)
  {
    StepTracked(call, s, t, e, ch);
    if Enabled(t, e) {
      if e.ch == ch {
        if e.Check? || e.Clean? {
          ClearsLater(s.channels[ch], from, e.now, Wanted(call, ch).remain);
        }
      } else {
        OthersStay(call, t, e);
        assert Next(call, t, e).phases[ch] == (Next(call, t, e).phases - {e.ch})[ch] == t.phases[ch];
      }
    }
  }

  lemma {:induction false} RunStillOpen(call: Call, s: Race, t: Race, es: seq<Event>, ch: string, from: Time, to: Time)
    requires call.inbound.Keys == s.channels.Keys == t.channels.Keys && ch in s.channels
    requires StillOpen(call, s, t, ch, from) && ClearedStops(t) && Undisturbed(call, t, es, from, to)
    ensures StillOpen(call, s, Run(call, t, es), ch, from)
    decreases |es|
  {
    if es != [] {
      ClearedStopsStep(call, t, es[0]);
      StepStillOpen(call, s, t, es[0], ch, from);
      RunStillOpen(call, s, Step(call, t, es[0]), es[1..], ch, from, to);
    }
  }

  /** The channel could make the reservation on its own. */
  ghost predicate Suffices(call: Call, s: Race, ch: string, now: Time)
    requires call.inbound.Keys == s.channels.Keys
  {
    ch in s.channels && ChannelLedger.Reserve(s.channels[ch], now, Wanted(call, ch)).1.Some?
  }

  ghost predicate WithinTimes(t: Race, from: Time, to: Time) {
    forall ch | ch in t.cleaned :: from <= t.cleaned[ch] <= to
  }

  lemma {:induction false} RunWithinTimes(call: Call, t: Race, es: seq<Event>, from: Time, to: Time)
    requires call.inbound.Keys == t.channels.Keys && WithinTimes(t, from, to) && Undisturbed(call, t, es, from, to)
    ensures WithinTimes(Run(call, t, es), from, to)
    decreases |es|
  {
    if es != [] {
      RunWithinTimes(call, Step(call, t, es[0]), es[1..], from, to);
    }
  }

  lemma {:induction false} UndisturbedHasNoOthers(call: Call, s: Race, es: seq<Event>, from: Time, to: Time)
    requires call.inbound.Keys == s.channels.Keys && Undisturbed(call, s, es, from, to)
    ensures forall e | e in es :: !e.Other?
    decreases |es|
  {
    if es != [] {
      UndisturbedHasNoOthers(call, Step(call, s, es[0]), es[1..], from, to);
      assert es == [es[0]] + es[1..];
    }
  }

  lemma SucceedsIfOneSuffices(call: Call, s: Race, es: seq<Event>, from: Time, to: Time, ch: string)
    requires Init(call, s) && Undisturbed(call, s, es, from, to) && AllOver(Run(call, s, es))
    requires Suffices(call, s, ch, from)
    ensures Run(call, s, es).winner.Some?
  {
    UndisturbedHasNoOthers(call, s, es, from, to);
    AtMostOneCharge(call, s, es);
    RunStillOpen(call, s, s, es, ch, from, to);
  }

  lemma WinnerSuffices(call: Call, s: Race, es: seq<Event>, from: Time, to: Time)
    requires Init(call, s) && Undisturbed(call, s, es, from, to) && Run(call, s, es).winner.Some?
    ensures Suffices(call, s, Run(call, s, es).winner.value.0, to)
  {
    var t := Run(call, s, es);
    var ch := t.winner.value.0;
    UndisturbedHasNoOthers(call, s, es, from, to);
    WinnerIsChannel(call, s, es);
    RaceOutcome(call, s, es, ch);
    RunWithinTimes(call, s, es, from, to);
    ClearsLater(s.channels[ch], t.cleaned[ch], to, Wanted(call, ch).remain);
  }

  /** A call reaches a reservation whenever it can: over all interleavings of its attempts, when all are over,
      it succeeds if any channel could have made the reservation at the beginning, and only on a channel
      that can make it at the end. */
  lemma CallSucceeds(call: Call, s: Race, es: seq<Event>, from: Time, to: Time)
    requires Init(call, s) && Undisturbed(call, s, es, from, to) && AllOver(Run(call, s, es))
    ensures var t := Run(call, s, es);
            && ((exists ch :: Suffices(call, s, ch, from)) ==> t.winner.Some?)
            && (t.winner.Some? ==> Suffices(call, s, t.winner.value.0, to))
  {
    if ch :| Suffices(call, s, ch, from) {
      SucceedsIfOneSuffices(call, s, es, from, to, ch);
    }
    if Run(call, s, es).winner.Some? {
      WinnerSuffices(call, s, es, from, to);
    }
  }

  lemma {:induction false} WinnerIsChannel(call: Call, s: Race, es: seq<Event>)
    requires call.inbound.Keys == s.channels.Keys && (s.winner.Some? ==> s.winner.value.0 in s.channels)
    ensures Run(call, s, es).winner.Some? ==> Run(call, s, es).winner.value.0 in s.channels
    decreases |es|
  {
    if es != [] {
      WinnerIsChannel(call, Step(call, s, es[0]), es[1..]);
    }
  }
}
