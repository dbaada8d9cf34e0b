/** The recipient's half of a payment channel (paymgr/paymentmgr_impl.go, Receive). */
module InboundChannels {
  import opened Wrappers
  import opened ChannelLedger

  /** What a received voucher leads to: a provisional state and the gross amount it carries, a
      report of the latest voucher recorded when the two sides have lost step, or a refusal. */
  datatype Receipt =
    | Accepted(next: State, gross: int)
    | OutOfStep(latest: Option<Voucher>)
    | Refused

  /** The check under the read lock. `chain` is the balance found on chain. */
  function Probe(s: State, v: Voucher, chain: int): Receipt {
    if v.lane != 0 then Refused
    else if v.nonce <= s.nonce || v.redeemed < s.redeemed then OutOfStep(s.voucher)
    else if v.redeemed > s.balance && v.redeemed > chain then Refused
    else Accepted(s, v.redeemed - s.redeemed)
  }

  /** The locked part of Receive; a decreasing redeemed amount is refused here. */
  function Receive(s: State, v: Voucher, chain: int): Receipt {
    if v.lane != 0 then Refused
    else if v.nonce <= s.nonce then OutOfStep(s.voucher)
    else if v.redeemed < s.redeemed then Refused
    else if v.redeemed > s.balance && v.redeemed > chain then Refused
    else
      var balance := if v.redeemed > s.balance then chain else s.balance;
      Accepted(s.(balance := balance, redeemed := v.redeemed, nonce := v.nonce, voucher := Some(v),
                  stateNonce := s.stateNonce + 1),
               v.redeemed - s.redeemed)
  }

  /** Exactly these vouchers are accepted: on lane 0, with a new nonce, not below what is recorded, and
      within the recorded balance or the one on chain. */
  lemma AcceptedIff(s: State, v: Voucher, chain: int)
    ensures Receive(s, v, chain).Accepted? <==>
      v.lane == 0 && v.nonce > s.nonce && v.redeemed >= s.redeemed && (v.redeemed <= s.balance || v.redeemed <= chain)
    ensures Receive(s, v, chain).OutOfStep? <==> v.lane == 0 && v.nonce <= s.nonce
    ensures Receive(s, v, chain).Accepted? ==>
      var next := Receive(s, v, chain).next;
      next == s.(balance := next.balance, redeemed := v.redeemed, nonce := v.nonce, voucher := Some(v),
                 stateNonce := s.stateNonce + 1)
  {
  }

  /** The provisional check passes exactly if the locked part would, for the same gross amount, and it
      reports the latest voucher wherever that does; also when only the redeemed amount is too low. */
  lemma ProbeForesees(s: State, v: Voucher, chain: int)
    ensures Probe(s, v, chain).Accepted? <==> Receive(s, v, chain).Accepted?
    ensures Probe(s, v, chain).Accepted? ==> Probe(s, v, chain).gross == Receive(s, v, chain).gross
    ensures Receive(s, v, chain).OutOfStep? ==> Probe(s, v, chain) == Receive(s, v, chain)
    ensures v.lane == 0 && v.redeemed < s.redeemed ==> Probe(s, v, chain) == OutOfStep(s.voucher)
  {
  }

  /** What the recorded balance is good for: once a voucher has made the recipient look at the chain,
      every later one up to the balance found there is accepted without looking again; and a balance
      that suffices is kept. */
  lemma RecordedBalanceServes(s: State, v: Voucher, chain: int, w: Voucher, chain': int)
    requires Receive(s, v, chain).Accepted?
    requires w.lane == 0 && w.nonce > v.nonce && v.redeemed <= w.redeemed
    requires w.redeemed <= if v.redeemed > s.balance then chain else s.balance
    ensures Receive(Receive(s, v, chain).next, w, chain').Accepted?
    ensures Receive(Receive(s, v, chain).next, w, chain').next.balance == if v.redeemed > s.balance then chain else s.balance
  {
  }

  class InboundChannel {
    var state: State
    var pending: Option<State>

    /** A state within its balance; a pending one carries the next voucher on top of it. */
    ghost predicate Valid()
      reads this
    {
      && 0 <= state.redeemed <= state.balance
      && (pending.Some? ==>
            && pending.value.voucher.Some?
            && state.nonce < pending.value.nonce == pending.value.voucher.value.nonce
            && state.redeemed <= pending.value.redeemed == pending.value.voucher.value.redeemed
            && pending.value.redeemed <= pending.value.balance
            && pending.value.stateNonce == state.stateNonce + 1)
    }

    /** AddInboundChannel. */
    constructor (fromAddr: string, chAddr: string, balance: int, redeemed: int)
      requires 0 <= redeemed <= balance
      ensures Valid() && pending == None
      ensures state == State(fromAddr, chAddr, balance, redeemed, 0, None, None, 0)
    {
      state := State(fromAddr, chAddr, balance, redeemed, 0, None, None, 0);
      pending := None;
    }

    /** The provisional check of Receive, under the read lock. */
    method CanAccept(v: Voucher, chain: int) returns (receipt: Receipt)
      ensures receipt == Probe(state, v, chain)
      ensures receipt.Accepted? <==> Receive(state, v, chain).Accepted?
    {
      ProbeForesees(state, v, chain);
      if v.lane != 0 {
        return Refused;
      }
      if v.nonce <= state.nonce {
        return OutOfStep(state.voucher);
      }
      if v.redeemed < state.redeemed {
        return OutOfStep(state.voucher);
      }
      if v.redeemed > state.balance {
        if v.redeemed > chain {
          return Refused;
        }
      }
      return Accepted(state, v.redeemed - state.redeemed);
    }

    /** Receive under the write lock: keeps it, with a provisional state, when the voucher is good. */
    method Accept(v: Voucher, chain: int) returns (receipt: Receipt)
      requires Valid() && pending.None?
      modifies this`pending
      ensures Valid() && receipt == Receive(state, v, chain)
      ensures pending == if receipt.Accepted? then Some(receipt.next) else None
      ensures receipt.Accepted? ==> receipt.gross == v.redeemed - state.redeemed >= 0
      ensures receipt.Accepted? ==> receipt.next.balance == if v.redeemed > state.balance then chain else state.balance
    {
      if v.lane != 0 {
        return Refused;
      }
      if v.nonce <= state.nonce {
        return OutOfStep(state.voucher);
      }
      if v.redeemed < state.redeemed {
        return Refused;
      }
      var newBalance := state.balance;
      if v.redeemed > state.balance {
        if v.redeemed > chain {
          return Refused;
        }
        newBalance := chain;
      }
      var provisional := state.(balance := newBalance);
      var gross := v.redeemed - state.redeemed;
      provisional := provisional.(redeemed := v.redeemed, nonce := v.nonce, voucher := Some(v));
      provisional := provisional.(stateNonce := provisional.stateNonce + 1);
      pending := Some(provisional);
      return Accepted(provisional, gross);
    }

    /** The commit closure. */
    method Commit()
      requires Valid() && pending.Some?
      modifies this
      ensures Valid() && pending.None? && state == old(pending).value
      ensures old(state).redeemed <= state.redeemed && old(state).nonce < state.nonce
    {
      state := pending.value;
      pending := None;
    }

    /** The revert closure. */
    method Revert()
      requires Valid() && pending.Some?
      modifies this`pending
      ensures Valid() && pending.None?
    {
      pending := None;
    }
  }
}
