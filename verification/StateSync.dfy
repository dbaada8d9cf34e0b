/**
 Synchronising cached channel states with the store (paymgr/routines.go): the cache numbers its
 changes, and the store follows it.
 */
module StateSync {
  import opened Wrappers
  import opened ChannelLedger
  import opened StateStore
  import Protocol

  // ---------------------------------------------------------------- numbered changes

  /** Unchanged, or changed once with the next state nonce. */
  predicate Follows(before: State, after: State) {
    after == before || after.stateNonce == before.stateNonce + 1
  }

  /** Both provisional states are one change ahead of the current ones. */
  predicate Numbered(s: Protocol.System) {
    && (s.sending.Some? ==> s.sending.value.state.stateNonce == s.l.state.stateNonce + 1)
    && (s.receiving.Some? ==> s.receiving.value.stateNonce == s.r.stateNonce + 1)
  }

  /** Every operation on either side of a channel that changes its state raises the nonce by one. */
  lemma ChangesAreNumbered(s: Protocol.System, e: Protocol.Event)
    requires Numbered(s)
    ensures Numbered(Protocol.Step(s, e))
    ensures Follows(s.l.state, Protocol.Step(s, e).l.state) && Follows(s.r, Protocol.Step(s, e).r)
  {
  }

  /** Along every run equal state nonces mean equal states, on both sides. */
  lemma {:induction false} EqualNonceEqualState(s: Protocol.System, es: seq<Protocol.Event>)
    requires Numbered(s)
    ensures var t := Protocol.Run(s, es);
            && Numbered(t)
            && s.l.state.stateNonce <= t.l.state.stateNonce
            && (s.l.state.stateNonce == t.l.state.stateNonce ==> s.l.state == t.l.state)
            && s.r.stateNonce <= t.r.stateNonce
            && (s.r.stateNonce == t.r.stateNonce ==> s.r == t.r)
    decreases |es|
  {
    if es != [] {
      ChangesAreNumbered(s, es[0]);
      EqualNonceEqualState(Protocol.Step(s, es[0]), es[1..]);
    }
  }

  // ---------------------------------------------------------------- one channel, cache and store

  /** All the states the cache has had, the upserts on their way, and the stored state. */
  datatype Sync = Sync(history: seq<State>, queue: multiset<State>, store: Option<State>)

  datatype Event =
    | Change(state: State)
    | Push(readable: bool)                // one visit of the sync routine
    | Process(state: State, done: bool)   // one queued upsert, carried out or given up

  function Cache(s: Sync): State
    requires s.history != []
  {
    s.history[|s.history| - 1]
  }

  predicate Enabled(s: Sync, e: Event) {
    && s.history != []
    && match e
       case Change(state) => state.stateNonce == Cache(s).stateNonce + 1
       case Push(_) => true
       case Process(state, _) => state in s.queue
  }

  function Stored(store: Option<State>, state: State): Option<State> {
    if store.Some? && Stale(store.value, state) then store else Some(state)
  }

  function Step(s: Sync, e: Event): Sync {
    if !Enabled(s, e) then s
    else
      match e
      case Change(state) => s.(history := s.history + [state])
      case Push(readable) =>
        if readable && s.store.Some? && s.store.value.stateNonce == Cache(s).stateNonce then s
        else s.(queue := s.queue + multiset{Cache(s)})
      case Process(state, done) =>
        s.(queue := s.queue - multiset{state}, store := if done then Stored(s.store, state) else s.store)
  }

  function Run(s: Sync, es: seq<Event>): Sync
    decreases |es|
  {
    if es == [] then s else Run(Step(s, es[0]), es[1..])
  }

  /** A channel that has just been added. */
  predicate Init(s: Sync) {
    |s.history| == 1 && s.store.None? && forall state | state in s.queue :: state == s.history[0]
  }

  ghost predicate Inv(s: Sync) {
    && s.history != []
    && (forall i | 0 <= i < |s.history| :: s.history[i].stateNonce == s.history[0].stateNonce + i)
    && (forall state | state in s.queue :: state in s.history)
    && (s.store.Some? ==> s.store.value in s.history)
  }

  lemma {:induction false} RunInv(s: Sync, es: seq<Event>)
    requires Inv(s)
    ensures Inv(Run(s, es)) && s.history <= Run(s, es).history
    decreases |es|
  {
    if es != [] {
      StepInv(s, es[0]);
      RunInv(Step(s, es[0]), es[1..]);
    }
  }

  lemma StepInv(s: Sync, e: Event)
    requires Inv(s)
    ensures Inv(Step(s, e)) && s.history <= Step(s, e).history
  {
    assert Cache(s) in s.history;
    if e.Change? {
      assert forall state | state in s.history :: state in s.history + [e.state];
    }
  }

  /** Over every run the store holds a state that the cache has or had, and cache and store never
      disagree at equal nonces. */
  lemma StoreIsPast(s: Sync, es: seq<Event>)
    requires Init(s)
    ensures var t := Run(s, es);
            t.history != [] && (t.store.Some? ==>
              && t.store.value in t.history
              && t.store.value.stateNonce <= Cache(t).stateNonce
              && (t.store.value.stateNonce == Cache(t).stateNonce ==> t.store.value == Cache(t)))
  {
    RunInv(s, es);
  }

  /** No nonce is close to the greatest one. */
  predicate FarFromWrapping(s: Sync) {
    s.history != [] && Cache(s).stateNonce + 100 <= MAX_NONCE
  }

  /** The store never goes back. */
  lemma StoreAdvances(s: Sync, e: Event)
    requires Inv(s) && FarFromWrapping(s)
    ensures s.store.Some? ==> Step(s, e).store.Some? && s.store.value.stateNonce <= Step(s, e).store.value.stateNonce
  {
  }

  predicate Settling(e: Event) {
    !e.Change? && (e.Process? ==> e.done)
  }

  /** The cached state stays on its way, or stored. */
  predicate Arriving(s: Sync, cached: State) {
    cached in s.queue || s.store == Some(cached)
  }

  lemma SettleStep(s: Sync, e: Event)
    requires Inv(s) && FarFromWrapping(s) && Settling(e) && Arriving(s, Cache(s))
    ensures Step(s, e).history == s.history && Arriving(Step(s, e), Cache(s))
  {
  }

  lemma {:induction false} SettlingKeeps(s: Sync, es: seq<Event>)
    requires Inv(s) && FarFromWrapping(s) && forall i | 0 <= i < |es| :: Settling(es[i])
    requires Arriving(s, Cache(s))
    ensures Run(s, es).history == s.history && Arriving(Run(s, es), Cache(s))
    decreases |es|
  {
    if es != [] {
      StepInv(s, es[0]);
      SettleStep(s, es[0]);
      var t := Step(s, es[0]);
      assert Cache(t) == Cache(s);
      assert forall i | 0 <= i < |es[1..]| :: es[1..][i] == es[i + 1];
      SettlingKeeps(t, es[1..]);
    }
  }

  lemma PushArrives(s: Sync, readable: bool)
    requires Inv(s)
    ensures var u := Step(s, Push(readable));
            Inv(u) && u.history == s.history && Arriving(u, Cache(s))
  {
  }

  lemma EmptyHasNone(s: Sync, cached: State)
    requires s.queue == multiset{} && Arriving(s, cached)
    ensures s.store == Some(cached)
  {
  }

  lemma SettledFrom(t: Sync, readable: bool, settle: seq<Event>)
    requires Inv(t) && FarFromWrapping(t)
    requires forall i | 0 <= i < |settle| :: Settling(settle[i])
    ensures var u := Run(Step(t, Push(readable)), settle);
            u.history == t.history && (u.queue == multiset{} ==> u.store == Some(Cache(t)))
  {
    PushArrives(t, readable);
    var p := Step(t, Push(readable));
    SettlingKeeps(p, settle);
    if Run(p, settle).queue == multiset{} {
      EmptyHasNone(Run(p, settle), Cache(t));
    }
  }

  /** From every reachable state: once the sync routine has visited the channel and the queue has
      been worked off without failure, in any order, and the cache has not changed, the store holds
      the cached state. */
  lemma SyncCompletes(s: Sync, es: seq<Event>, readable: bool, settle: seq<Event>)
    requires Init(s) && FarFromWrapping(Run(s, es))
    requires forall i | 0 <= i < |settle| :: Settling(settle[i])
    ensures var t := Run(s, es);
            var u := Run(Step(t, Push(readable)), settle);
            t.history != [] && u.history == t.history && (u.queue == multiset{} ==> u.store == Some(Cache(t)))
  {
    RunInv(s, es);
    SettledFrom(Run(s, es), readable, settle);
  }

  /** In every reachable state a visit that can read the store leaves things alone exactly if the cached state
      is stored. */
  lemma PushIsQuietIff(s: Sync, es: seq<Event>)
    requires Init(s)
    ensures var t := Run(s, es); t.history != [] && (Step(t, Push(true)) == t <==> t.store == Some(Cache(t)))
  {
    RunInv(s, es);
    StoreIsPast(s, es);
    var t := Run(s, es);
    assert (t.queue + multiset{Cache(t)})[Cache(t)] == t.queue[Cache(t)] + 1;
  }

  // ---------------------------------------------------------------- one pass over all channels

  /** The sync routine pushes a cached state unless it has read the same nonce from the store. */
  predicate MustPush(cached: States, stored: States, unreadable: set<Key>, k: Key)
    requires k in cached
  {
    k in unreadable || k !in stored || stored[k].stateNonce != cached[k].stateNonce
  }

  method SyncPass(cached: States, stored: States, unreadable: set<Key>) returns (pushed: seq<Request>)
    ensures forall k, s :: Request(k, s) in pushed <==> k in cached && s == cached[k] && MustPush(cached, stored, unreadable, k)
    ensures |pushed| <= |cached|
  {
    pushed := [];
    var keys := cached.Keys;
    while keys != {}
      invariant keys <= cached.Keys
      invariant |pushed| + |keys| <= |cached|
      invariant forall k, s :: Request(k, s) in pushed <==>
        k in cached && k !in keys && s == cached[k] && MustPush(cached, stored, unreadable, k)
    {
      var k :| k in keys;
      keys := keys - {k};
      if MustPush(cached, stored, unreadable, k) {
        pushed := pushed + [Request(k, cached[k])];
      }
    }
  }

  /** s is an earlier state of the channel, or its cached one. */
  predicate Behind(s: State, cached: State) {
    s.stateNonce <= cached.stateNonce && (s.stateNonce == cached.stateNonce ==> s == cached)
  }

  /** A pass passes over a channel exactly if it can see that the stored state is the cached one. */
  lemma NotPushedIff(cached: States, stored: States, unreadable: set<Key>, k: Key)
    requires k in cached && (k in stored ==> Behind(stored[k], cached[k]))
    ensures !MustPush(cached, stored, unreadable, k) <==> k !in unreadable && k in stored && stored[k] == cached[k]
  {
  }

  /** After a pass, working off the queue in any order, together with whatever older upserts were
      still in it, makes store and cache equal. */
  lemma PassSettles(cached: States, stored: States, unreadable: set<Key>, rs: seq<Request>, k: Key)
    requires k in cached && cached[k].stateNonce + 100 <= MAX_NONCE
    requires forall c | Candidate(stored, rs, k, c) :: Behind(c, cached[k])
    requires MustPush(cached, stored, unreadable, k) ==> Request(k, cached[k]) in rs
    ensures k in Drained(stored, rs) && Drained(stored, rs)[k] == cached[k]
  {
    DrainedIsCandidate(stored, rs, k);
    NewestIsStored(stored, rs, k);
    assert k in stored ==> Candidate(stored, rs, k, stored[k]);
    assert Candidate(stored, rs, k, cached[k]);
  }
}
