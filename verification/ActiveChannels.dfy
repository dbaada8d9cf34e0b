/**
 The active outbound channels of a node (paymgr/paymentmgr_impl.go, paymgr/routines.go): adding and
 retiring channels in place, in step with the lock tree that guards them and with the direct links
 of the route store. Adding runs under Lock(channel), retiring under Lock(peer), cleaning under
 Lock(currency).
 */
module ActiveChannels {
  import opened Wrappers
  import opened LockTree
  import LockNodes
  import LockSystem
  import LockWaiting
  import ChannelLedger

  type State = ChannelLedger.State

  /** By currency, recipient and channel address. */
  type Active = map<Key, map<Key, map<Key, State>>>

  function CurrencyPath(currency: Key): Path {
    ["true", currency]
  }

  function PeerPath(currency: Key, peer: Key): Path {
    ["true", currency, peer]
  }

  function ChannelPath(currency: Key, peer: Key, ch: Key): Path {
    ["true", currency, peer, ch]
  }

  function Peers(active: Active, currency: Key): map<Key, map<Key, State>> {
    if currency in active then active[currency] else map[]
  }

  function Channels(active: Active, currency: Key, peer: Key): map<Key, State> {
    if peer in Peers(active, currency) then Peers(active, currency)[peer] else map[]
  }

  function Lookup(active: Active, currency: Key, peer: Key, ch: Key): Option<State> {
    var channels := Channels(active, currency, peer);
    if ch in channels then Some(channels[ch]) else None
  }

  /** The maps with one more channel, made on the way down where they are missing. */
  function With(active: Active, currency: Key, peer: Key, ch: Key, s: State): Active {
    active[currency := Peers(active, currency)[peer := Channels(active, currency, peer)[ch := s]]]
  }

  /** The maps without a channel; the peer's own map stays, perhaps empty. */
  function Without(active: Active, currency: Key, peer: Key, ch: Key): Active {
    active[currency := Peers(active, currency)[peer := Channels(active, currency, peer) - {ch}]]
  }

  lemma LookupWith(active: Active, currency: Key, peer: Key, ch: Key, s: State, c: Key, p: Key, h: Key)
    ensures Lookup(With(active, currency, peer, ch, s), c, p, h)
         == if c == currency && p == peer && h == ch then Some(s) else Lookup(active, c, p, h)
  {
  }

  lemma LookupWithout(active: Active, currency: Key, peer: Key, ch: Key, c: Key, p: Key, h: Key)
    ensures Lookup(Without(active, currency, peer, ch), c, p, h)
         == if c == currency && p == peer && h == ch then None else Lookup(active, c, p, h)
  {
  }

  /** A channel is active exactly if it has a lock node of its own. */
  ghost predicate ChannelGuarded(t: Tree, active: Active, c: Key, p: Key, h: Key) {
    Lookup(active, c, p, h).Some? <==> Node(t, ChannelPath(c, p, h)).Some?
  }

  /** A peer in the map has a lock node. */
  ghost predicate PeerGuarded(t: Tree, active: Active, c: Key, p: Key) {
    p in Peers(active, c) ==> Node(t, PeerPath(c, p)).Some?
  }

  /** A currency with a lock node is in the map. */
  ghost predicate CurrencyGuarded(t: Tree, active: Active, c: Key) {
    Node(t, CurrencyPath(c)).Some? ==> c in active
  }

  ghost predicate Guarded(t: Tree, active: Active) {
    && (forall c, p, h :: ChannelGuarded(t, active, c, p, h))
    && (forall c, p :: PeerGuarded(t, active, c, p))
    && (forall c :: CurrencyGuarded(t, active, c))
  }

  /** There is a direct link to exactly the peers with an active channel. */
  ghost predicate Linked(links: set<(Key, Key)>, active: Active) {
    forall c, p :: (c, p) in links <==> Channels(active, c, p) != map[]
  }

  lemma PathsDiffer(c: Key, p: Key, h: Key, currency: Key, peer: Key, ch: Key)
    ensures ChannelPath(c, p, h) <= ChannelPath(currency, peer, ch) <==> c == currency && p == peer && h == ch
    ensures PeerPath(currency, peer) <= ChannelPath(currency, peer, ch)
    ensures !(ChannelPath(currency, peer, ch) <= PeerPath(c, p))
    ensures PeerPath(currency, peer) + [ch] == ChannelPath(currency, peer, ch)
    ensures CurrencyPath(c) <= ChannelPath(currency, peer, ch) <==> c == currency
    ensures !(ChannelPath(currency, peer, ch) <= CurrencyPath(c))
  {
    var a, b := ChannelPath(c, p, h), ChannelPath(currency, peer, ch);
    assert a[1] == c && a[2] == p && a[3] == h && b[1] == currency && b[2] == peer && b[3] == ch;
    assert CurrencyPath(c)[1] == c && CurrencyPath(currency) <= b;
  }

  lemma AddGuarded(t: Tree, next: nat, active: Active, currency: Key, peer: Key, ch: Key, s: State)
    requires WellFormed(t, next) && Guarded(t, active)
    ensures Guarded(Grow(t, ROOT, ChannelPath(currency, peer, ch), next).0, With(active, currency, peer, ch, s))
  {
    var path := ChannelPath(currency, peer, ch);
    var t', active' := Grow(t, ROOT, path, next).0, With(active, currency, peer, ch, s);
    forall c, p, h
      ensures ChannelGuarded(t', active', c, p, h)
    {
      assert ChannelGuarded(t, active, c, p, h);
      LookupWith(active, currency, peer, ch, s, c, p, h);
      PathsDiffer(c, p, h, currency, peer, ch);
      NodeInsert(t, next, path, ChannelPath(c, p, h));
    }
    forall c, p
      ensures PeerGuarded(t', active', c, p)
    {
      assert PeerGuarded(t, active, c, p);
      PathsDiffer(c, p, ch, currency, peer, ch);
      NodeInsert(t, next, path, PeerPath(c, p));
    }
    forall c
      ensures CurrencyGuarded(t', active', c)
    {
      assert CurrencyGuarded(t, active, c);
      PathsDiffer(c, peer, ch, currency, peer, ch);
      NodeInsert(t, next, path, CurrencyPath(c));
    }
  }

  lemma RetireGuarded(t: Tree, next: nat, active: Active, currency: Key, peer: Key, ch: Key)
    requires WellFormed(t, next) && Guarded(t, active) && peer in Peers(active, currency)
    ensures Node(t, PeerPath(currency, peer)).Some? && Node(t, PeerPath(currency, peer)).value in t
    ensures var t' := Prune(t, Node(t, PeerPath(currency, peer)).value, ch);
            WellFormed(t', next) && Guarded(t', Without(active, currency, peer, ch))
  {
    var from := PeerPath(currency, peer);
    assert PeerGuarded(t, active, currency, peer);
    NodePrune(t, next, from, ch, []);
    var t', active' := Prune(t, Node(t, from).value, ch), Without(active, currency, peer, ch);
    forall c, p, h
      ensures ChannelGuarded(t', active', c, p, h)
    {
      assert ChannelGuarded(t, active, c, p, h);
      LookupWithout(active, currency, peer, ch, c, p, h);
      PathsDiffer(currency, peer, ch, c, p, h);
      PathsDiffer(c, p, h, currency, peer, ch);
      NodePrune(t, next, from, ch, ChannelPath(c, p, h));
    }
    forall c, p
      ensures PeerGuarded(t', active', c, p)
    {
      assert PeerGuarded(t, active, c, p);
      PathsDiffer(c, p, ch, currency, peer, ch);
      NodePrune(t, next, from, ch, PeerPath(c, p));
    }
    forall c
      ensures CurrencyGuarded(t', active', c)
    {
      assert CurrencyGuarded(t, active, c);
      PathsDiffer(c, peer, ch, currency, peer, ch);
      NodePrune(t, next, from, ch, CurrencyPath(c));
    }
  }

  /** Under the read lock of a peer, asking for the lock of an active channel never falls back on a
      node above it: its node is there at every level. */
  lemma InnerLockFindsChannel(t: Tree, next: nat, active: Active, h: LockSystem.Handle, currency: Key, peer: Key, ch: Key)
    requires WellFormed(t, next) && Guarded(t, active) && Lookup(active, currency, peer, ch).Some?
    requires LockSystem.Placed(t, h) && h.phase == LockSystem.Look && h.path == ChannelPath(currency, peer, ch)
    ensures LockSystem.Looked(t, h).phase == LockSystem.Want
  {
    var i := |h.held| - 1;
    assert ChannelGuarded(t, active, currency, peer, ch);
    NodePrefix(t, h.path, i + 1);
    NodeChild(t, next, h.path[..i], h.path[i]);
    assert h.path[..i] + [h.path[i]] == h.path[..i + 1];
  }

  /** So the goroutine may ask for that lock while it holds the peer's read lock. */
  lemma InnerLockMayBeCalled(t: Tree, active: Active, currency: Key, peer: Key, ch: Key)
    requires Guarded(t, active) && Lookup(active, currency, peer, ch).Some?
    ensures PeerPath(currency, peer) < ChannelPath(currency, peer, ch)
    ensures LockWaiting.NextPresent(t, PeerPath(currency, peer), ChannelPath(currency, peer, ch))
  {
    assert ChannelGuarded(t, active, currency, peer, ch);
    assert ChannelPath(currency, peer, ch)[..4] == ChannelPath(currency, peer, ch);
    PathsDiffer(currency, peer, ch, currency, peer, ch);
  }

  /** The entries that the lock tree guards are the active channels. */
  ghost predicate Tied(active: Active, data: set<Path>) {
    forall c, p, h :: Lookup(active, c, p, h).Some? <==> ChannelPath(c, p, h) in data
  }

  /** Adding a channel under Lock(channel) is an insertion there. */
  lemma AddIsInsert(s: LockSystem.System, i: LockSystem.HandleId, active: Active, currency: Key, peer: Key, ch: Key, st: State)
    requires LockSystem.HoldsLock(s, i) && s.handles[i].path == ChannelPath(currency, peer, ch) && Tied(active, s.data)
    ensures Tied(With(active, currency, peer, ch, st), LockSystem.Step(s, LockSystem.Insert(i)).data)
  {
    forall c, p, h
      ensures Lookup(With(active, currency, peer, ch, st), c, p, h).Some? <==>
        ChannelPath(c, p, h) in LockSystem.Step(s, LockSystem.Insert(i)).data
    {
      LookupWith(active, currency, peer, ch, st, c, p, h);
      PathsDiffer(c, p, h, currency, peer, ch);
    }
  }

  /** Retiring one under Lock(peer) is a removal there. */
  lemma RetireIsRemove(s: LockSystem.System, i: LockSystem.HandleId, active: Active, currency: Key, peer: Key, ch: Key)
    requires LockSystem.HoldsLock(s, i) && s.handles[i].path == PeerPath(currency, peer) && Tied(active, s.data)
    requires LockSystem.Present(s.tree, PeerPath(currency, peer))
    ensures Tied(Without(active, currency, peer, ch), LockSystem.Step(s, LockSystem.Remove(i, ch)).data)
  {
    forall c, p, h
      ensures Lookup(Without(active, currency, peer, ch), c, p, h).Some? <==>
        ChannelPath(c, p, h) in LockSystem.Step(s, LockSystem.Remove(i, ch)).data
    {
      LookupWithout(active, currency, peer, ch, c, p, h);
      PathsDiffer(c, p, h, currency, peer, ch);
    }
  }

  /** Over every run in which a goroutine keeps the read lock of a peer: an active channel that it has seen
      stays active with its lock node, so that it may ask for the channel's write lock at any time. */
  lemma InnerLockStaysCallable(s: LockSystem.System, es: seq<LockSystem.Event>, i: LockSystem.HandleId, active: Active,
                               currency: Key, peer: Key, ch: Key, after: Active)
    requires LockSystem.Inv(s) && LockSystem.EntriesPresent(s) && Tied(active, s.data)
    requires LockSystem.Disciplined(es) && LockSystem.LeafRemovals(s, es) && LockSystem.Release(i) !in es
    requires i in s.handles && s.handles[i].phase == LockSystem.Held && s.handles[i].mode == LockSystem.Read
    requires s.handles[i].path == PeerPath(currency, peer) && Lookup(active, currency, peer, ch).Some?
    ensures var t := LockSystem.Run(s, es);
            && i in t.handles && t.handles[i] == s.handles[i]
            && (Tied(after, t.data) ==> Lookup(after, currency, peer, ch).Some?)
            && PeerPath(currency, peer) < ChannelPath(currency, peer, ch)
            && LockWaiting.NextPresent(t.tree, PeerPath(currency, peer), ChannelPath(currency, peer, ch))
  {
    PathsDiffer(currency, peer, ch, currency, peer, ch);
    LockSystem.LookupCannotMiss(s, es, i, ch);
    LockSystem.EntriesRun(s, es);
    var path := ChannelPath(currency, peer, ch);
    assert path[..4] == path;
  }

  /** A write lock on the node at depth d of the channel's path guards the maps that adding the channel
      writes: the peer's map of channels, and where they are missing, the currency's map of peers and
      the map of currencies. */
  predicate WritesGuarded(active: Active, currency: Key, peer: Key, d: nat) {
    && d <= |PeerPath(currency, peer)|
    && (peer !in Peers(active, currency) ==> d <= |CurrencyPath(currency)|)
    && (currency !in active ==> d <= 1)
  }

  /** Adding a channel under Lock(channel) writes no map that is not guarded exactly if the peer is in
      the map, or has no lock node. */
  lemma AddIsGuardedIff(t: Tree, active: Active, currency: Key, peer: Key, ch: Key, d: nat)
    requires Guarded(t, active) && Lookup(active, currency, peer, ch).None?
    requires LockSystem.LocksAt(t, ChannelPath(currency, peer, ch), d)
    ensures WritesGuarded(active, currency, peer, d) <==>
      peer in Peers(active, currency) || Node(t, PeerPath(currency, peer)).None?
  {
    var path := ChannelPath(currency, peer, ch);
    assert path[..4] == path && path[..3] == PeerPath(currency, peer) && path[..2] == CurrencyPath(currency);
    assert ChannelGuarded(t, active, currency, peer, ch) && PeerGuarded(t, active, currency, peer);
    assert CurrencyGuarded(t, active, currency);
    LockSystem.PresentDownTo(t, path, d, 2);
    LockSystem.PresentDownTo(t, path, d, 3);
    LockSystem.PresentDownTo(t, path, d, 4);
  }

  /** It is not after a peer's last channel has been retired and the peer cleaned away: its lock node is
      still there, so that Lock(channel) takes it for writing and the currency only for reading. */
  lemma CleanedPeerIsUnguarded(t: Tree, next: nat, active: Active, currency: Key, peer: Key, last: Key, cleaned: Active,
                               ch: Key, d: nat)
    requires WellFormed(t, next) && Guarded(t, active) && peer in Peers(active, currency)
    requires cleaned == Without(active, currency, peer, last)[currency := Peers(active, currency) - {peer}]
    requires Channels(active, currency, peer).Keys == {last}
    ensures Node(t, PeerPath(currency, peer)).Some? && Node(t, PeerPath(currency, peer)).value in t
    ensures var t' := Prune(t, Node(t, PeerPath(currency, peer)).value, last);
            Guarded(t', cleaned) &&
            (LockSystem.LocksAt(t', ChannelPath(currency, peer, ch), d) ==> !WritesGuarded(cleaned, currency, peer, d))
  {
    RetireGuarded(t, next, active, currency, peer, last);
    var from := PeerPath(currency, peer);
    var t' := Prune(t, Node(t, from).value, last);
    CleanedGuarded(t', active, currency, peer, last, cleaned);
    PathsDiffer(currency, peer, ch, currency, peer, last);
    NodePrune(t, next, from, last, from);
    if LockSystem.LocksAt(t', ChannelPath(currency, peer, ch), d) {
      assert Lookup(cleaned, currency, peer, ch).None?;
      AddIsGuardedIff(t', cleaned, currency, peer, ch, d);
    }
  }

  lemma CleanedGuarded(t: Tree, active: Active, currency: Key, peer: Key, last: Key, cleaned: Active)
    requires peer in Peers(active, currency) && Channels(active, currency, peer).Keys == {last}
    requires cleaned == Without(active, currency, peer, last)[currency := Peers(active, currency) - {peer}]
    requires Guarded(t, Without(active, currency, peer, last))
    ensures Guarded(t, cleaned)
  {
    var retired := Without(active, currency, peer, last);
    assert Channels(retired, currency, peer) == map[];
    assert forall c, p :: Channels(cleaned, c, p) == Channels(retired, c, p);
    StillGuarded(t, retired, cleaned);
  }

  /** Adding a channel keeps the links in step exactly if the link is made, or there already. */
  lemma LinkedWith(links: set<(Key, Key)>, active: Active, currency: Key, peer: Key, ch: Key, s: State, linked: bool)
    requires Linked(links, active)
    ensures Linked(if linked then links + {(currency, peer)} else links, With(active, currency, peer, ch, s)) <==>
      linked || (currency, peer) in links
  {
    var active' := With(active, currency, peer, ch, s);
    assert ch in Channels(active', currency, peer);
    assert forall c, p | c != currency || p != peer :: Channels(active', c, p) == Channels(active, c, p);
  }

  /** Retiring one does exactly if the link is removed, or the peer has another channel. */
  lemma LinkedWithout(links: set<(Key, Key)>, active: Active, currency: Key, peer: Key, ch: Key, unlinked: bool)
    requires Linked(links, active) && ch in Channels(active, currency, peer)
    ensures var active' := Without(active, currency, peer, ch);
            var emptied := Channels(active', currency, peer) == map[];
            Linked(if emptied && unlinked then links - {(currency, peer)} else links, active') <==> !emptied || unlinked
  {
    var active' := Without(active, currency, peer, ch);
    assert Channels(active, currency, peer) != map[];
    assert forall c, p | c != currency || p != peer :: Channels(active', c, p) == Channels(active, c, p);
  }

  lemma GrowKeepsForm(t: Tree, next: nat, path: Path)
    requires WellFormed(t, next)
    ensures WellFormed(Grow(t, ROOT, path, next).0, Grow(t, ROOT, path, next).1)
  {
    NodeInsert(t, next, path, []);
  }

  /** Dropping peers without channels leaves everything guarded. */
  lemma StillGuarded(t: Tree, before: Active, after: Active)
    requires Guarded(t, before)
    requires forall c, p :: Channels(after, c, p) == Channels(before, c, p)
    requires forall c, p | p in Peers(after, c) :: p in Peers(before, c)
    requires forall c | c in before :: c in after
    ensures Guarded(t, after)
  {
    forall c, p, h
      ensures ChannelGuarded(t, after, c, p, h)
    {
      assert ChannelGuarded(t, before, c, p, h);
    }
    forall c, p
      ensures PeerGuarded(t, after, c, p)
    {
      assert PeerGuarded(t, before, c, p);
    }
    forall c
      ensures CurrencyGuarded(t, after, c)
    {
      assert CurrencyGuarded(t, before, c);
    }
  }

  class ActiveChannels {
    var active: Active
    var links: set<(Key, Key)>
    const locks: LockNodes.Nodes

    ghost predicate Valid()
      reads this, locks
    {
      locks.Valid() && Guarded(locks.tree, active)
    }

    constructor ()
      ensures Valid() && fresh(locks) && active == map[] && Linked(links, active)
    {
      active, links := map[], {};
      locks := new LockNodes.Nodes();
    }

    /** AddOutboundChannel under its write lock, after the checks on chain. A channel that has become
        active meanwhile stays as it is, but the lock is then released twice. `linked` says whether
        the direct link could be added. */
    method Add(currency: Key, peer: Key, ch: Key, s: State, linked: bool) returns (added: bool, releases: nat)
      requires Valid()
      modifies this, locks
      ensures Valid()
      ensures added <==> Lookup(old(active), currency, peer, ch).None?
      ensures active == if added then With(old(active), currency, peer, ch, s) else old(active)
      ensures releases == 1 <==> added
      ensures old(Linked(links, active)) ==> (Linked(links, active) <==> !added || linked || (currency, peer) in old(links))
    {
      releases := 0;
      if currency in active && peer in active[currency] && ch in active[currency][peer] {
        releases := releases + 1;
        releases := releases + 1;
        return false, releases;
      }
      AddGuarded(locks.tree, locks.next, active, currency, peer, ch, s);
      if Linked(links, active) {
        LinkedWith(links, active, currency, peer, ch, s, linked);
      }
      GrowKeepsForm(locks.tree, locks.next, ChannelPath(currency, peer, ch));
      Enter(currency, peer, ch, s);
      locks.Insert(ROOT, ChannelPath(currency, peer, ch));
      if linked {
        links := links + {(currency, peer)};
      }
      releases := releases + 1;
      return true, releases;
    }

    /** Makes the maps on the way down where they are missing, and enters the channel. */
    method Enter(currency: Key, peer: Key, ch: Key, s: State)
      modifies this`active
      ensures active == With(old(active), currency, peer, ch, s)
    {
      ghost var peers, channels := Peers(active, currency), Channels(active, currency, peer);
      if currency !in active {
        active := active[currency := map[]];
      }
      if peer !in active[currency] {
        active := active[currency := active[currency][peer := map[]]];
      }
      assert active[currency] == peers[peer := channels];
      active := active[currency := active[currency][peer := active[currency][peer][ch := s]]];
      assert active[currency] == peers[peer := channels[ch := s]];
    }

    /** RetireOutboundChannel under its write lock: yields the state that goes to the store of inactive
        channels. `unlinked` says whether the direct link could be removed. */
    method Retire(currency: Key, peer: Key, ch: Key, unlinked: bool) returns (retired: Option<State>)
      requires Valid()
      modifies this, locks
      ensures Valid()
      ensures retired == Lookup(old(active), currency, peer, ch)
      ensures active == if retired.Some? then Without(old(active), currency, peer, ch) else old(active)
      ensures old(Linked(links, active)) && retired.Some? ==>
        (Linked(links, active) <==> unlinked || Channels(active, currency, peer) != map[])
    {
      if currency !in active || peer !in active[currency] || ch !in active[currency][peer] {
        return None;
      }
      ghost var before := active;
      retired := Some(active[currency][peer][ch]);
      TakeOut(currency, peer, ch);
      if Linked(links, before) {
        LinkedWithout(links, before, currency, peer, ch, unlinked);
      }
      if active[currency][peer] == map[] && unlinked {
        links := links - {(currency, peer)};
      }
    }

    /** Takes the channel out of its peer's map, and its node out of the lock tree. */
    method TakeOut(currency: Key, peer: Key, ch: Key)
      requires Valid() && currency in active && peer in active[currency]
      modifies this`active, locks
      ensures Valid() && active == Without(old(active), currency, peer, ch)
      ensures currency in active && peer in active[currency]
    {
      RetireGuarded(locks.tree, locks.next, active, currency, peer, ch);
      active := active[currency := active[currency][peer := active[currency][peer] - {ch}]];
      assert Parent(ChannelPath(currency, peer, ch)) == PeerPath(currency, peer);
      var crashed := locks.Remove(ROOT, ChannelPath(currency, peer, ch));
    }

    /** The first half of cleaning peers, under read locks: the peers that have no channels, except those
        whose lock was not granted. */
    method CollectEmpty(currency: Key, refused: set<Key>) returns (toRemove: set<Key>)
      ensures toRemove == set p | p in Peers(active, currency) && p !in refused && Channels(active, currency, p) == map[]
    {
      toRemove := {};
      if currency !in active {
        return;
      }
      var peers := active[currency].Keys;
      while peers != {}
        invariant peers <= active[currency].Keys
        invariant toRemove == set p | p in active[currency] && p !in peers && p !in refused && active[currency][p] == map[]
      {
        var p :| p in peers;
        peers := peers - {p};
        if p !in refused && active[currency][p] == map[] {
          toRemove := toRemove + {p};
        }
      }
    }

    /** The second half, under the currency's write lock, whatever has happened meanwhile: of the peers
        collected then exactly those that have no channels now are dropped. Their lock nodes stay. */
    method RemoveEmpty(currency: Key, toRemove: set<Key>)
      requires Valid()
      modifies this`active
      ensures Valid()
      ensures forall c, p :: Channels(active, c, p) == Channels(old(active), c, p)
      ensures forall c | c != currency :: Peers(active, c) == Peers(old(active), c)
      ensures forall p :: p in Peers(active, currency) <==>
        p in Peers(old(active), currency) && !(p in toRemove && Channels(old(active), currency, p) == map[])
    {
      if currency !in active {
        return;
      }
      ghost var before := active;
      var empty := set p | p in toRemove && p in active[currency] && active[currency][p] == map[];
      active := active[currency := active[currency] - empty];
      assert forall c | c != currency :: Peers(active, c) == Peers(before, c);
      assert Peers(active, currency) == Peers(before, currency) - empty;
      assert forall c, p :: Channels(active, c, p) == Channels(before, c, p);
      StillGuarded(locks.tree, before, active);
    }
  }
}
