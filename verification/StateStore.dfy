/**
 The store of channel states (paychstore/paychstore_impl.go): upserts arrive in any order through a
 queue, and a state nonce decides which of them are old.
 */
module StateStore {
  import opened Wrappers
  import opened ChannelLedger

  /** Where a channel state is stored. */
  datatype Key = Key(currencyID: nat, peer: string, chAddr: string)

  datatype Request = Request(key: Key, state: State)

  type States = map<Key, State>

  /** The greatest 64-bit state nonce. */
  const MAX_NONCE: nat := 0xFFFF_FFFF_FFFF_FFFF

  /** A state to upsert is old if the current one has a greater nonce, unless the nonces look as if
      they had wrapped around in between. */
  predicate Stale(current: State, state: State) {
    && current.stateNonce > state.stateNonce
    && !(state.stateNonce < 100 && MAX_NONCE - current.stateNonce < 100)
  }

  /** A state that is up to 100 changes ahead is never taken for an old one, whatever the current 64-bit
      nonce; one that is further ahead can be. */
  lemma AheadIsNotStaleIff(k: nat)
    requires k <= 0xFFFF_FFFF_FFFF_FFFF
    ensures k <= 100 <==>
      (forall current: State, state: State
         | current.stateNonce <= 0xFFFF_FFFF_FFFF_FFFF
           && state.stateNonce == (current.stateNonce + k) % 0x1_0000_0000_0000_0000 ::
         !Stale(current, state))
  {
    if k > 100 {
      var s := State("", "", 0, 0, 0, None, None, 0);
      var current := s.(stateNonce := 0x1_0000_0000_0000_0000 - 101);
      var state := s.(stateNonce := k - 101);
      assert Stale(current, state);
    }
  }

  function Upserted(db: States, r: Request): States {
    if r.key in db && Stale(db[r.key], r.state) then db else db[r.key := r.state]
  }

  function Drained(db: States, rs: seq<Request>): States
    decreases |rs|
  {
    if rs == [] then db else Drained(Upserted(db, rs[0]), rs[1..])
  }

  // ---------------------------------------------------------------- in place

  /** How far one attempt gets before its context ends or the datastore fails. */
  datatype Attempt = Attempt(readable: bool, lockable: bool, writable: bool)

  predicate Succeeds(db: States, r: Request, a: Attempt) {
    a.readable && ((r.key in db && Stale(db[r.key], r.state)) || (a.lockable && a.writable))
  }

  /** An old state is done with as soon as the stored one can be read; any other needs the lock and the write. */
  lemma SucceedsIff(db: States, r: Request, a: Attempt)
    ensures r.key in db && Stale(db[r.key], r.state) ==> (Succeeds(db, r, a) <==> a.readable)
    ensures !(r.key in db && Stale(db[r.key], r.state)) ==> (Succeeds(db, r, a) <==> a == Attempt(true, true, true))
  {
  }

  predicate Reached(db: States, r: Request, attempts: seq<Attempt>) {
    exists i | 0 <= i < |attempts| :: Succeeds(db, r, attempts[i])
  }

  /** The queue worked off front to back; an upsert whose attempts all fail is given up. */
  function Processed(db: States, rs: seq<Request>, attempts: seq<seq<Attempt>>): States
    requires |attempts| == |rs|
    decreases |rs|
  {
    if rs == [] then db
    else Processed(if Reached(db, rs[0], attempts[0]) then Upserted(db, rs[0]) else db, rs[1..], attempts[1..])
  }

  lemma {:induction false} ProcessedIsDrained(db: States, rs: seq<Request>, attempts: seq<seq<Attempt>>)
    requires |attempts| == |rs|
    requires forall i | 0 <= i < |rs| :: Attempt(true, true, true) in attempts[i]
    ensures Processed(db, rs, attempts) == Drained(db, rs)
    decreases |rs|
  {
    if rs != [] {
      var j :| 0 <= j < |attempts[0]| && attempts[0][j] == Attempt(true, true, true);
      assert Succeeds(db, rs[0], attempts[0][j]);
      ProcessedIsDrained(Upserted(db, rs[0]), rs[1..], attempts[1..]);
    }
  }

  class PaychStore {
    var ds: States
    var queue: seq<Request>

    constructor ()
      ensures ds == map[] && queue == []
    {
      ds, queue := map[], [];
    }

    /** The queued operation: read, and unless the state is old, lock, read again and write. */
    method Upsert(r: Request, attempts: seq<Attempt>) returns (done: bool)
      modifies this`ds
      ensures done <==> Reached(old(ds), r, attempts)
      ensures ds == if done then Upserted(old(ds), r) else old(ds)
    {
      for i := 0 to |attempts|
        invariant ds == old(ds)
        invariant forall j | 0 <= j < i :: !Succeeds(ds, r, attempts[j])
      {
        if attempts[i].readable {
          if r.key in ds && Stale(ds[r.key], r.state) {
            assert Succeeds(ds, r, attempts[i]);
            return true;
          }
          if attempts[i].lockable {
            if r.key in ds && Stale(ds[r.key], r.state) {
              return true;
            }
            if attempts[i].writable {
              assert Succeeds(ds, r, attempts[i]);
              ds := ds[r.key := r.state];
              return true;
            }
          }
        }
      }
      return false;
    }

    method ProcessQueue(attempts: seq<seq<Attempt>>)
      requires |attempts| == |queue|
      modifies this
      ensures queue == []
      ensures ds == Processed(old(ds), old(queue), attempts)
    {
      ghost var db, rs := ds, queue;
      var i := 0;
      while queue != []
        invariant 0 <= i <= |rs| && queue == rs[i..]
        invariant Processed(ds, rs[i..], attempts[i..]) == Processed(db, rs, attempts)
        decreases |queue|
      {
        var op := queue[0];
        queue := queue[1..];
        assert rs[i..][1..] == rs[i + 1..] && attempts[i..][1..] == attempts[i + 1..];
        var done := Upsert(op, attempts[i]);
        i := i + 1;
      }
      assert attempts[i..] == [] && rs[i..] == [];
    }
  }

  // ---------------------------------------------------------------- convergence

  /** A state that may end up stored under k. */
  predicate Candidate(db: States, rs: seq<Request>, k: Key, s: State) {
    (k in db && db[k] == s) || Request(k, s) in rs
  }

  ghost predicate Newest(db: States, rs: seq<Request>, k: Key, s: State) {
    Candidate(db, rs, k, s) && forall c | Candidate(db, rs, k, c) :: c.stateNonce <= s.stateNonce
  }

  /** A request to store a state with a very small nonce comes together with a state whose nonce is
      almost the greatest possible. */
  ghost predicate Wraps(db: States, rs: seq<Request>, k: Key) {
    exists a, b :: Request(k, a) in rs && a.stateNonce < 100 && Candidate(db, rs, k, b) && MAX_NONCE - b.stateNonce < 100
  }

  lemma CandidateStep(db: States, rs: seq<Request>, k: Key, s: State)
    requires rs != []
    ensures Candidate(Upserted(db, rs[0]), rs[1..], k, s) ==> Candidate(db, rs, k, s)
    ensures Candidate(db, rs, k, s) ==>
      || Candidate(Upserted(db, rs[0]), rs[1..], k, s)
      || (k in Upserted(db, rs[0]) && (Stale(Upserted(db, rs[0])[k], s) || (k in db && db[k] == s && rs[0].key == k && !Stale(s, rs[0].state))))
  {
  }

  /** What is stored is always one of the candidates. */
  lemma {:induction false} DrainedIsCandidate(db: States, rs: seq<Request>, k: Key)
    ensures k in Drained(db, rs) ==> Candidate(db, rs, k, Drained(db, rs)[k])
    ensures (exists s :: Candidate(db, rs, k, s)) ==> k in Drained(db, rs)
    decreases |rs|
  {
    if rs != [] {
      var db' := Upserted(db, rs[0]);
      DrainedIsCandidate(db', rs[1..], k);
      if k in Drained(db, rs) {
        CandidateStep(db, rs, k, Drained(db, rs)[k]);
      }
      if s :| Candidate(db, rs, k, s) {
        CandidateStep(db, rs, k, s);
        if k in db' {
          assert Candidate(db', rs[1..], k, db'[k]);
        }
      }
    }
  }

  lemma WrapsStep(db: States, rs: seq<Request>, k: Key)
    requires rs != [] && !Wraps(db, rs, k)
    ensures !Wraps(Upserted(db, rs[0]), rs[1..], k)
  {
  }

  lemma ReplacedIsOlder(db: States, rs: seq<Request>, k: Key)
    requires rs != [] && !Wraps(db, rs, k)
    ensures k in db && rs[0].key == k && !Stale(db[k], rs[0].state) ==> db[k].stateNonce <= rs[0].state.stateNonce
  {
  }

  /** Without such a pair the newest candidate is stored in the end, in whatever order they come. */
  lemma {:induction false} NewestIsStored(db: States, rs: seq<Request>, k: Key)
    requires !Wraps(db, rs, k)
    ensures k in Drained(db, rs) ==> Newest(db, rs, k, Drained(db, rs)[k])
    decreases |rs|
  {
    DrainedIsCandidate(db, rs, k);
    if rs != [] && k in Drained(db, rs) {
      var db', end := Upserted(db, rs[0]), Drained(db, rs)[k];
      WrapsStep(db, rs, k);
      ReplacedIsOlder(db, rs, k);
      NewestIsStored(db', rs[1..], k);
      forall c | Candidate(db, rs, k, c)
        ensures c.stateNonce <= end.stateNonce
      {
        CandidateStep(db, rs, k, c);
        if k in db' {
          assert Candidate(db', rs[1..], k, db'[k]);
        }
      }
    }
  }

  lemma {:induction false} DrainedSnoc(db: States, rs: seq<Request>, r: Request)
    ensures Drained(db, rs + [r]) == Upserted(Drained(db, rs), r)
    decreases |rs|
  {
    if rs != [] {
      assert (rs + [r])[1..] == rs[1..] + [r];
      DrainedSnoc(Upserted(db, rs[0]), rs[1..], r);
    } else {
      assert rs + [r] == [r] && [r][1..] == [];
    }
  }

  lemma SameMembers(p: seq<Request>, q: seq<Request>, r: Request)
    requires multiset(p) == multiset(q)
    ensures r in p <==> r in q
  {
    assert r in p <==> r in multiset(p);
    assert r in q <==> r in multiset(q);
  }

  lemma SameCandidates(db: States, p: seq<Request>, q: seq<Request>, k: Key, s: State)
    requires multiset(p) == multiset(q)
    ensures Candidate(db, p, k, s) <==> Candidate(db, q, k, s)
  {
    SameMembers(p, q, Request(k, s));
  }

  lemma SameNewest(db: States, p: seq<Request>, q: seq<Request>, k: Key, s: State)
    requires multiset(p) == multiset(q)
    ensures Newest(db, p, k, s) <==> Newest(db, q, k, s)
  {
    SameCandidates(db, p, q, k, s);
    forall c
      ensures Candidate(db, p, k, c) <==> Candidate(db, q, k, c)
    {
      SameCandidates(db, p, q, k, c);
    }
  }

  lemma SameWraps(db: States, p: seq<Request>, q: seq<Request>, k: Key)
    requires multiset(p) == multiset(q) && Wraps(db, p, k)
    ensures Wraps(db, q, k)
  {
    var a, b :| Request(k, a) in p && a.stateNonce < 100 && Candidate(db, p, k, b) && MAX_NONCE - b.stateNonce < 100;
    SameMembers(p, q, Request(k, a));
    SameCandidates(db, p, q, k, b);
  }

  lemma MoveToEnd(rs: seq<Request>, r: Request) returns (p: seq<Request>)
    requires r in rs
    ensures multiset(p + [r]) == multiset(rs)
  {
    var i :| 0 <= i < |rs| && rs[i] == r;
    p := rs[..i] + rs[i + 1..];
    assert rs == rs[..i] + [r] + rs[i + 1..];
  }

  /** With such a pair, storing the small nonce last loses the newest state. */
  lemma WrapLosesNewest(db: States, rs: seq<Request>, k: Key) returns (p: seq<Request>)
    requires Wraps(db, rs, k)
    ensures multiset(p) == multiset(rs)
    ensures k in Drained(db, p) && !Newest(db, p, k, Drained(db, p)[k])
  {
    var a, b :| Request(k, a) in rs && a.stateNonce < 100 && Candidate(db, rs, k, b) && MAX_NONCE - b.stateNonce < 100;
    var rest := MoveToEnd(rs, Request(k, a));
    p := rest + [Request(k, a)];
    DrainedSnoc(db, rest, Request(k, a));
    SameCandidates(db, p, rs, k, b);
    DrainedIsCandidate(db, rest, k);
    assert k in Drained(db, rest) ==> Candidate(db, p, k, Drained(db, rest)[k]);
  }

  ghost predicate AllOrdersStoreNewest(db: States, rs: seq<Request>, k: Key) {
    forall p | multiset(p) == multiset(rs) && k in Drained(db, p) :: Newest(db, rs, k, Drained(db, p)[k])
  }

  /** All orders of the upserts leave the newest state of a channel exactly if none of them has a
      nonce below 100 while another one, or the stored state, has one within 100 of the greatest. */
  lemma ConvergesIff(db: States, rs: seq<Request>, k: Key)
    ensures AllOrdersStoreNewest(db, rs, k) <==> !Wraps(db, rs, k)
  {
    if Wraps(db, rs, k) {
      var p := WrapLosesNewest(db, rs, k);
      SameNewest(db, p, rs, k, Drained(db, p)[k]);
    } else {
      forall p | multiset(p) == multiset(rs) && k in Drained(db, p)
        ensures Newest(db, rs, k, Drained(db, p)[k])
      {
        if Wraps(db, p, k) {
          SameWraps(db, p, rs, k);
        }
        NewestIsStored(db, p, k);
        SameNewest(db, p, rs, k, Drained(db, p)[k]);
      }
    }
  }

  /** States of one channel with equal nonces are equal. */
  ghost predicate Distinct(db: States, rs: seq<Request>, k: Key) {
    forall s, c | Candidate(db, rs, k, s) && Candidate(db, rs, k, c) && s.stateNonce == c.stateNonce :: s == c
  }

  lemma SameStored(db: States, p: seq<Request>, q: seq<Request>, k: Key)
    requires multiset(p) == multiset(q) && !Wraps(db, q, k) && Distinct(db, q, k)
    ensures k in Drained(db, p) <==> k in Drained(db, q)
    ensures k in Drained(db, p) ==> Drained(db, p)[k] == Drained(db, q)[k]
  {
    DrainedIsCandidate(db, p, k);
    DrainedIsCandidate(db, q, k);
    if k in Drained(db, p) {
      SameCandidates(db, p, q, k, Drained(db, p)[k]);
    }
    if k in Drained(db, q) {
      SameCandidates(db, p, q, k, Drained(db, q)[k]);
    }
    ConvergesIff(db, q, k);
  }

  /** Upserts converge: any two orders of the same upserts leave the same store. */
  lemma UpsertsConverge(db: States, p: seq<Request>, q: seq<Request>)
    requires multiset(p) == multiset(q)
    requires forall k :: !Wraps(db, q, k) && Distinct(db, q, k)
    ensures Drained(db, p) == Drained(db, q)
  {
    forall k
      ensures k in Drained(db, p) <==> k in Drained(db, q)
      ensures k in Drained(db, p) ==> Drained(db, p)[k] == Drained(db, q)[k]
    {
      SameStored(db, p, q, k);
    }
  }
}
