/**
 Concurrent use of the lock tree (locking/locknode.go): any number of acquisitions by different
 goroutines, each advancing one lock operation at a time, over a tree that their holders extend
 and cut. A handle is one call of RLock or Lock together with the release it returns.
 */
module LockSystem {
  import opened Wrappers
  import opened LockTree

  type HandleId = nat

  datatype Mode = Read | Write

  /** Where a call is: waiting for the lock of node `at`; holding a read lock on `at` and about to
      look up its child; waiting to write-lock `at` after finding no child; holding that lock and
      about to look again; returned with the locks held; giving its locks back one by one. */
  datatype Phase = Want | Look | Upgrade | Recheck | Held | Dropping

  /** `held` are the nodes locked so far, from the root down: all of them read locks, except that
      the last one is a write lock if `writing`. */
  datatype Handle = Handle(path: Path, mode: Mode, phase: Phase, at: NodeId, held: seq<NodeId>, writing: bool)

  /** `data` is what the lock tree guards: the paths that currently have an entry. */
  datatype System = System(tree: Tree, next: nat, handles: map<HandleId, Handle>, data: set<Path>)

  function Last(h: Handle): NodeId
    requires h.held != []
  {
    h.held[|h.held| - 1]
  }

  /** h has a write lock on n. */
  predicate Writes(h: Handle, n: NodeId) {
    h.writing && h.held != [] && Last(h) == n
  }

  predicate CanRead(s: System, n: NodeId) {
    forall g | g in s.handles :: !Writes(s.handles[g], n)
  }

  predicate CanWrite(s: System, n: NodeId) {
    forall g | g in s.handles :: n !in s.handles[g].held
  }

  /** The next lock that h asks for is a write lock. */
  predicate WantsWrite(h: Handle) {
    h.phase == Upgrade || (h.phase == Want && h.mode == Write && |h.held| == |h.path|)
  }

  predicate Waiting(h: Handle) {
    h.phase == Want || h.phase == Upgrade
  }

  datatype Event =
    | Begin(h: HandleId, path: Path, mode: Mode)
    | Acquire(h: HandleId)              // the lock that h waits for is granted
    | LookUp(h: HandleId)               // h looks for the child its path names
    | Fail(h: HandleId)                 // the context of h ends while it waits
    | Release(h: HandleId)              // the holder calls the returned release function
    | Drop(h: HandleId)                 // one lock is given back, the deepest first
    | Insert(h: HandleId)               // the holder of Lock(path) adds path, and an entry for it
    | Remove(h: HandleId, key: Key)     // the holder of Lock(path) removes the child key and its entry
    | Forget(h: HandleId, key: Key)     // the holder of Lock(path) removes the entry of the child key only
    | RemoveOwn(h: HandleId)            // the holder of Lock(path) removes path itself

  predicate Enabled(s: System, e: Event) {
    match e
    case Begin(h, _, _) => h !in s.handles
    case Acquire(h) =>
      && h in s.handles && Waiting(s.handles[h])
      && (if WantsWrite(s.handles[h]) then CanWrite(s, s.handles[h].at) else CanRead(s, s.handles[h].at))
    case LookUp(h) =>
      && h in s.handles && (s.handles[h].phase == Look || s.handles[h].phase == Recheck)
      && 0 < |s.handles[h].held| <= |s.handles[h].path|
    case Fail(h) => h in s.handles && Waiting(s.handles[h])
    case Release(h) => h in s.handles && s.handles[h].phase == Held
    case Drop(h) => h in s.handles && s.handles[h].phase == Dropping
    case Insert(h) => HoldsLock(s, h)
    case Remove(h, _) => HoldsLock(s, h) && Present(s.tree, s.handles[h].path)
    case Forget(h, _) => HoldsLock(s, h)
    case RemoveOwn(h) =>
      HoldsLock(s, h) && s.handles[h].path != [] && Present(s.tree, Parent(s.handles[h].path))
  }

  /** h has returned from Lock and not been released. */
  predicate HoldsLock(s: System, h: HandleId) {
    h in s.handles && s.handles[h].phase == Held && s.handles[h].mode == Write
  }

  predicate Present(t: Tree, path: Path) {
    Node(t, path).Some? && Node(t, path).value in t
  }

  /** The handle after it has been granted the lock it waits for. */
  function Granted(h: Handle): Handle {
    h.(held := h.held + [h.at], writing := WantsWrite(h),
       phase := if h.phase == Upgrade then Recheck else if |h.held| == |h.path| then Held else Look)
  }

  /** The handle after it has looked up the next key of its path. */
  function Looked(t: Tree, h: Handle): Handle
    requires 0 < |h.held| <= |h.path|
  {
    var kids := if h.at in t then t[h.at] else map[];
    var key := h.path[|h.held| - 1];
    if h.phase == Recheck then h.(phase := if key in kids then Dropping else Held)
    else if key in kids then h.(phase := Want, at := kids[key])
    else if h.mode == Read then h.(phase := Held)
    else h.(phase := Upgrade, held := h.held[..|h.held| - 1])
  }

  /** The handle after it has stopped, by failure or release; without locks it is gone. */
  function Stopped(handles: map<HandleId, Handle>, i: HandleId): map<HandleId, Handle>
    requires i in handles
  {
    if handles[i].held == [] then handles - {i} else handles[i := handles[i].(phase := Dropping)]
  }

  function Dropped(handles: map<HandleId, Handle>, i: HandleId): map<HandleId, Handle>
    requires i in handles
  {
    var h := handles[i];
    if |h.held| <= 1 then handles - {i}
    else handles[i := h.(held := h.held[..|h.held| - 1], writing := false)]
  }

  function Next(s: System, e: Event): System
    requires Enabled(s, e)
  {
    match e
    case Begin(i, path, mode) => s.(handles := s.handles[i := Handle(path, mode, Want, ROOT, [], false)])
    case Acquire(i) => s.(handles := s.handles[i := Granted(s.handles[i])])
    case LookUp(i) => s.(handles := s.handles[i := Looked(s.tree, s.handles[i])])
    case Fail(i) => s.(handles := Stopped(s.handles, i))
    case Release(i) => s.(handles := Stopped(s.handles, i))
    case Drop(i) => s.(handles := Dropped(s.handles, i))
    case Insert(i) =>
      var path := s.handles[i].path;
      var (tree, next) := Grow(s.tree, ROOT, path, s.next);
      s.(tree := tree, next := next, data := s.data + {path})
    case Remove(i, key) =>
      var path := s.handles[i].path;
      s.(tree := Prune(s.tree, Node(s.tree, path).value, key), data := s.data - {path + [key]})
    case Forget(i, key) => s.(data := s.data - {s.handles[i].path + [key]})
    case RemoveOwn(i) =>
      var path := s.handles[i].path;
      s.(tree := Prune(s.tree, Node(s.tree, Parent(path)).value, path[|path| - 1]), data := s.data - {path})
  }

  function Step(s: System, e: Event): System {
    if Enabled(s, e) then Next(s, e) else s
  }

  function Run(s: System, es: seq<Event>): System
    decreases |es|
  {
    if es == [] then s else Run(Step(s, es[0]), es[1..])
  }

  /** Removals happen under the write lock of the parent path. */
  predicate Disciplined(es: seq<Event>) {
    forall e | e in es :: !e.RemoveOwn?
  }

  // ---------------------------------------------------------------- the invariant

  /** What a handle knows about the tree: its locked nodes and the node it waits for are the nodes
      at the prefixes of its path, and a reader that stopped early did so at a missing child. */
  ghost predicate Placed(t: Tree, h: Handle) {
    && |h.held| <= |h.path| + 1
    && (forall i | 0 <= i < |h.held| :: Node(t, h.path[..i]) == Some(h.held[i]))
    && match h.phase
       case Want => !h.writing && |h.held| <= |h.path| && Node(t, h.path[..|h.held|]) == Some(h.at)
       case Upgrade => !h.writing && h.mode == Write && |h.held| < |h.path| && Node(t, h.path[..|h.held|]) == Some(h.at)
       case Look => !h.writing && 0 < |h.held| <= |h.path| && h.at == Last(h)
       case Recheck => h.writing && h.mode == Write && 0 < |h.held| <= |h.path| && h.at == Last(h)
       case Held =>
         && h.held != [] && (h.writing <==> h.mode == Write)
         && (h.mode == Read && |h.held| <= |h.path| ==> Node(t, h.path[..|h.held|]) == None)
       case Dropping => h.held != []
  }

  /** A write-locked node is not locked by anybody else. */
  ghost predicate Exclusive(s: System) {
    forall g, h | g in s.handles && h in s.handles && g != h && s.handles[g].writing && s.handles[g].held != [] ::
      Last(s.handles[g]) !in s.handles[h].held
  }

  ghost predicate Inv(s: System) {
    && WellFormed(s.tree, s.next)
    && (forall h | h in s.handles :: Placed(s.tree, s.handles[h]))
    && Exclusive(s)
  }

  /** A tree without handles, as CreateLockNode leaves it. */
  predicate Init(s: System) {
    s.tree == map[ROOT := map[]] && s.next == 1 && s.handles == map[] && s.data == {}
  }

  lemma BeginInv(s: System, e: Event)
    requires Inv(s) && Enabled(s, e) && e.Begin?
    ensures Inv(Next(s, e))
  {
  }

  lemma GrantedPlaced(t: Tree, h: Handle)
    requires Placed(t, h) && Waiting(h)
    ensures Placed(t, Granted(h))
  {
  }

  lemma AcquireInv(s: System, e: Event)
    requires Inv(s) && Enabled(s, e) && e.Acquire?
    ensures Inv(Next(s, e))
  {
    var h := s.handles[e.h];
    GrantedPlaced(s.tree, h);
    assert Last(Granted(h)) == h.at;
  }

  lemma LookedPlaced(t: Tree, next: nat, h: Handle)
    requires WellFormed(t, next) && Placed(t, h) && (h.phase == Look || h.phase == Recheck)
    ensures Placed(t, Looked(t, h))
  {
    var i := |h.held| - 1;
    NodeChild(t, next, h.path[..i], h.path[i]);
    assert h.path[..i] + [h.path[i]] == h.path[..i + 1];
  }

  lemma LookUpInv(s: System, e: Event)
    requires Inv(s) && Enabled(s, e) && e.LookUp?
    ensures Inv(Next(s, e))
  {
    LookedPlaced(s.tree, s.next, s.handles[e.h]);
  }

  lemma StopInv(s: System, e: Event)
    requires Inv(s) && Enabled(s, e) && (e.Fail? || e.Release?)
    ensures Inv(Next(s, e))
  {
    var t := Next(s, e);
    forall g | g in t.handles
      ensures g in s.handles && t.handles[g].held == s.handles[g].held && t.handles[g].writing == s.handles[g].writing
      ensures Placed(t.tree, t.handles[g])
    {
    }
  }

  lemma DropInv(s: System, e: Event)
    requires Inv(s) && Enabled(s, e) && e.Drop?
    ensures Inv(Next(s, e))
  {
  }

  /** Nobody else is as deep as a write lock below which it is. */
  lemma NobodyBelow(s: System, h: HandleId, g: HandleId)
    requires Inv(s) && h in s.handles && g in s.handles && h != g
    requires s.handles[h].writing && s.handles[h].held != []
    ensures var d := |s.handles[h].held| - 1;
            !(|s.handles[g].held| > d && s.handles[g].path[..d] == s.handles[h].path[..d])
  {
  }

  /** The deepest existing node on a path is at or below the locks taken on it. */
  lemma HeldIsPresent(t: Tree, h: Handle, j: nat)
    requires Placed(t, h) && j <= |h.path|
    ensures Node(t, h.path[..j]) == None ==> |h.held| <= j
  {
  }

  lemma PrefixTake(p: Path, q: Path, i: int)
    ensures 0 <= i <= |p| && p <= q ==> q[..i] == p[..i]
  {
  }

  lemma InsertPlaced(s: System, i: HandleId, g: HandleId)
    requires Inv(s) && HoldsLock(s, i) && g in s.handles
    ensures Placed(Grow(s.tree, ROOT, s.handles[i].path, s.next).0, s.handles[g])
  {
    var t', path := Grow(s.tree, ROOT, s.handles[i].path, s.next).0, s.handles[i].path;
    var h := s.handles[g];
    forall j | 0 <= j < |h.held|
      ensures Node(t', h.path[..j]) == Some(h.held[j])
    {
      NodeInsert(s.tree, s.next, path, h.path[..j]);
    }
    if |h.held| <= |h.path| {
      var q := h.path[..|h.held|];
      NodeInsert(s.tree, s.next, path, q);
      if h.phase == Held && h.mode == Read && q <= path {
        assert path[..|q|] == q;
        HeldIsPresent(s.tree, s.handles[i], |q|);
        assert h.path[..|s.handles[i].held| - 1] == path[..|s.handles[i].held| - 1];
        NobodyBelow(s, i, g);
      }
    }
  }

  lemma InsertInv(s: System, e: Event)
    requires Inv(s) && Enabled(s, e) && e.Insert?
    ensures Inv(Next(s, e))
  {
    NodeInsert(s.tree, s.next, s.handles[e.h].path, []);
    forall g | g in s.handles
      ensures Placed(Next(s, e).tree, s.handles[g])
    {
      InsertPlaced(s, e.h, g);
    }
  }

  /** Cutting off a node strictly below a write lock disturbs nobody. */
  lemma CutPlaced(s: System, i: HandleId, p: Path, key: Key, g: HandleId)
    requires Inv(s) && i in s.handles && s.handles[i].writing && s.handles[i].held != []
    requires var d := |s.handles[i].held| - 1; d <= |p| && d <= |s.handles[i].path| && p[..d] == s.handles[i].path[..d]
    requires Present(s.tree, p) && g in s.handles
    ensures Placed(Prune(s.tree, Node(s.tree, p).value, key), s.handles[g])
  {
    var h, d := s.handles[g], |s.handles[i].held| - 1;
    var t' := Prune(s.tree, Node(s.tree, p).value, key);
    forall j | 0 <= j <= |h.path| && (j < |h.held| || (j == |h.held| && g != i))
      ensures Node(t', h.path[..j]) == Node(s.tree, h.path[..j])
    {
      NodePrune(s.tree, s.next, p, key, h.path[..j]);
      PrefixTake(p + [key], h.path[..j], d);
      assert (p + [key])[..d] == p[..d];
      if g != i {
        NobodyBelow(s, i, g);
      }
    }
  }

  lemma RemoveInv(s: System, e: Event)
    requires Inv(s) && Enabled(s, e) && e.Remove?
    ensures Inv(Next(s, e))
  {
    NodePrune(s.tree, s.next, s.handles[e.h].path, e.key, []);
    forall g | g in s.handles
      ensures Placed(Next(s, e).tree, s.handles[g])
    {
      CutPlaced(s, e.h, s.handles[e.h].path, e.key, g);
    }
  }

  lemma StepInv(s: System, e: Event)
    requires Inv(s) && !e.RemoveOwn?
    ensures Inv(Step(s, e))
  {
    if Enabled(s, e) {
      match e {
        case Begin(_, _, _) => BeginInv(s, e);
        case Acquire(_) => AcquireInv(s, e);
        case LookUp(_) => LookUpInv(s, e);
        case Insert(_) => InsertInv(s, e);
        case Remove(_, _) => RemoveInv(s, e);
        case Forget(_, _) =>
        case Drop(_) => DropInv(s, e);
        case _ => StopInv(s, e);
      }
    }
  }

  lemma {:induction false} RunInv(s: System, es: seq<Event>)
    requires Inv(s) && Disciplined(es)
    ensures Inv(Run(s, es))
    decreases |es|
  {
    if es != [] {
      assert es[0] in es && forall e | e in es[1..] :: e in es;
      StepInv(s, es[0]);
      RunInv(Step(s, es[0]), es[1..]);
    }
  }

  lemma InitInv(s: System)
    requires Init(s)
    ensures Inv(s)
  {
  }

  // ---------------------------------------------------------------- exclusion

  lemma ExtensionExcluded(s: System, h: HandleId, g: HandleId)
    requires Inv(s) && HoldsLock(s, h) && g in s.handles && g != h && s.handles[g].phase == Held
    ensures !(s.handles[h].path <= s.handles[g].path)
  {
    var a, b := s.handles[h], s.handles[g];
    var d, d' := |a.held| - 1, |b.held| - 1;
    NobodyBelow(s, h, g);
    PrefixTake(a.path, b.path, d);
    PrefixTake(a.path, b.path, d');
    PrefixTake(a.path, b.path, d' + 1);
    if b.writing {
      NobodyBelow(s, g, h);
    }
    if d' < d {
      assert Node(s.tree, a.path[..d' + 1]) == Some(a.held[d' + 1]);
    }
  }

  lemma WriteOnPrefixExcluded(s: System, h: HandleId, g: HandleId)
    requires Inv(s) && HoldsLock(s, h) && HoldsLock(s, g) && g != h
    ensures !(s.handles[g].path <= s.handles[h].path)
  {
    var a, b := s.handles[h], s.handles[g];
    NobodyBelow(s, h, g);
    NobodyBelow(s, g, h);
    PrefixTake(b.path, a.path, |a.held| - 1);
    PrefixTake(b.path, a.path, |b.held| - 1);
  }

  /** Over all interleavings: while one caller holds Lock(p), no other holds any lock on p or on an
      extension of p, nor Lock on a prefix of p, whether or not p is in the tree. */
  lemma LockExclusion(s: System, es: seq<Event>, h: HandleId, g: HandleId)
    requires Init(s) && Disciplined(es)
    ensures var t := Run(s, es);
            HoldsLock(t, h) && g in t.handles && g != h && t.handles[g].phase == Held ==>
              && !(t.handles[h].path <= t.handles[g].path)
              && (t.handles[g].mode == Write ==> !(t.handles[g].path <= t.handles[h].path))
  {
    InitInv(s);
    RunInv(s, es);
    var t := Run(s, es);
    if HoldsLock(t, h) && g in t.handles && g != h && t.handles[g].phase == Held {
      ExtensionExcluded(t, h, g);
      if t.handles[g].mode == Write {
        WriteOnPrefixExcluded(t, h, g);
      }
    }
  }

  /** The depth of the node that Lock(path) comes to hold: the path's own, or the deepest one above it. */
  predicate LocksAt(t: Tree, path: Path, d: nat) {
    && d <= |path| && Node(t, path[..d]).Some?
    && (d < |path| ==> Node(t, path[..d + 1]).None?)
  }

  /** The nodes above it are exactly the ones on the path that are there. */
  lemma PresentDownTo(t: Tree, path: Path, d: nat, k: nat)
    requires LocksAt(t, path, d) && k <= |path|
    ensures Node(t, path[..k]).Some? <==> k <= d
  {
    PresentAbove(t, path, k, d);
    PresentAbove(t, path, d + 1, k);
  }

  lemma PresentAbove(t: Tree, path: Path, i: nat, k: nat)
    ensures i <= k <= |path| && Node(t, path[..k]).Some? ==> Node(t, path[..i]).Some?
  {
    if i <= k <= |path| && Node(t, path[..k]).Some? {
      NodePrefix(t, path[..k], i);
      assert path[..k][..i] == path[..i];
    }
  }

  /** A call of Lock that returns holds its write lock there. */
  lemma LockReturnsAt(t: Tree, next: nat, h: Handle, returned: Handle)
    requires WellFormed(t, next) && Placed(t, h) && h.mode == Write && h.phase != Held && returned.phase == Held
    requires (Waiting(h) && returned == Granted(h)) || (h.phase == Recheck && returned == Looked(t, h))
    ensures LocksAt(t, h.path, |returned.held| - 1) && returned.writing
  {
    if h.phase == Recheck {
      var i := |h.held| - 1;
      NodeChild(t, next, h.path[..i], h.path[i]);
      assert h.path[..i] + [h.path[i]] == h.path[..i + 1];
    }
  }

  // ---------------------------------------------------------------- giving locks back

  function Repeat(e: Event, n: nat): seq<Event> {
    if n == 0 then [] else [e] + Repeat(e, n - 1)
  }

  lemma {:induction false} DropAll(s: System, h: HandleId, n: nat)
    requires h in s.handles && s.handles[h].phase == Dropping && |s.handles[h].held| == n > 0
    ensures Run(s, Repeat(Drop(h), n)) == s.(handles := s.handles - {h})
    decreases n
  {
    var s' := Step(s, Drop(h));
    assert Repeat(Drop(h), n)[1..] == Repeat(Drop(h), n - 1);
    if n > 1 {
      DropAll(s', h, n - 1);
      assert s'.handles - {h} == s.handles - {h};
    }
  }

  /** The ways a call of Lock or RLock comes to give back what it holds: its context ends while it
      waits, it finds on looking again that the child has been inserted, or the caller releases. */
  predicate GivesUp(s: System, e: Event) {
    Enabled(s, e) && match e
      case Fail(_) => true
      case Release(_) => true
      case LookUp(i) =>
        && s.handles[i].phase == Recheck && s.handles[i].at in s.tree
        && s.handles[i].path[|s.handles[i].held| - 1] in s.tree[s.handles[i].at]
      case _ => false
  }

  function Drops(es: seq<Event>, h: HandleId): nat {
    if es == [] then 0 else (if es[0] == Drop(h) then 1 else 0) + Drops(es[1..], h)
  }

  /** h holds the first n of the locks it had taken, and is giving them back. */
  predicate Down(s: System, h: HandleId, was: Handle, n: int) {
    if n <= 0 then h !in s.handles
    else
      && n <= |was.held| && h in s.handles
      && s.handles[h].phase == Dropping && s.handles[h].held == was.held[..n]
  }

  lemma DownStep(s: System, e: Event, h: HandleId, was: Handle, n: int)
    requires Down(s, h, was, n) && !(e.Begin? && e.h == h)
    ensures Down(Step(s, e), h, was, n - (if e == Drop(h) then 1 else 0))
  {
  }

  lemma {:induction false} DownRun(s: System, es: seq<Event>, h: HandleId, was: Handle, n: int)
    requires Down(s, h, was, n) && forall e | e in es :: !(e.Begin? && e.h == h)
    ensures Down(Run(s, es), h, was, n - Drops(es, h))
    decreases |es|
  {
    if es != [] {
      assert es[0] in es && forall e | e in es[1..] :: e in es;
      DownStep(s, es[0], h, was, n);
      DownRun(Step(s, es[0]), es[1..], h, was, n - (if es[0] == Drop(h) then 1 else 0));
    }
  }

  /** A call that fails, in any way, and a caller that releases give back exactly the locks they took,
      the deepest first, whatever others do in between: after k drops all but the last k are held,
      and once there have been as many drops as locks, none is. */
  lemma NothingLeaks(s: System, h: HandleId, e: Event, es: seq<Event>)
    requires h in s.handles && e.h == h && GivesUp(s, e)
    requires forall e' | e' in es :: !(e'.Begin? && e'.h == h)
    ensures Down(Run(Step(s, e), es), h, s.handles[h], |s.handles[h].held| - Drops(es, h))
  {
    var was := s.handles[h];
    assert was.held[..|was.held|] == was.held;
    DownRun(Step(s, e), es, h, was, |was.held|);
  }

  /** Alone, it leaves everything else as it was. */
  lemma NothingElseChanges(s: System, h: HandleId, e: Event)
    requires h in s.handles && e.h == h && GivesUp(s, e)
    ensures Run(s, [e] + Repeat(Drop(h), |s.handles[h].held|)) == s.(handles := s.handles - {h})
  {
    var n := |s.handles[h].held|;
    var es := [e] + Repeat(Drop(h), n);
    assert es[1..] == Repeat(Drop(h), n);
    if n > 0 {
      DropAll(Step(s, e), h, n);
      assert Step(s, e).handles - {h} == s.handles - {h};
    }
  }

  // ---------------------------------------------------------------- looking up under a lock

  lemma SnocInjective(p: Path, k: Key, q: Path, k': Key)
    ensures p + [k] == q + [k'] ==> p == q && k == k'
  {
    assert (p + [k])[..|p|] == p && (q + [k'])[..|q|] == q;
  }

  lemma EntryStays(s: System, e: Event, h: HandleId, key: Key)
    requires Inv(s) && !e.RemoveOwn? && e != Release(h)
    requires h in s.handles && s.handles[h].phase == Held && s.handles[h].mode == Read
    requires s.handles[h].path + [key] in s.data
    ensures var t := Step(s, e);
            h in t.handles && t.handles[h] == s.handles[h] && s.handles[h].path + [key] in t.data
  {
    if Enabled(s, e) && (e.Remove? || e.Forget?) {
      var p, q := s.handles[h].path, s.handles[e.h].path;
      ExtensionExcluded(s, e.h, h);
      SnocInjective(q, e.key, p, key);
    }
  }

  /** While a caller keeps a read lock on p, an entry p/key that it has seen stays: a second look,
      after switching from the read lock of p/key to its write lock, cannot miss it. */
  lemma {:induction false} LookupCannotMiss(s: System, es: seq<Event>, h: HandleId, key: Key)
    requires Inv(s) && Disciplined(es) && Release(h) !in es
    requires h in s.handles && s.handles[h].phase == Held && s.handles[h].mode == Read
    requires s.handles[h].path + [key] in s.data
    ensures var t := Run(s, es);
            h in t.handles && t.handles[h] == s.handles[h] && s.handles[h].path + [key] in t.data
    decreases |es|
  {
    if es != [] {
      assert es[0] in es && forall e | e in es[1..] :: e in es;
      StepInv(s, es[0]);
      EntryStays(s, es[0], h, key);
      LookupCannotMiss(Step(s, es[0]), es[1..], h, key);
    }
  }

  // ---------------------------------------------------------------- entries and nodes

  /** Every entry has its lock node. */
  ghost predicate EntriesPresent(s: System) {
    forall q | q in s.data :: Node(s.tree, q).Some?
  }

  /** A removal takes out an entry below which there is none. */
  predicate LeafRemoval(s: System, e: Event) {
    e.Remove? && Enabled(s, e) ==>
      forall q | q in s.data && s.handles[e.h].path + [e.key] <= q :: q == s.handles[e.h].path + [e.key]
  }

  predicate LeafRemovals(s: System, es: seq<Event>)
    decreases |es|
  {
    es == [] || (LeafRemoval(s, es[0]) && LeafRemovals(Step(s, es[0]), es[1..]))
  }

  lemma EntriesStep(s: System, e: Event)
    requires Inv(s) && EntriesPresent(s) && !e.RemoveOwn? && LeafRemoval(s, e)
    ensures EntriesPresent(Step(s, e))
  {
    if Enabled(s, e) && (e.Insert? || e.Remove?) {
      var path := s.handles[e.h].path;
      forall q | q in Next(s, e).data
        ensures Node(Next(s, e).tree, q).Some?
      {
        if e.Insert? {
          NodeInsert(s.tree, s.next, path, q);
        } else {
          NodePrune(s.tree, s.next, path, e.key, q);
        }
      }
    }
  }

  /** Over every run entries keep their lock nodes. */
  lemma {:induction false} EntriesRun(s: System, es: seq<Event>)
    requires Inv(s) && EntriesPresent(s) && Disciplined(es) && LeafRemovals(s, es)
    ensures Inv(Run(s, es)) && EntriesPresent(Run(s, es))
    decreases |es|
  {
    if es != [] {
      assert es[0] in es && forall e | e in es[1..] :: e in es;
      StepInv(s, es[0]);
      EntriesStep(s, es[0]);
      EntriesRun(Step(s, es[0]), es[1..]);
    }
  }
}
