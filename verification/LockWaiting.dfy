/**
 Who waits for whom in the lock tree (locking/locknode.go), for callers that hold one lock at a time
 and for goroutines that make calls under locks they hold already (paymgr/paymentmgr_impl.go). The
 lock type itself is not part of this model: both results are given for a lock that is granted
 whenever it is free, and for one whose readers queue behind a waiting writer.
 */
module LockWaiting {
  import opened Wrappers
  import opened LockTree
  import opened LockSystem

  /** g has a lock that keeps h waiting. */
  predicate WaitsFor(s: System, h: HandleId, g: HandleId) {
    && h in s.handles && g in s.handles && Waiting(s.handles[h])
    && (if WantsWrite(s.handles[h]) then s.handles[h].at in s.handles[g].held
        else Writes(s.handles[g], s.handles[h].at))
  }

  /** A caller waits strictly deeper than anything it holds, and for somebody at least as deep. */
  lemma WaitsDeeper(s: System, h: HandleId, g: HandleId)
    requires Inv(s) && WaitsFor(s, h, g)
    ensures s.handles[h].at !in s.handles[h].held
    ensures |s.handles[h].held| < |s.handles[g].held|
  {
    var a, b := s.handles[h], s.handles[g];
    NodeName(s, a.path[..|a.held|]);
    forall i | 0 <= i < |a.held|
      ensures a.held[i] != a.at
    {
      NodeName(s, a.path[..i]);
    }
    var j :| 0 <= j < |b.held| && b.held[j] == a.at;
    NodeName(s, b.path[..j]);
  }

  lemma NodeName(s: System, path: Path)
    requires Inv(s) && Node(s.tree, path).Some?
    ensures Node(s.tree, path).value.path == path
  {
    WalkNames(s.tree, s.next, ROOT, path);
    assert [] + path == path;
  }

  /** h wants to read a node that g is waiting to write: it queues behind g, if readers do. */
  predicate QueuesBehind(s: System, h: HandleId, g: HandleId) {
    && h in s.handles && g in s.handles && Waiting(s.handles[h]) && Waiting(s.handles[g])
    && !WantsWrite(s.handles[h]) && WantsWrite(s.handles[g]) && s.handles[h].at == s.handles[g].at
  }

  predicate Blocks(s: System, h: HandleId, g: HandleId, queueing: bool) {
    WaitsFor(s, h, g) || (queueing && QueuesBehind(s, h, g))
  }

  /** The depth at which a call waits, or of the deepest lock it has. */
  function Depth(h: Handle): int {
    if Waiting(h) then |h.held| else |h.held| - 1
  }

  /** Waiting to read comes before waiting to write, and that before holding. */
  function Stage(h: Handle): nat {
    if !Waiting(h) then 2 else if WantsWrite(h) then 1 else 0
  }

  /** a ranks below b: by depth, then by stage, then by the length of the path. */
  predicate Lower(a: Handle, b: Handle) {
    || Depth(a) < Depth(b)
    || (Depth(a) == Depth(b) && Stage(a) < Stage(b))
    || (Depth(a) == Depth(b) && Stage(a) == Stage(b) && |a.path| < |b.path|)
  }

  /** Whoever blocks a caller ranks above it. */
  lemma BlockRaises(s: System, h: HandleId, g: HandleId, queueing: bool)
    requires Inv(s) && Blocks(s, h, g, queueing)
    ensures Lower(s.handles[h], s.handles[g])
  {
    if WaitsFor(s, h, g) {
      WaitsDeeper(s, h, g);
    } else {
      NodeName(s, s.handles[h].path[..|s.handles[h].held|]);
      NodeName(s, s.handles[g].path[..|s.handles[g].held|]);
    }
  }

  /** hs[0] is blocked by hs[1], which is blocked by hs[2], and so on. */
  predicate WaitChain(s: System, hs: seq<HandleId>, queueing: bool) {
    |hs| <= 1 || (Blocks(s, hs[0], hs[1], queueing) && WaitChain(s, hs[1..], queueing))
  }

  lemma {:induction false} ChainRaises(s: System, hs: seq<HandleId>, queueing: bool)
    requires Inv(s) && |hs| > 1 && WaitChain(s, hs, queueing)
    ensures hs[0] in s.handles && hs[|hs| - 1] in s.handles
    ensures Lower(s.handles[hs[0]], s.handles[hs[|hs| - 1]])
    decreases |hs|
  {
    BlockRaises(s, hs[0], hs[1], queueing);
    if |hs| > 2 {
      ChainRaises(s, hs[1..], queueing);
    }
  }

  /** Over all interleavings no callers that hold one lock each wait for each other in a circle, whether
      or not readers queue behind waiting writers. */
  lemma NoCircularWait(s: System, es: seq<Event>, hs: seq<HandleId>, queueing: bool)
    requires Init(s) && Disciplined(es) && |hs| > 1 && hs[0] == hs[|hs| - 1]
    ensures !WaitChain(Run(s, es), hs, queueing)
  {
    InitInv(s);
    RunInv(s, es);
    if WaitChain(Run(s, es), hs, queueing) {
      ChainRaises(Run(s, es), hs, queueing);
    }
  }

  // ---------------------------------------------------------------- nested calls

  /** h has been called and has not returned. */
  predicate InCall(h: Handle) {
    h.phase != Held && h.phase != Dropping
  }

  /** g is a read lock on a path in the tree, and h asks for a longer path. */
  predicate Outer(g: Handle, h: Handle) {
    g.phase == Held && g.mode == Read && |g.held| == |g.path| + 1 && g.path < h.path
  }

  /** The node that a path leads to next below an outer path. */
  predicate NextPresent(t: Tree, outer: Path, path: Path)
    requires outer < path
  {
    Node(t, path[..|outer| + 1]).Some?
  }

  /** The handle that a call is made under: the last lock that the calling goroutine, or the one that
      has started it and waits for it, has taken and not given back; None without one. Any number of
      calls can be made under one handle, also at the same time. */
  type Under = HandleId -> Option<HandleId>

  /** What goroutines take care of: a call under another handle extends the path of that handle, which
      is a read lock, and asks for a write lock only when the next node on the path is known to be in
      the tree (as Reserve, Pay and Receive do under the read lock of the peer); and a lock is not
      released while a call made under it has not returned. */
  predicate WellCalled(s: System, e: Event, under: Under) {
    match e
    case Begin(h, path, mode) =>
      under(h).Some? ==>
        var g := under(h).value;
        && g in s.handles && Outer(s.handles[g], Handle(path, mode, Want, ROOT, [], false))
        && (mode == Write ==> NextPresent(s.tree, s.handles[g].path, path))
    case Release(g) => forall h | h in s.handles && under(h) == Some(g) :: !InCall(s.handles[h])
    case _ => true
  }

  predicate WellCalledRun(s: System, es: seq<Event>, under: Under)
    decreases |es|
  {
    es == [] || ((Enabled(s, es[0]) ==> WellCalled(s, es[0], under)) && WellCalledRun(Step(s, es[0]), es[1..], under))
  }

  /** An inner call lies below the outer lock, and does not fall back on a node locked outside. */
  predicate NestedIn(t: Tree, g: Handle, h: Handle) {
    && Outer(g, h)
    && (h.mode == Write ==> NextPresent(t, g.path, h.path))
    && (h.phase == Upgrade || h.phase == Recheck ==> h.mode == Write)
    && (h.phase == Upgrade ==> |h.held| > |g.path|)
  }

  ghost predicate Nested(s: System, under: Under) {
    forall h | h in s.handles && under(h).Some? && InCall(s.handles[h]) ::
      && under(h).value in s.handles && under(h).value != h
      && NestedIn(s.tree, s.handles[under(h).value], s.handles[h])
  }

  /** While g keeps its read lock on p, the node at p + [key] stays. */
  lemma NextStays(s: System, e: Event, g: HandleId, path: Path)
    requires Inv(s) && Enabled(s, e) && !e.RemoveOwn? && g in s.handles
    requires s.handles[g].phase == Held && s.handles[g].mode == Read && s.handles[g].path < path
    requires NextPresent(s.tree, s.handles[g].path, path)
    ensures NextPresent(Next(s, e).tree, s.handles[g].path, path)
  {
    var p := s.handles[g].path;
    var q := path[..|p| + 1];
    match e {
      case Insert(i) => NodeInsert(s.tree, s.next, s.handles[i].path, q);
      case Remove(i, key) =>
        NodePrune(s.tree, s.next, s.handles[i].path, key, q);
        ExtensionExcluded(s, i, g);
        PrefixTake(s.handles[i].path + [key], q, |s.handles[i].path|);
        assert q[..|p|] == p;
      case _ =>
    }
  }

  /** An inner call that looks for its next node finds it as long as it is on the outer path, or one
      below it. */
  lemma LookedNested(s: System, g: HandleId, h: HandleId)
    requires Inv(s) && g in s.handles && h in s.handles && g != h
    requires NestedIn(s.tree, s.handles[g], s.handles[h])
    requires s.handles[h].phase == Look || s.handles[h].phase == Recheck
    ensures InCall(Looked(s.tree, s.handles[h])) ==> NestedIn(s.tree, s.handles[g], Looked(s.tree, s.handles[h]))
  {
    var a, b := s.handles[g], s.handles[h];
    var i := |b.held| - 1;
    NodeChild(s.tree, s.next, b.path[..i], b.path[i]);
    assert b.path[..i] + [b.path[i]] == b.path[..i + 1];
    PrefixTake(a.path, b.path, i + 1);
    if i < |a.path| {
      assert Node(s.tree, a.path[..i + 1]) == Some(a.held[i + 1]);
    }
  }

  lemma NestedKept(s: System, e: Event, g: HandleId, h: HandleId)
    requires Inv(s) && Enabled(s, e) && !e.RemoveOwn? && g in s.handles && h in s.handles
    requires NestedIn(s.tree, s.handles[g], s.handles[h])
    ensures NestedIn(Next(s, e).tree, s.handles[g], s.handles[h])
  {
    if s.handles[h].mode == Write {
      NextStays(s, e, g, s.handles[h].path);
    }
  }

  lemma NestedCall(s: System, e: Event, under: Under, h: HandleId)
    requires Inv(s) && Nested(s, under) && Enabled(s, e) && !e.RemoveOwn? && WellCalled(s, e, under)
    requires h in Next(s, e).handles && under(h).Some? && InCall(Next(s, e).handles[h])
    ensures var g := under(h).value;
            g in Next(s, e).handles && g != h && NestedIn(Next(s, e).tree, Next(s, e).handles[g], Next(s, e).handles[h])
  {
    var g := under(h).value;
    match e {
      case LookUp(i) =>
        if h == i {
          LookedNested(s, g, h);
        }
      case Insert(_) => NestedKept(s, e, g, h);
      case Remove(_, _) => NestedKept(s, e, g, h);
      case _ =>
    }
  }

  /** Every event keeps inner calls below the locks they are made under. */
  lemma NestedStep(s: System, e: Event, under: Under)
    requires Inv(s) && Nested(s, under) && !e.RemoveOwn? && (Enabled(s, e) ==> WellCalled(s, e, under))
    ensures Nested(Step(s, e), under)
  {
    if Enabled(s, e) {
      var t := Next(s, e);
      forall h | h in t.handles && under(h).Some? && InCall(t.handles[h])
        ensures under(h).value in t.handles && under(h).value != h
        ensures NestedIn(t.tree, t.handles[under(h).value], t.handles[h])
      {
        NestedCall(s, e, under, h);
      }
    }
  }

  lemma {:induction false} NestedRun(s: System, es: seq<Event>, under: Under)
    requires Inv(s) && Nested(s, under) && Disciplined(es) && WellCalledRun(s, es, under)
    ensures Inv(Run(s, es)) && Nested(Run(s, es), under)
    decreases |es|
  {
    if es != [] {
      assert es[0] in es && forall e | e in es[1..] :: e in es;
      StepInv(s, es[0]);
      NestedStep(s, es[0], under);
      NestedRun(Step(s, es[0]), es[1..], under);
    }
  }

  lemma LockedOutside(s: System, g: HandleId, h: HandleId)
    requires Inv(s) && g in s.handles && h in s.handles && Outer(s.handles[g], s.handles[h]) && Waiting(s.handles[h])
    ensures |s.handles[h].held| <= |s.handles[g].path| ==> s.handles[h].at in s.handles[g].held
  {
    var a, b := s.handles[g], s.handles[h];
    if |b.held| <= |a.path| {
      PrefixTake(a.path, b.path, |b.held|);
      assert Node(s.tree, a.path[..|b.held|]) == Some(a.held[|b.held|]);
    }
  }

  /** An inner call that has to wait does so below everything its goroutine holds. */
  lemma WaitsBelowOuter(s: System, g: HandleId, h: HandleId, x: HandleId)
    requires Inv(s) && g in s.handles && h in s.handles && g != h
    requires NestedIn(s.tree, s.handles[g], s.handles[h]) && WaitsFor(s, h, x)
    ensures |s.handles[h].held| > |s.handles[g].path|
  {
    LockedOutside(s, g, h);
  }

  /** g is not given back before h, which was called under it, is: its goroutine is in that call, or
      waits for the goroutine that made it, or goes on to use what it got. */
  predicate Calls(s: System, under: Under, g: HandleId, h: HandleId) {
    g in s.handles && h in s.handles && under(h) == Some(g) && Outer(s.handles[g], s.handles[h])
  }

  predicate Edge(s: System, under: Under, a: HandleId, b: HandleId, queueing: bool) {
    Blocks(s, a, b, queueing) || Calls(s, under, a, b)
  }

  /** h waits for a node that the lock it was called under holds already. */
  predicate Reentrant(s: System, under: Under, h: HandleId) {
    && h in s.handles && Waiting(s.handles[h]) && under(h).Some? && under(h).value in s.handles
    && Outer(s.handles[under(h).value], s.handles[h]) && |s.handles[h].held| <= |s.handles[under(h).value].path|
  }

  lemma HeldAt(t: Tree, h: Handle, i: int)
    requires Placed(t, h)
    ensures 0 <= i < |h.held| ==> Node(t, h.path[..i]) == Some(h.held[i]) && h.held[i] in h.held
  {
  }

  /** A call that has returned with its locks holds every node that the lock outside holds, or deeper. */
  lemma HeldBelowOuter(s: System, g: HandleId, h: HandleId)
    requires Inv(s) && g in s.handles && h in s.handles && g != h
    requires Outer(s.handles[g], s.handles[h]) && s.handles[h].phase == Held
    ensures |s.handles[h].held| > |s.handles[g].path|
  {
    var a, b := s.handles[g], s.handles[h];
    var d := |b.held|;
    PrefixTake(a.path, b.path, d);
    PrefixTake(a.path, b.path, d - 1);
    HeldAt(s.tree, a, d);
    HeldAt(s.tree, a, d - 1);
  }

  lemma EdgeRaises(s: System, under: Under, a: HandleId, b: HandleId, queueing: bool)
    requires Inv(s) && Edge(s, under, a, b, queueing) && !Reentrant(s, under, b)
    requires a in s.handles && b in s.handles && (Waiting(s.handles[b]) || s.handles[b].phase == Held)
    ensures Lower(s.handles[a], s.handles[b])
  {
    if Blocks(s, a, b, queueing) {
      BlockRaises(s, a, b, queueing);
    } else if s.handles[b].phase == Held {
      HeldBelowOuter(s, a, b);
    }
  }

  predicate EdgeChain(s: System, under: Under, hs: seq<HandleId>, queueing: bool) {
    |hs| <= 1 || (Edge(s, under, hs[0], hs[1], queueing) && EdgeChain(s, under, hs[1..], queueing))
  }

  /** The last of a chain can itself not go on. */
  predicate Stuck(s: System, h: HandleId) {
    h in s.handles && (Waiting(s.handles[h]) || s.handles[h].phase == Held)
  }

  lemma {:induction false} EdgeChainRaises(s: System, under: Under, hs: seq<HandleId>, queueing: bool)
    requires Inv(s) && |hs| > 1 && EdgeChain(s, under, hs, queueing) && Stuck(s, hs[|hs| - 1])
    requires forall i | 0 < i < |hs| :: !Reentrant(s, under, hs[i])
    ensures Stuck(s, hs[0]) && Lower(s.handles[hs[0]], s.handles[hs[|hs| - 1]])
    decreases |hs|
  {
    if |hs| > 2 {
      var tail := hs[1..];
      assert forall i | 0 < i < |tail| :: tail[i] == hs[i + 1];
      EdgeChainRaises(s, under, tail, queueing);
    }
    EdgeRaises(s, under, hs[0], hs[1], queueing);
  }

  /** Such a call is not kept waiting by a lock that somebody has, only by the queue. */
  lemma ReentrantOnlyQueues(s: System, under: Under, h: HandleId, x: HandleId)
    requires Inv(s) && Nested(s, under) && Reentrant(s, under, h)
    ensures !WaitsFor(s, h, x)
  {
    var g := under(h).value;
    assert NestedIn(s.tree, s.handles[g], s.handles[h]);
    if WaitsFor(s, h, x) {
      WaitsBelowOuter(s, g, h, x);
    }
  }

  lemma {:induction false} EdgeAt(s: System, under: Under, hs: seq<HandleId>, queueing: bool, i: nat)
    requires EdgeChain(s, under, hs, queueing) && i + 1 < |hs|
    ensures Edge(s, under, hs[i], hs[i + 1], queueing) && Stuck(s, hs[i])
    decreases i
  {
    if i > 0 {
      EdgeAt(s, under, hs[1..], queueing, i - 1);
    }
  }

  /** A circle: every member is kept from going on by the next, and the last is the first. */
  predicate Circle(s: System, under: Under, hs: seq<HandleId>, queueing: bool) {
    |hs| > 1 && hs[0] == hs[|hs| - 1] && EdgeChain(s, under, hs, queueing)
  }

  lemma CircleHasReentrant(s: System, under: Under, hs: seq<HandleId>, queueing: bool) returns (i: nat)
    requires Inv(s) && Nested(s, under) && Circle(s, under, hs, queueing)
    ensures i + 1 < |hs| && Reentrant(s, under, hs[i]) && queueing && QueuesBehind(s, hs[i], hs[i + 1])
  {
    EdgeAt(s, under, hs, queueing, 0);
    if forall k | 0 < k < |hs| :: !Reentrant(s, under, hs[k]) {
      EdgeChainRaises(s, under, hs, queueing);
    }
    var k :| 0 < k < |hs| && Reentrant(s, under, hs[k]);
    i := if k == |hs| - 1 then 0 else k;
    EdgeAt(s, under, hs, queueing, i);
    ReentrantOnlyQueues(s, under, hs[i], hs[i + 1]);
  }

  /** With a lock that is granted whenever it is free: over all interleavings in which goroutines nest
      their calls in this way, also several at once under one lock, there is no circle. */
  lemma NoNestedCircularWait(s: System, es: seq<Event>, under: Under, hs: seq<HandleId>)
    requires Init(s) && Disciplined(es) && WellCalledRun(s, es, under)
    ensures !Circle(Run(s, es), under, hs, false)
  {
    InitInv(s);
    NestedRun(s, es, under);
    if Circle(Run(s, es), under, hs, false) {
      var i := CircleHasReentrant(Run(s, es), under, hs, false);
    }
  }

  lemma CircleOfThree(s: System, under: Under, a: HandleId, b: HandleId, c: HandleId, queueing: bool)
    requires Edge(s, under, a, b, queueing) && Edge(s, under, b, c, queueing) && Edge(s, under, c, a, queueing)
    ensures Circle(s, under, [a, b, c, a], queueing)
  {
    assert [a, b, c, a][1..] == [b, c, a] && [b, c, a][1..] == [c, a] && [c, a][1..] == [a];
    assert EdgeChain(s, under, [a], queueing);
    assert EdgeChain(s, under, [c, a], queueing);
    assert EdgeChain(s, under, [b, c, a], queueing);
  }

  lemma ReentrantMakesCircle(s: System, under: Under, h: HandleId, x: HandleId)
    requires Inv(s) && Nested(s, under) && Reentrant(s, under, h) && QueuesBehind(s, h, x)
    ensures Circle(s, under, [h, x, under(h).value, h], true)
  {
    var g := under(h).value;
    LockedOutside(s, g, h);
    assert WaitsFor(s, x, g);
    CircleOfThree(s, under, h, x, g, true);
  }

  /** With a lock whose readers queue behind a waiting writer there is a circle exactly while an inner
      call queues behind a writer for a node that the lock it was called under holds already. It lasts
      until the context of one of them ends. */
  lemma QueueingCircleIff(s: System, es: seq<Event>, under: Under)
    requires Init(s) && Disciplined(es) && WellCalledRun(s, es, under)
    ensures var t := Run(s, es);
            (exists hs :: Circle(t, under, hs, true)) <==>
              exists h, x :: Reentrant(t, under, h) && QueuesBehind(t, h, x)
  {
    InitInv(s);
    NestedRun(s, es, under);
    var t := Run(s, es);
    if hs :| Circle(t, under, hs, true) {
      var i := CircleHasReentrant(t, under, hs, true);
    }
    if h, x :| Reentrant(t, under, h) && QueuesBehind(t, h, x) {
      ReentrantMakesCircle(t, under, h, x);
    }
  }

  /** It does come about: 0 reads the root, 1 waits to write it, and 2, called under 0, goes down from
      the root to "k". */
  lemma QueueingCircleHappens(s: System)
    requires Init(s)
    ensures var under := (h: HandleId) => if h == 2 then Some(0) else None;
            var es := [Begin(0, [], Read), Acquire(0), Begin(1, [], Write), Begin(2, ["k"], Read)];
            Disciplined(es) && WellCalledRun(s, es, under) && Circle(Run(s, es), under, [2, 1, 0, 2], true)
  {
    var under := (h: HandleId) => if h == 2 then Some(0) else None;
    var a, b, c, d := Begin(0, [], Read), Acquire(0), Begin(1, [], Write), Begin(2, ["k"], Read);
    var s1 := Step(s, a);
    var s2 := Step(s1, b);
    var s3 := Step(s2, c);
    var s4 := Step(s3, d);
    assert s2.handles[0] == Handle([], Read, Held, ROOT, [ROOT], false);
    assert s4.handles[1] == Handle([], Write, Want, ROOT, [], false);
    assert s4.handles[2] == Handle(["k"], Read, Want, ROOT, [], false);
    assert [a, b, c, d][1..] == [b, c, d] && [b, c, d][1..] == [c, d] && [c, d][1..] == [d] && [d][1..] == [];
    assert WellCalledRun(s4, [], under) && WellCalledRun(s3, [d], under) && WellCalledRun(s2, [c, d], under);
    assert Run(s4, []) == s4 && Run(s3, [d]) == s4 && Run(s2, [c, d]) == s4;
    assert QueuesBehind(s4, 2, 1) && WaitsFor(s4, 1, 0) && Calls(s4, under, 0, 2);
    CircleOfThree(s4, under, 2, 1, 0, true);
  }

  /** What the nesting has to avoid: an inner Lock that falls back on a node its own goroutine has
      read-locked outside waits for itself, whatever else happens. */
  lemma FallingBackOnOuterWaitsForItself(s: System, g: HandleId, h: HandleId)
    requires Inv(s) && g in s.handles && h in s.handles
    requires Outer(s.handles[g], s.handles[h]) && s.handles[h].phase == Upgrade
    requires |s.handles[h].held| <= |s.handles[g].path|
    ensures WaitsFor(s, h, g) && !Enabled(s, Acquire(h))
  {
    LockedOutside(s, g, h);
  }
}
