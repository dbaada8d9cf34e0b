/**
 When calls of RLock and Lock return (locking/locknode.go): what a call finds at every node of its path,
 and that it comes through exactly if nobody else is in its way.
 */
module LockProgress {
  import opened Wrappers
  import opened LockTree
  import opened LockSystem
  import opened LockWaiting

  /** What a call makes of the node it has reached. With a child to go to, it goes there, unless it comes
      back for it after an upgrade: then it gives up. Without one, a reader is done where it is, a
      writer gives that lock back to ask for the write lock, and one that has that lock is done. */
  lemma LookedIff(t: Tree, next: nat, h: Handle)
    requires WellFormed(t, next) && Placed(t, h) && (h.phase == Look || h.phase == Recheck)
    ensures var child, l := Node(t, h.path[..|h.held|]), Looked(t, h);
            && l.path == h.path && l.mode == h.mode && l.writing == h.writing
            && (l.phase == Held <==> child.None? && (h.phase == Recheck || h.mode == Read))
            && (l.phase == Dropping <==> child.Some? && h.phase == Recheck)
            && (l.phase == Want <==> child.Some? && h.phase == Look)
            && (l.phase == Want ==> l.at == child.value)
            && (l.phase == Upgrade <==> child.None? && h.phase == Look && h.mode == Write)
            && (l.phase == Upgrade ==> l.at == h.at && l.held + [h.at] == h.held)
            && (l.phase != Upgrade ==> l.held == h.held)
  {
    var i := |h.held| - 1;
    NodeChild(t, next, h.path[..i], h.path[i]);
    assert h.path[..i] + [h.path[i]] == h.path[..i + 1];
  }

  /** A call waits exactly as long as somebody has a lock that keeps it waiting; readers share. */
  lemma WaitsIffBlocked(s: System, h: HandleId)
    requires Inv(s) && h in s.handles && Waiting(s.handles[h])
    ensures !Enabled(s, Acquire(h)) <==> exists g :: WaitsFor(s, h, g)
    ensures (forall g | g in s.handles :: !s.handles[g].writing) && !WantsWrite(s.handles[h]) ==> Enabled(s, Acquire(h))
  {
    if !Enabled(s, Acquire(h)) {
      if WantsWrite(s.handles[h]) {
        var g :| g in s.handles && s.handles[h].at in s.handles[g].held;
        assert WaitsFor(s, h, g);
      } else {
        var g :| g in s.handles && Writes(s.handles[g], s.handles[h].at);
        assert WaitsFor(s, h, g);
      }
    }
  }

  // ---------------------------------------------------------------- who is in the way

  /** g has a lock on the node at the first k keys of path. */
  predicate HoldsLevel(g: Handle, path: Path, k: nat) {
    k < |g.held| && k <= |path| && path[..k] <= g.path
  }

  /** That lock is a write lock. */
  predicate WritesLevel(g: Handle, path: Path, k: nat) {
    g.writing && |g.held| == k + 1 && HoldsLevel(g, path, k)
  }

  /** Somewhere between levels k and d, g has a write lock on the path; or g has any lock on its node at
      level d, which the call asks for with mode Write. */
  predicate InTheWay(g: Handle, path: Path, mode: Mode, d: nat, k: nat) {
    || (g.writing && k < |g.held| <= d + 1 && HoldsLevel(g, path, |g.held| - 1))
    || (mode == Write && HoldsLevel(g, path, d))
  }

  /** Locks are where their paths say. */
  lemma LevelNode(s: System, g: HandleId, path: Path, k: nat)
    requires Inv(s) && g in s.handles && k <= |path| && Node(s.tree, path[..k]).Some?
    ensures var n := Node(s.tree, path[..k]).value;
            && (n in s.handles[g].held <==> HoldsLevel(s.handles[g], path, k))
            && (Writes(s.handles[g], n) <==> WritesLevel(s.handles[g], path, k))
  {
    var n, h := Node(s.tree, path[..k]).value, s.handles[g];
    NodeName(s, path[..k]);
    forall j | 0 <= j < |h.held|
      ensures h.held[j] == n <==> j == k && h.path[..j] == path[..k]
    {
      NodeName(s, h.path[..j]);
    }
    if HoldsLevel(h, path, k) {
      assert h.path[..k] == path[..k];
      assert h.held[k] == n;
    }
  }

  // ---------------------------------------------------------------- one call on its own

  /** What a call does from level k on, if the deepest node on its path is at level d. */
  function Moves(i: HandleId, path: Path, mode: Mode, d: nat, k: nat): seq<Event>
    decreases d - k
  {
    if k < d then [Acquire(i), LookUp(i)] + Moves(i, path, mode, d, k + 1)
    else if d == |path| then [Acquire(i)]
    else if mode == Read then [Acquire(i), LookUp(i)]
    else [Acquire(i), LookUp(i), Acquire(i), LookUp(i)]
  }

  predicate OwnMoves(es: seq<Event>, i: HandleId) {
    forall e | e in es :: e == Acquire(i) || e == LookUp(i)
  }

  lemma {:induction false} MovesAreOwn(i: HandleId, path: Path, mode: Mode, d: nat, k: nat)
    ensures OwnMoves(Moves(i, path, mode, d, k), i)
    decreases d - k
  {
    if k < d {
      MovesAreOwn(i, path, mode, d, k + 1);
    }
  }

  /** A call that waits in vain stays where it is. */
  lemma {:induction false} Stuck(s: System, i: HandleId, es: seq<Event>)
    requires i in s.handles && Waiting(s.handles[i]) && !Enabled(s, Acquire(i)) && OwnMoves(es, i)
    ensures Run(s, es) == s
    decreases |es|
  {
    if es != [] {
      assert es[0] in es && forall e | e in es[1..] :: e in es;
      Stuck(s, i, es[1..]);
    }
  }

  /** The call i is about to lock the node at level k of its path. */
  ghost predicate Arrived(s: System, i: HandleId, path: Path, mode: Mode, k: nat) {
    && Inv(s) && i in s.handles && k <= |path|
    && var h := s.handles[i];
       h.path == path && h.mode == mode && h.phase == Want && |h.held| == k
  }

  /** The lock that i waits for is granted exactly if nobody else is in the way there. */
  lemma GrantedIff(s: System, i: HandleId)
    requires Inv(s) && i in s.handles && Waiting(s.handles[i])
    ensures var h := s.handles[i];
            Enabled(s, Acquire(i)) <==>
              (forall g | g in s.handles && g != i ::
                 if WantsWrite(h) then !HoldsLevel(s.handles[g], h.path, |h.held|)
                 else !WritesLevel(s.handles[g], h.path, |h.held|))
  {
    var h := s.handles[i];
    forall g | g in s.handles
      ensures h.at in s.handles[g].held <==> HoldsLevel(s.handles[g], h.path, |h.held|)
      ensures Writes(s.handles[g], h.at) <==> WritesLevel(s.handles[g], h.path, |h.held|)
    {
      LevelNode(s, g, h.path, |h.held|);
    }
  }

  /** Nobody but i is in the way of i from level k on. */
  predicate WayFree(s: System, i: HandleId, path: Path, mode: Mode, d: nat, k: nat) {
    forall g | g in s.handles && g != i :: !InTheWay(s.handles[g], path, mode, d, k)
  }

  /** The call has returned, with locks on the nodes down to level d, the last one a write lock for Lock. */
  predicate Returned(s: System, i: HandleId, path: Path, mode: Mode, d: nat) {
    && i in s.handles
    && var h := s.handles[i];
       && h.path == path && h.mode == mode && h.phase == Held && |h.held| == d + 1
       && (h.writing <==> mode == Write)
  }

  /** From s to t nothing but the call i has moved. */
  predicate OnlyMoved(s: System, t: System, i: HandleId) {
    && i in s.handles && i in t.handles
    && t == s.(handles := s.handles[i := t.handles[i]])
  }

  /** It returns exactly if the way is free; otherwise it is still waiting. */
  ghost predicate ReturnsIff(s: System, t: System, i: HandleId, path: Path, mode: Mode, d: nat, k: nat) {
    && OnlyMoved(s, t, i)
    && (if WayFree(s, i, path, mode, d, k) then Returned(t, i, path, mode, d) else Waiting(t.handles[i]))
  }

  /** One level down. */
  lemma OneDown(s: System, i: HandleId, path: Path, mode: Mode, d: nat, k: nat)
    requires Arrived(s, i, path, mode, k) && LocksAt(s.tree, path, d) && k < d && Enabled(s, Acquire(i))
    ensures var t := Step(Step(s, Acquire(i)), LookUp(i)); OnlyMoved(s, t, i) && Arrived(t, i, path, mode, k + 1)
  {
    StepInv(s, Acquire(i));
    var s1 := Step(s, Acquire(i));
    StepInv(s1, LookUp(i));
    LookedIff(s1.tree, s1.next, s1.handles[i]);
    PresentDownTo(s.tree, path, d, k + 1);
  }

  lemma RunTwo(s: System, a: Event, b: Event, es: seq<Event>)
    ensures Run(s, [a, b] + es) == Run(Step(Step(s, a), b), es)
  {
    assert ([a, b] + es)[1..] == [b] + es && ([b] + es)[1..] == es;
    assert Run(s, [a, b] + es) == Run(Step(s, a), [b] + es);
  }

  /** With level k granted, the way is free from there on exactly if it is free below. */
  lemma Deeper(s: System, t: System, u: System, i: HandleId, path: Path, mode: Mode, d: nat, k: nat)
    requires OnlyMoved(s, t, i) && k < d <= |path| && ReturnsIff(t, u, i, path, mode, d, k + 1)
    requires forall g | g in s.handles && g != i :: !WritesLevel(s.handles[g], path, k)
    ensures ReturnsIff(s, u, i, path, mode, d, k)
  {
    forall g | g in s.handles && g != i
      ensures t.handles[g] == s.handles[g]
      ensures InTheWay(s.handles[g], path, mode, d, k) <==> InTheWay(s.handles[g], path, mode, d, k + 1)
    {
    }
  }

  /** A path in the tree is locked at its own node. */
  lemma Leaf(s: System, i: HandleId, path: Path, mode: Mode)
    requires Arrived(s, i, path, mode, |path|) && Enabled(s, Acquire(i))
    ensures ReturnsIff(s, Run(s, [Acquire(i)]), i, path, mode, |path|, |path|)
  {
    GrantedIff(s, i);
    assert Run(s, [Acquire(i)]) == Step(s, Acquire(i));
  }

  /** RLock of a path that is not in the tree ends at the last node that is. */
  lemma ReadsAbove(s: System, i: HandleId, path: Path, d: nat)
    requires Arrived(s, i, path, Read, d) && LocksAt(s.tree, path, d) && d < |path| && Enabled(s, Acquire(i))
    ensures ReturnsIff(s, Run(s, [Acquire(i), LookUp(i)]), i, path, Read, d, d)
  {
    var s1 := Step(s, Acquire(i));
    StepInv(s, Acquire(i));
    LookedIff(s1.tree, s1.next, s1.handles[i]);
    GrantedIff(s, i);
    RunTwo(s, Acquire(i), LookUp(i), []);
    assert [Acquire(i), LookUp(i)] + [] == [Acquire(i), LookUp(i)];
  }

  /** The call i has found no child at level d, and is about to ask for the write lock there. */
  ghost predicate Upgrading(s: System, i: HandleId, path: Path, d: nat) {
    && Inv(s) && i in s.handles && d < |path|
    && var h := s.handles[i];
       h.path == path && h.mode == Write && h.phase == Upgrade && |h.held| == d
  }

  lemma FindsNoChild(s: System, i: HandleId, path: Path, d: nat)
    requires Arrived(s, i, path, Write, d) && LocksAt(s.tree, path, d) && d < |path| && Enabled(s, Acquire(i))
    ensures var t := Step(Step(s, Acquire(i)), LookUp(i)); OnlyMoved(s, t, i) && Upgrading(t, i, path, d)
  {
    var s1 := Step(s, Acquire(i));
    StepInv(s, Acquire(i));
    StepInv(s1, LookUp(i));
    LookedIff(s1.tree, s1.next, s1.handles[i]);
  }

  lemma Upgrades(s: System, i: HandleId, path: Path, d: nat)
    requires Upgrading(s, i, path, d) && LocksAt(s.tree, path, d) && Enabled(s, Acquire(i))
    ensures var t := Step(Step(s, Acquire(i)), LookUp(i)); OnlyMoved(s, t, i) && Returned(t, i, path, Write, d)
  {
    var s1 := Step(s, Acquire(i));
    StepInv(s, Acquire(i));
    LookedIff(s1.tree, s1.next, s1.handles[i]);
  }

  /** The second half of Lock there: it comes through if it gets the write lock. */
  lemma UpgradesIff(s: System, i: HandleId, path: Path, d: nat)
    requires Upgrading(s, i, path, d) && LocksAt(s.tree, path, d)
    ensures ReturnsIff(s, Run(s, [Acquire(i), LookUp(i)]), i, path, Write, d, d)
  {
    GrantedIff(s, i);
    RunTwo(s, Acquire(i), LookUp(i), []);
    assert [Acquire(i), LookUp(i)] + [] == [Acquire(i), LookUp(i)];
    if Enabled(s, Acquire(i)) {
      Upgrades(s, i, path, d);
    } else {
      Stuck(s, i, [Acquire(i), LookUp(i)]);
    }
  }

  lemma MovedOn(s: System, t: System, u: System, i: HandleId, path: Path, mode: Mode, d: nat)
    requires OnlyMoved(s, t, i) && ReturnsIff(t, u, i, path, mode, d, d)
    ensures ReturnsIff(s, u, i, path, mode, d, d)
  {
    assert forall g | g in s.handles && g != i :: t.handles[g] == s.handles[g];
  }

  /** Lock of a path that is not in the tree ends at the last node that is, after switching there from the
      read lock to the write lock. */
  lemma WritesAbove(s: System, i: HandleId, path: Path, d: nat)
    requires Arrived(s, i, path, Write, d) && LocksAt(s.tree, path, d) && d < |path| && Enabled(s, Acquire(i))
    ensures ReturnsIff(s, Run(s, [Acquire(i), LookUp(i), Acquire(i), LookUp(i)]), i, path, Write, d, d)
  {
    var t := Step(Step(s, Acquire(i)), LookUp(i));
    var rest := [Acquire(i), LookUp(i)];
    FindsNoChild(s, i, path, d);
    UpgradesIff(t, i, path, d);
    RunTwo(s, Acquire(i), LookUp(i), rest);
    assert [Acquire(i), LookUp(i)] + rest == [Acquire(i), LookUp(i), Acquire(i), LookUp(i)];
    MovedOn(s, t, Run(t, rest), i, path, Write, d);
  }

  /** A call whose next lock is not granted stays there, with the way not free. */
  lemma StaysWaiting(s: System, i: HandleId, path: Path, mode: Mode, d: nat, k: nat)
    requires Arrived(s, i, path, mode, k) && LocksAt(s.tree, path, d) && k <= d && !Enabled(s, Acquire(i))
    ensures ReturnsIff(s, Run(s, Moves(i, path, mode, d, k)), i, path, mode, d, k)
  {
    MovesAreOwn(i, path, mode, d, k);
    Stuck(s, i, Moves(i, path, mode, d, k));
    GrantedIff(s, i);
  }

  lemma {:induction false} Descends(s: System, i: HandleId, path: Path, mode: Mode, d: nat, k: nat)
    requires Arrived(s, i, path, mode, k) && LocksAt(s.tree, path, d) && k <= d
    ensures ReturnsIff(s, Run(s, Moves(i, path, mode, d, k)), i, path, mode, d, k)
    decreases d - k
  {
    if !Enabled(s, Acquire(i)) {
      StaysWaiting(s, i, path, mode, d, k);
    } else if k < d {
      var t := Step(Step(s, Acquire(i)), LookUp(i));
      GrantedIff(s, i);
      OneDown(s, i, path, mode, d, k);
      RunTwo(s, Acquire(i), LookUp(i), Moves(i, path, mode, d, k + 1));
      Descends(t, i, path, mode, d, k + 1);
      Deeper(s, t, Run(t, Moves(i, path, mode, d, k + 1)), i, path, mode, d, k);
    } else if d == |path| {
      Leaf(s, i, path, mode);
    } else if mode == Read {
      ReadsAbove(s, i, path, d);
    } else {
      WritesAbove(s, i, path, d);
    }
  }

  /** A new call that the others let get on returns exactly if the way is free. */
  lemma CallReturnsIff(t: System, i: HandleId, path: Path, mode: Mode, d: nat)
    requires Inv(t) && i !in t.handles && LocksAt(t.tree, path, d)
    ensures var u := Run(t, [Begin(i, path, mode)] + Moves(i, path, mode, d, 0));
            && i in u.handles && u == t.(handles := t.handles[i := u.handles[i]])
            && (if WayFree(t, i, path, mode, d, 0) then Returned(u, i, path, mode, d) else Waiting(u.handles[i]))
  {
    var t1 := Step(t, Begin(i, path, mode));
    StepInv(t, Begin(i, path, mode));
    var moves := Moves(i, path, mode, d, 0);
    assert ([Begin(i, path, mode)] + moves)[1..] == moves;
    Descends(t1, i, path, mode, d, 0);
    Begun(t, t1, Run(t1, moves), i, path, mode, d);
  }

  lemma Begun(t: System, t1: System, u: System, i: HandleId, path: Path, mode: Mode, d: nat)
    requires i !in t.handles && i in t1.handles && t1 == t.(handles := t.handles[i := t1.handles[i]])
    requires ReturnsIff(t1, u, i, path, mode, d, 0)
    ensures i in u.handles && u == t.(handles := t.handles[i := u.handles[i]])
    ensures WayFree(t, i, path, mode, d, 0) <==> WayFree(t1, i, path, mode, d, 0)
  {
    assert forall g | g in t.handles :: t1.handles[g] == t.handles[g];
  }

  /** From every state that can be reached, a new call of RLock or Lock that the others let get on returns
      exactly if none of them has a write lock on the existing part of its path, nor, for Lock, any lock
      on the node that it comes to hold; otherwise it is still waiting. It then holds the nodes down to
      the deepest one there is on the path, and nothing else has changed. */
  lemma ReturnsIffWayIsFree(s: System, es: seq<Event>, i: HandleId, path: Path, mode: Mode, d: nat)
    requires Init(s) && Disciplined(es) && i !in Run(s, es).handles && LocksAt(Run(s, es).tree, path, d)
    ensures var t := Run(s, es);
            var u := Run(t, [Begin(i, path, mode)] + Moves(i, path, mode, d, 0));
            && i in u.handles && u == t.(handles := t.handles[i := u.handles[i]])
            && ((forall g | g in t.handles :: !InTheWay(t.handles[g], path, mode, d, 0)) <==> Returned(u, i, path, mode, d))
            && (!Returned(u, i, path, mode, d) ==> Waiting(u.handles[i]))
  {
    InitInv(s);
    RunInv(s, es);
    CallReturnsIff(Run(s, es), i, path, mode, d);
  }

  /** On its own every call returns. */
  lemma ReturnsAlone(s: System, es: seq<Event>, i: HandleId, path: Path, mode: Mode) returns (d: nat)
    requires Init(s) && Disciplined(es) && Run(s, es).handles == map[]
    ensures LocksAt(Run(s, es).tree, path, d)
    ensures Returned(Run(Run(s, es), [Begin(i, path, mode)] + Moves(i, path, mode, d, 0)), i, path, mode, d)
  {
    assert path[..|path|] == path;
    d := DeepestNode(Run(s, es).tree, path, |path|);
    ReturnsIffWayIsFree(s, es, i, path, mode, d);
  }

  /** Every path has a deepest node. */
  lemma {:induction false} DeepestNode(t: Tree, path: Path, k: nat) returns (d: nat)
    requires k <= |path| && (k < |path| ==> Node(t, path[..k + 1]).None?)
    ensures LocksAt(t, path, d)
    decreases k
  {
    if Node(t, path[..k]).Some? {
      d := k;
    } else {
      assert path[..0] == [];
      d := DeepestNode(t, path, k - 1);
    }
  }
}
