/**
 What breaks the exclusion of the lock tree (locking/locknode.go): removing one's own path, and running
 a release function twice.
 */
module LockMisuse {
  import opened Wrappers
  import opened LockTree
  import opened LockSystem

  // ---------------------------------------------------------------- removing one's own path

  /** The lock operations of a reader that goes n levels down. */
  function Descent(g: HandleId, n: nat): seq<Event> {
    if n == 0 then [] else [Acquire(g), LookUp(g)] + Descent(g, n - 1)
  }

  /** The path of `a` is cut off at its last node, and nobody writes to the nodes above it. */
  ghost predicate CutOff(s: System, a: Handle) {
    && a.path != [] && |a.held| == |a.path| + 1
    && (forall i | 0 <= i < |a.path| - 1 ::
          a.held[i] in s.tree && a.path[i] in s.tree[a.held[i]] && s.tree[a.held[i]][a.path[i]] == a.held[i + 1])
    && a.held[|a.path| - 1] in s.tree && a.path[|a.path| - 1] !in s.tree[a.held[|a.path| - 1]]
    && (forall i | 0 <= i < |a.path| :: CanRead(s, a.held[i]))
  }

  ghost predicate ReadsDown(s: System, g: HandleId, a: Handle, j: nat) {
    && j < |a.path| && |a.held| == |a.path| + 1
    && g in s.handles && s.handles[g] == Handle(a.path, Read, Want, a.held[j], a.held[..j], false)
  }

  /** One level down; the last one finds the child gone and stops there, holding the path. */
  lemma DescendOnce(s: System, g: HandleId, a: Handle, j: nat)
    requires CutOff(s, a) && ReadsDown(s, g, a, j)
    ensures var t := Step(Step(s, Acquire(g)), LookUp(g));
            && CutOff(t, a)
            && t.handles - {g} == s.handles - {g}
            && (if j + 1 < |a.path| then ReadsDown(t, g, a, j + 1)
                else g in t.handles && t.handles[g].path == a.path && t.handles[g].phase == Held)
  {
    assert a.held[..j] + [a.held[j]] == a.held[..j + 1];
    var u := Step(s, Acquire(g));
    assert u.handles[g] == Handle(a.path, Read, Look, a.held[j], a.held[..j + 1], false);
    var t := Step(u, LookUp(g));
    assert t.handles == s.handles[g := t.handles[g]];
  }

  lemma {:induction false} Descend(s: System, g: HandleId, a: Handle, j: nat)
    requires CutOff(s, a) && ReadsDown(s, g, a, j)
    ensures var t := Run(s, Descent(g, |a.path| - j));
            && t.handles - {g} == s.handles - {g}
            && g in t.handles && t.handles[g].path == a.path && t.handles[g].phase == Held
    decreases |a.path| - j
  {
    DescendOnce(s, g, a, j);
    var es := Descent(g, |a.path| - j);
    var t := Step(Step(s, Acquire(g)), LookUp(g));
    assert es[1..] == [LookUp(g)] + Descent(g, |a.path| - j - 1);
    assert es[1..][1..] == Descent(g, |a.path| - j - 1);
    assert Run(s, es) == Run(Step(s, Acquire(g)), es[1..]);
    if j + 1 < |a.path| {
      Descend(t, g, a, j + 1);
    }
  }

  /** A caller may remove its own path when its lock fell back on a node above it. */
  lemma RemoveOwnBelowLock(s: System, h: HandleId)
    requires Inv(s) && Enabled(s, RemoveOwn(h)) && |s.handles[h].held| <= |s.handles[h].path|
    ensures Inv(Step(s, RemoveOwn(h)))
  {
    var path := s.handles[h].path;
    var d := |s.handles[h].held| - 1;
    assert Parent(path)[..d] == path[..d];
    NodePrune(s.tree, s.next, Parent(path), path[|path| - 1], []);
    forall g | g in s.handles
      ensures Placed(Step(s, RemoveOwn(h)).tree, s.handles[g])
    {
      CutPlaced(s, h, Parent(path), path[|path| - 1], g);
    }
  }

  lemma ChainLink(t: Tree, next: nat, a: Handle, i: nat)
    requires WellFormed(t, next) && Placed(t, a) && i + 1 < |a.held|
    ensures a.held[i] in t && a.held[i].path == a.path[..i]
    ensures a.path[i] in t[a.held[i]] && t[a.held[i]][a.path[i]] == a.held[i + 1]
    ensures a.held[i + 1].path == a.path[..i + 1]
  {
    assert Node(t, a.path[..i]) == Some(a.held[i]) && Node(t, a.path[..i + 1]) == Some(a.held[i + 1]);
    NodeChild(t, next, a.path[..i], a.path[i]);
    assert a.path[..i] + [a.path[i]] == a.path[..i + 1];
  }

  lemma ReadableAbove(s: System, h: HandleId, i: nat)
    requires Inv(s) && h in s.handles && i + 1 < |s.handles[h].held|
    ensures CanRead(s, s.handles[h].held[i])
  {
    var a := s.handles[h];
    ChainLink(s.tree, s.next, a, i);
    ChainLink(s.tree, s.next, a, |a.held| - 2);
    forall g | g in s.handles
      ensures !Writes(s.handles[g], a.held[i])
    {
      assert a.held[i] in a.held;
    }
  }

  lemma RemoveOwnCutsOff(s: System, h: HandleId)
    requires Inv(s) && HoldsLock(s, h) && s.handles[h].path != []
    requires |s.handles[h].held| == |s.handles[h].path| + 1
    ensures Enabled(s, RemoveOwn(h)) && CutOff(Step(s, RemoveOwn(h)), s.handles[h])
    ensures Step(s, RemoveOwn(h)).handles == s.handles
  {
    var a := s.handles[h];
    var last := |a.path| - 1;
    ChainLink(s.tree, s.next, a, last);
    assert Node(s.tree, Parent(a.path)) == Some(a.held[last]);
    var t := Step(s, RemoveOwn(h));
    assert t.tree == Prune(s.tree, a.held[last], a.path[last]);
    forall i | 0 <= i < last
      ensures a.held[i] in t.tree && a.path[i] in t.tree[a.held[i]] && t.tree[a.held[i]][a.path[i]] == a.held[i + 1]
    {
      ChainLink(s.tree, s.next, a, i);
    }
    forall i | 0 <= i < |a.path|
      ensures CanRead(t, a.held[i])
    {
      ReadableAbove(s, h, i);
    }
  }

  /** Holding Lock(path) is not enough to remove path: from every reachable state in which a caller
      holds Lock(p) on a node that is in the tree, its removal of p lets a new reader of p in while
      the lock is still held. */
  lemma RemoveOwnBreaksExclusion(s: System, h: HandleId, g: HandleId)
    requires Inv(s) && HoldsLock(s, h) && s.handles[h].path != [] && g !in s.handles
    requires |s.handles[h].held| == |s.handles[h].path| + 1
    ensures var path := s.handles[h].path;
            var t := Run(s, [RemoveOwn(h), Begin(g, path, Read)] + Descent(g, |path|));
            HoldsLock(t, h) && g in t.handles && t.handles[g].phase == Held && t.handles[g].path == t.handles[h].path
  {
    var a := s.handles[h];
    RemoveOwnCutsOff(s, h);
    var u := Step(s, RemoveOwn(h));
    var v := Step(u, Begin(g, a.path, Read));
    assert Node(s.tree, a.path[..0]) == Some(a.held[0]);
    assert a.path[..0] == [] && a.held[..0] == [];
    BeginKeepsCut(u, g, a);
    Descend(v, g, a, 0);
    RunTwoThen(s, RemoveOwn(h), Begin(g, a.path, Read), Descent(g, |a.path|));
    var t := Run(v, Descent(g, |a.path|));
    assert h in v.handles - {g} && (t.handles - {g})[h] == a;
  }

  lemma BeginKeepsCut(s: System, g: HandleId, a: Handle)
    requires CutOff(s, a) && g !in s.handles
    ensures CutOff(Step(s, Begin(g, a.path, Read)), a)
  {
  }

  lemma RunTwoThen(s: System, a: Event, b: Event, es: seq<Event>)
    ensures Run(s, [a, b] + es) == Run(Step(Step(s, a), b), es)
  {
  }

  // ---------------------------------------------------------------- releasing twice

  /** The path of `a` is there down to its end, nobody writes to the nodes above, and nobody has the last. */
  ghost predicate Open(s: System, a: Handle) {
    && |a.held| == |a.path| + 1 && a.held[0] == ROOT
    && (forall i | 0 <= i < |a.path| ::
          && a.held[i] in s.tree && a.path[i] in s.tree[a.held[i]] && s.tree[a.held[i]][a.path[i]] == a.held[i + 1]
          && a.held[i] != a.held[|a.path|] && CanRead(s, a.held[i]))
    && CanWrite(s, a.held[|a.path|])
  }

  ghost predicate LocksDown(s: System, x: HandleId, a: Handle, j: nat) {
    && j <= |a.path| && |a.held| == |a.path| + 1
    && x in s.handles && s.handles[x] == Handle(a.path, Write, Want, a.held[j], a.held[..j], false)
  }

  lemma LockDownOnce(s: System, x: HandleId, a: Handle, j: nat)
    requires Open(s, a) && LocksDown(s, x, a, j) && j < |a.path|
    ensures var t := Step(Step(s, Acquire(x)), LookUp(x));
            Open(t, a) && LocksDown(t, x, a, j + 1)
  {
    assert a.held[..j] + [a.held[j]] == a.held[..j + 1];
    var u := Step(s, Acquire(x));
    assert u.handles[x] == Handle(a.path, Write, Look, a.held[j], a.held[..j + 1], false);
    var t := Step(u, LookUp(x));
    assert t.handles == s.handles[x := t.handles[x]];
    assert t.handles[x] == Handle(a.path, Write, Want, a.held[j + 1], a.held[..j + 1], false);
    assert a.held[|a.path|] !in a.held[..j + 1];
  }

  lemma {:induction false} LockDown(s: System, x: HandleId, a: Handle, j: nat)
    requires Open(s, a) && LocksDown(s, x, a, j)
    ensures var t := Run(s, Descent(x, |a.path| - j) + [Acquire(x)]);
            HoldsLock(t, x) && t.handles[x].path == a.path
    decreases |a.path| - j
  {
    var n := |a.path| - j;
    var es := Descent(x, n) + [Acquire(x)];
    if n == 0 {
      assert es == [Acquire(x)] && es[1..] == [];
    } else {
      LockDownOnce(s, x, a, j);
      assert es == [Acquire(x), LookUp(x)] + (Descent(x, n - 1) + [Acquire(x)]);
      RunTwoThen(s, Acquire(x), LookUp(x), Descent(x, n - 1) + [Acquire(x)]);
      LockDown(Step(Step(s, Acquire(x)), LookUp(x)), x, a, j + 1);
    }
  }

  /** What a release function does that is run again after its locks have been given back, while g has
      locked the same path: it unlocks the node at the path and takes one reader off each node above,
      and these are the locks of g. */
  function ReleasedAgain(s: System, g: HandleId): System {
    s.(handles := s.handles - {g})
  }

  lemma OpenAfterSecondRelease(s: System, g: HandleId)
    requires Inv(s) && HoldsLock(s, g) && |s.handles[g].held| == |s.handles[g].path| + 1
    ensures Open(ReleasedAgain(s, g), s.handles[g])
  {
    var a := s.handles[g];
    var t := ReleasedAgain(s, g);
    assert a.path[..0] == [] && Node(s.tree, a.path[..0]) == Some(a.held[0]);
    forall i | 0 <= i < |a.path|
      ensures a.held[i] in t.tree && a.path[i] in t.tree[a.held[i]] && t.tree[a.held[i]][a.path[i]] == a.held[i + 1]
      ensures a.held[i] != a.held[|a.path|] && CanRead(t, a.held[i])
    {
      ChainLink(s.tree, s.next, a, i);
      ChainLink(s.tree, s.next, a, |a.path| - 1);
      ReadableAbove(s, g, i);
    }
    assert Last(a) == a.held[|a.path|];
  }

  /** From every reachable state in which a caller holds Lock(p) on a node that is in the tree, running
      another caller's release function for p a second time lets a third caller take Lock(p), although
      the holder has not released it. */
  lemma SecondReleaseBreaksExclusion(s: System, g: HandleId, x: HandleId)
    requires Inv(s) && HoldsLock(s, g) && |s.handles[g].held| == |s.handles[g].path| + 1 && x !in s.handles
    ensures var path := s.handles[g].path;
            var t := Run(ReleasedAgain(s, g), [Begin(x, path, Write)] + (Descent(x, |path|) + [Acquire(x)]));
            HoldsLock(t, x) && t.handles[x].path == path
  {
    var a := s.handles[g];
    var u := ReleasedAgain(s, g);
    OpenAfterSecondRelease(s, g);
    var es := Descent(x, |a.path|) + [Acquire(x)];
    var v := Step(u, Begin(x, a.path, Write));
    assert ([Begin(x, a.path, Write)] + es)[1..] == es;
    assert v.handles == u.handles[x := v.handles[x]];
    assert a.held[..0] == [];
    LockDown(v, x, a, 0);
  }
}
