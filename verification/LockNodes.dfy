/** The lock nodes in place (locking/locknode.go): creating, inserting and removing them. */
module LockNodes {
  import opened Wrappers
  import opened LockTree

  /** Growing below a new node touches no older one. */
  lemma {:induction false} GrowFrame(t: Tree, c: NodeId, path: Path, next: nat, n: NodeId, kids: map<Key, NodeId>)
    requires c in t && t[c] == map[] && n != c && n.serial < next
    ensures Grow(t[n := kids], c, path, next) == (Grow(t, c, path, next).0[n := kids], Grow(t, c, path, next).1)
    decreases |path|
  {
    if path != [] {
      var k := path[0];
      assert Attach(t[n := kids], c, k, next) == Attach(t, c, k, next)[n := kids];
      GrowFrame(Attach(t, c, k, next), NodeId(c.path + [k], next), path[1..], next + 1, n, kids);
    }
  }

  /** Hanging in a chain of new nodes is growing. */
  lemma HangIn(t: Tree, next: nat, n: NodeId, path: Path, child: NodeId)
    requires n in t && n.serial < next && path != [] && path[0] !in t[n]
    requires child == NodeId(n.path + [path[0]], next)
    ensures var (t', next') := Grow(t[child := map[]], child, path[1..], next + 1);
            && n in t' && t'[n] == t[n]
            && Grow(t, n, path, next) == (t'[n := t[n][path[0] := child]], next')
  {
    var fresh' := t[child := map[]];
    GrowFrame(fresh', child, path[1..], next + 1, n, t[n][path[0] := child]);
    GrowFrame(fresh', child, path[1..], next + 1, n, t[n]);
    assert fresh'[n := t[n][path[0] := child]] == Attach(t, n, path[0], next);
    assert fresh'[n := t[n]] == fresh';
  }

  lemma HangBelow(t: Tree, next: nat, n: NodeId, path: Path, child: NodeId)
    requires n in t && t[n] == map[] && n.serial < next && path != []
    requires child == NodeId(n.path + [path[0]], next)
    ensures var (t', next') := Grow(t[child := map[]], child, path[1..], next + 1);
            Grow(t, n, path, next) == (t'[n := map[path[0] := child]], next')
  {
    HangIn(t, next, n, path, child);
    assert map[][path[0] := child] == map[path[0] := child];
  }

  class Nodes {
    var tree: Tree
    var next: nat

    ghost predicate Valid()
      reads this
    {
      WellFormed(tree, next)
    }

    /** The root of a new lock tree. */
    constructor ()
      ensures Valid() && tree == map[ROOT := map[]] && next == 1
    {
      tree, next := map[ROOT := map[]], 1;
    }

    /** CreateLockNode: a new node, to be hung in at `at`, with new nodes down the rest of the path. */
    method Create(at: Path, path: Path) returns (node: NodeId)
      modifies this
      ensures node == NodeId(at, old(next))
      ensures (tree, next) == Grow(old(tree)[node := map[]], node, path, old(next) + 1)
      decreases |path|
    {
      node := NodeId(at, next);
      tree, next := tree[node := map[]], next + 1;
      if path != [] {
        HangBelow(tree, next, node, path, NodeId(at + [path[0]], next));
        var child := Create(at + [path[0]], path[1..]);
        tree := tree[node := map[path[0] := child]];
      }
    }

    /** Insert below node n. */
    method Insert(n: NodeId, path: Path)
      requires Valid() && n in tree
      modifies this
      ensures (tree, next) == Grow(old(tree), n, path, old(next))
      decreases |path|
    {
      if path == [] {
        return;
      }
      var key := path[0];
      if key in tree[n] {
        Insert(tree[n][key], path[1..]);
        return;
      }
      HangIn(tree, next, n, path, NodeId(n.path + [key], next));
      var child := Create(n.path + [key], path[1..]);
      tree := tree[n := tree[n][key := child]];
    }

    /** Remove below node n. Without a node to hold the last key it crashes. */
    method Remove(n: NodeId, path: Path) returns (crashed: bool)
      requires Valid() && n in tree
      modifies this`tree
      ensures crashed <==> path != [] && Walk(old(tree), n, Parent(path)).None?
      ensures path == [] || crashed ==> tree == old(tree)
      ensures path != [] && !crashed ==>
        var parent := Walk(old(tree), n, Parent(path)).value;
        parent in old(tree) && tree == Prune(old(tree), parent, path[|path| - 1])
      decreases |path|
    {
      if path == [] {
        return false;
      }
      if |path| == 1 {
        tree := tree[n := tree[n] - {path[0]}];
        return false;
      }
      assert Parent(path)[1..] == Parent(path[1..]) && Parent(path)[0] == path[0];
      if path[0] !in tree[n] {
        return true;
      }
      ghost var child := tree[n][path[0]];
      if Walk(tree, child, Parent(path[1..])).Some? {
        WalkNames(tree, next, child, Parent(path[1..]));
      }
      crashed := Remove(tree[n][path[0]], path[1..]);
    }
  }
}
