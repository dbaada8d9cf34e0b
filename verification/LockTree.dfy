/**
 The tree of lock nodes (locking/locknode.go): where a path leads, and what Insert and Remove make
 of the tree. Nodes are named by the path they were created at and a serial number, so that a node
 that was removed and one created later in its place are different.
 */
module LockTree {
  import opened Wrappers

  type Key = string
  type Path = seq<Key>

  function Parent(path: Path): Path
    requires path != []
  {
    path[..|path| - 1]
  }

  datatype NodeId = NodeId(path: Path, serial: nat)

  /** The children maps of all nodes ever created. */
  type Tree = map<NodeId, map<Key, NodeId>>

  const ROOT := NodeId([], 0)

  predicate WellFormed(t: Tree, next: nat) {
    && ROOT in t
    && (forall n | n in t :: n.serial < next)
    && (forall n, k | n in t && k in t[n] :: t[n][k] in t && t[n][k].path == n.path + [k])
  }

  /** The node that `path` leads to from node n. */
  function Walk(t: Tree, n: NodeId, path: Path): Option<NodeId>
    decreases |path|
  {
    if path == [] then Some(n)
    else if n in t && path[0] in t[n] then Walk(t, t[n][path[0]], path[1..])
    else None
  }

  /** The node at a path from the root. */
  function Node(t: Tree, path: Path): Option<NodeId> {
    Walk(t, ROOT, path)
  }

  /** Hangs a new, childless node under n. */
  function Attach(t: Tree, n: NodeId, k: Key, next: nat): Tree {
    var kids := if n in t then t[n] else map[];
    t[n := kids[k := NodeId(n.path + [k], next)]][NodeId(n.path + [k], next) := map[]]
  }

  /** Insert: follows the path as far as it exists and creates the rest of it. */
  function Grow(t: Tree, n: NodeId, path: Path, next: nat): (Tree, nat)
    decreases |path|
  {
    if path == [] then (t, next)
    else if n in t && path[0] in t[n] then Grow(t, t[n][path[0]], path[1..], next)
    else Grow(Attach(t, n, path[0], next), NodeId(n.path + [path[0]], next), path[1..], next + 1)
  }

  /** Remove: cuts off the child k of node n. */
  function Prune(t: Tree, n: NodeId, k: Key): Tree
    requires n in t
  {
    t[n := t[n] - {k}]
  }

  // ---------------------------------------------------------------- walking

  lemma {:induction false} WalkNames(t: Tree, next: nat, n: NodeId, path: Path)
    requires WellFormed(t, next) && n in t && Walk(t, n, path).Some?
    ensures Walk(t, n, path).value in t && Walk(t, n, path).value.path == n.path + path
    decreases |path|
  {
    if path != [] {
      var k := path[0];
      WalkNames(t, next, t[n][k], path[1..]);
      assert n.path + path == n.path + [k] + path[1..];
    } else {
      assert n.path + path == n.path;
    }
  }

  lemma {:induction false} WalkConcat(t: Tree, n: NodeId, p: Path, q: Path)
    ensures Walk(t, n, p + q) == if Walk(t, n, p).Some? then Walk(t, Walk(t, n, p).value, q) else None
    decreases |p|
  {
    if p == [] {
      assert p + q == q;
    } else {
      assert (p + q)[1..] == p[1..] + q && (p + q)[0] == p[0];
      if n in t && p[0] in t[n] {
        WalkConcat(t, t[n][p[0]], p[1..], q);
      }
    }
  }

  /** A node at a path has a node at every prefix of it. */
  lemma NodePrefix(t: Tree, path: Path, i: nat)
    requires i <= |path| && Node(t, path).Some?
    ensures Node(t, path[..i]).Some?
  {
    WalkConcat(t, ROOT, path[..i], path[i..]);
    assert path[..i] + path[i..] == path;
  }

  /** One step further down. */
  lemma NodeChild(t: Tree, next: nat, path: Path, k: Key)
    requires WellFormed(t, next) && Node(t, path).Some?
    ensures var n := Node(t, path).value;
            && n in t && n.path == path
            && Node(t, path + [k]) == if k in t[n] then Some(t[n][k]) else None
  {
    WalkNames(t, next, ROOT, path);
    WalkConcat(t, ROOT, path, [k]);
    assert [k][1..] == [];
  }

  // ---------------------------------------------------------------- growing

  lemma AttachWellFormed(t: Tree, n: NodeId, k: Key, next: nat)
    requires WellFormed(t, next) && n in t && k !in t[n]
    ensures WellFormed(Attach(t, n, k, next), next + 1)
    ensures NodeId(n.path + [k], next) in Attach(t, n, k, next)
  {
  }

  /** Attaching keeps every walk, and adds only the walk to the new node. */
  lemma {:induction false} WalkAttach(t: Tree, n: NodeId, k: Key, next: nat, a: NodeId, path: Path)
    requires WellFormed(t, next) && n in t && k !in t[n] && a in t
    ensures var t', c := Attach(t, n, k, next), NodeId(n.path + [k], next);
            && (Walk(t, a, path).Some? ==> Walk(t', a, path) == Walk(t, a, path))
            && (Walk(t', a, path).Some? ==> Walk(t', a, path) == Walk(t, a, path) || a.path + path == c.path)
    decreases |path|
  {
    var t', c := Attach(t, n, k, next), NodeId(n.path + [k], next);
    if path != [] {
      if a == n && path[0] == k {
        if path[1..] == [] {
          assert path == [k];
        }
      } else if path[0] in t[a] {
        WalkAttach(t, n, k, next, t[a][path[0]], path[1..]);
        assert a.path + path == a.path + [path[0]] + path[1..];
      }
    }
  }

  lemma NodeAttach(t: Tree, next: nat, n: NodeId, k: Key, q: Path)
    requires WellFormed(t, next) && n in t && Node(t, n.path) == Some(n) && k !in t[n]
    ensures var t', c := Attach(t, n, k, next), NodeId(n.path + [k], next);
            && WellFormed(t', next + 1) && c in t' && Node(t', c.path) == Some(c)
            && (Node(t, q).Some? ==> Node(t', q) == Node(t, q))
            && (Node(t', q).Some? <==> Node(t, q).Some? || q == c.path)
  {
    var t' := Attach(t, n, k, next);
    AttachWellFormed(t, n, k, next);
    WalkAttach(t, n, k, next, ROOT, q);
    WalkAttach(t, n, k, next, ROOT, n.path);
    NodeChild(t', next + 1, n.path, k);
    assert [] + q == q;
  }

  lemma PrefixOfChild(q: Path, p: Path, k: Key, rest: Path)
    ensures q <= p + [k] ==> q <= p || q == p + [k]
    ensures q == p + [k] ==> q <= p + [k] + rest
  {
  }

  /** Growing a path keeps every node where it was, and adds exactly the prefixes of that path. */
  lemma {:induction false} NodeGrow(t: Tree, next: nat, n: NodeId, rest: Path, q: Path)
    requires WellFormed(t, next) && n in t && Node(t, n.path) == Some(n)
    ensures var (t', next') := Grow(t, n, rest, next);
            && WellFormed(t', next') && next <= next'
            && (Node(t, q).Some? ==> Node(t', q) == Node(t, q))
            && (Node(t', q).Some? <==> Node(t, q).Some? || q <= n.path + rest)
    decreases |rest|
  {
    if rest == [] {
      assert n.path + rest == n.path;
      if q <= n.path {
        NodePrefix(t, n.path, |q|);
        assert n.path[..|q|] == q;
      }
    } else {
      var k := rest[0];
      assert n.path + rest == n.path + [k] + rest[1..];
      if k in t[n] {
        NodeChild(t, next, n.path, k);
        NodeGrow(t, next, t[n][k], rest[1..], q);
      } else {
        var t1, c := Attach(t, n, k, next), NodeId(n.path + [k], next);
        NodeAttach(t, next, n, k, q);
        PrefixOfChild(q, n.path, k, rest[1..]);
        NodeGrow(t1, next + 1, c, rest[1..], q);
      }
    }
  }

  /** Insert at the root. */
  lemma NodeInsert(t: Tree, next: nat, path: Path, q: Path)
    requires WellFormed(t, next)
    ensures var (t', next') := Grow(t, ROOT, path, next);
            && WellFormed(t', next') && next <= next'
            && (Node(t, q).Some? ==> Node(t', q) == Node(t, q))
            && (Node(t', q).Some? <==> Node(t, q).Some? || q <= path)
  {
    NodeGrow(t, next, ROOT, path, q);
    assert [] + path == path;
  }

  // ---------------------------------------------------------------- pruning

  lemma {:induction false} WalkPrune(t: Tree, next: nat, n: NodeId, k: Key, a: NodeId, path: Path)
    requires WellFormed(t, next) && n in t && a in t
    ensures var t' := Prune(t, n, k);
            && (Walk(t', a, path).Some? ==> Walk(t', a, path) == Walk(t, a, path))
            && (Walk(t, a, path).Some? && !(n.path + [k] <= a.path + path) ==> Walk(t', a, path) == Walk(t, a, path))
    decreases |path|
  {
    if path != [] && path[0] in t[a] {
      WalkPrune(t, next, n, k, t[a][path[0]], path[1..]);
      assert a.path + path == a.path + [path[0]] + path[1..];
    }
  }

  /** Removing a child cuts off exactly the paths that lead through it. */
  lemma NodePrune(t: Tree, next: nat, p: Path, k: Key, q: Path)
    requires WellFormed(t, next) && Node(t, p).Some?
    ensures Node(t, p).value in t
    ensures var t' := Prune(t, Node(t, p).value, k);
            && WellFormed(t', next)
            && Node(t', q) == if p + [k] <= q then None else Node(t, q)
  {
    NodeChild(t, next, p, k);
    var n := Node(t, p).value;
    var t' := Prune(t, n, k);
    WalkPrune(t, next, n, k, ROOT, q);
    WalkPrune(t, next, n, k, ROOT, p);
    assert [] + q == q && [] + p == p;
    if p + [k] <= q {
      WalkConcat(t', ROOT, p + [k], q[|p| + 1..]);
      assert p + [k] + q[|p| + 1..] == q;
      NodeChild(t', next, p, k);
    }
  }
}
