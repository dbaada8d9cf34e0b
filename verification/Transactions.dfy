/**
 The store and its transactions in place (mdlstore/mdlockablestore_impl.go). A transaction works on
 its own view of the entries; committing replaces the stored entries and then replays the
 transaction's changes on the lock tree.
 */
module Transactions {
  import opened Wrappers
  import opened LockTree
  import LockNodes
  import opened TreeStore
  import Joining

  /** Every stored path has a key of its own. */
  ghost predicate Storable(db: Entries) {
    forall q | q in db :: Plain(q) && Joining.AllFree('/', q)
  }

  /** The entries after a run of operations; one that is not accepted changes nothing. */
  ghost function ApplyAll(db: Entries, ops: seq<Op>): Entries {
    if ops == [] then db
    else
      var before := ApplyAll(db, ops[..|ops| - 1]);
      if Accepted(before, ops[|ops| - 1]) then Apply(before, ops[|ops| - 1]) else before
  }

  /** Every operation of the run is accepted, at a path that has no children by then. */
  ghost predicate Careful(db: Entries, ops: seq<Op>) {
    ops == [] || (
      && Careful(db, ops[..|ops| - 1])
      && Accepted(ApplyAll(db, ops[..|ops| - 1]), ops[|ops| - 1])
      && Childless(ApplyAll(db, ops[..|ops| - 1]), ops[|ops| - 1].path))
  }

  lemma OpStorable(db: Entries, op: Op)
    requires Storable(db) && Accepted(db, op)
    ensures Storable(Apply(db, op))
  {
  }

  /** Along every careful run the entries stay a tree. */
  lemma {:induction false} CarefulKeepsTree(db: Entries, ops: seq<Op>)
    requires TreeOk(db) && Storable(db) && Careful(db, ops)
    ensures TreeOk(ApplyAll(db, ops)) && Storable(ApplyAll(db, ops))
    decreases |ops|
  {
    if ops != [] {
      var before, op := ApplyAll(db, ops[..|ops| - 1]), ops[|ops| - 1];
      CarefulKeepsTree(db, ops[..|ops| - 1]);
      OpStorable(before, op);
      match op {
        case PutOp(path, value) => PutKeepsTree(before, path, value);
        case DeleteOp(path) => DeleteKeepsTree(before, path);
      }
    }
  }

  lemma CarefulSnoc(db: Entries, ops: seq<Op>, op: Op)
    requires Careful(db, ops) && Accepted(ApplyAll(db, ops), op) && Childless(ApplyAll(db, ops), op.path)
    ensures Careful(db, ops + [op]) && ApplyAll(db, ops + [op]) == Apply(ApplyAll(db, ops), op)
  {
    assert (ops + [op])[..|ops|] == ops;
  }

  /** Along every careful run the tree of entries is kept, and the lock tree that replays the run
      agrees with the entries it leads to. */
  lemma {:induction false} CarefulRunAgrees(t: Tree, next: nat, db: Entries, ops: seq<Op>)
    requires TreeOk(db) && Storable(db) && Agrees(t, next, db) && Careful(db, ops)
    ensures TreeOk(ApplyAll(db, ops)) && Storable(ApplyAll(db, ops))
    ensures var (t', next') := Replay(t, next, ops); Agrees(t', next', ApplyAll(db, ops))
    decreases |ops|
  {
    if ops != [] {
      var before, op := ops[..|ops| - 1], ops[|ops| - 1];
      CarefulRunAgrees(t, next, db, before);
      var (t', next') := Replay(t, next, before);
      OpKeepsAgreement(t', next', ApplyAll(db, before), op);
      OpStorable(ApplyAll(db, before), op);
    }
  }

  // ---------------------------------------------------------------- what a refused Put leaves

  lemma {:induction false} FirstBlocked(path: Path) returns (b: nat)
    requires !Joining.AllFree('/', path)
    ensures b < |path| && !Joining.Free('/', path[b]) && Joining.AllFree('/', path[..b])
    decreases |path|
  {
    if Joining.AllFree('/', Parent(path)) {
      b := |path| - 1;
    } else {
      b := FirstBlocked(Parent(path));
      assert Parent(path)[..b] == path[..b];
    }
  }

  lemma StageKeepsTree(db: Entries, txn: Entries, path: Path, i: nat)
    requires TreeOk(db) && 1 <= i <= |path| && Stage(db, txn, path, i)
    ensures TreeOk(txn)
  {
    forall q
      ensures Listed(txn, q)
    {
      assert Listed(db, q);
      StageLists(db, txn, path, i, q);
    }
    forall q, c
      ensures Stored(txn, q, c)
    {
      assert Stored(db, q, c);
      PrefixOrOther(path, q + [c]);
    }
  }

  lemma StageLists(db: Entries, txn: Entries, path: Path, i: nat, q: Path)
    requires Listed(db, q) && 1 <= i <= |path| && Stage(db, txn, path, i)
    ensures Listed(txn, q)
  {
  }

  /** A component refused before the last one. */
  lemma RefusedEarly(db: Entries, txn: Entries, path: Path, i: nat)
    requires TreeOk(db) && 1 <= i < |path| && Stage(db, txn, path, i)
    requires !Joining.AllFree('/', path[..i])
    ensures TreeOk(txn) && !Joining.AllFree('/', Parent(path)) && !Joining.AllFree('/', path)
  {
    StageKeepsTree(db, txn, path, i);
    var b := FirstBlocked(path[..i]);
    assert path[..i][b] == path[b] == Parent(path)[b];
  }

  /** The last one refused: the parent lists a child that has no entry. */
  lemma RefusedLast(db: Entries, txn: Entries, path: Path, txn': Entries)
    requires Storable(db) && path != [] && Stage(db, txn, path, |path|) && !Joining.AllFree('/', path)
    requires txn'.Keys == txn.Keys && Parent(path) in txn' && Name(path) in txn'[Parent(path)].children
    ensures !TreeOk(txn')
  {
    assert path !in txn';
    ListedUnstored(txn', path);
  }

  lemma ListedUnstored(txn: Entries, path: Path)
    requires path != [] && Parent(path) in txn && Name(path) in txn[Parent(path)].children && path !in txn
    ensures !TreeOk(txn)
  {
    assert Parent(path) + [Name(path)] == path;
    assert !Stored(txn, Parent(path), Name(path));
  }

  lemma RefusedIsUnlisted(db: Entries, path: Path)
    requires TreeOk(db) && Storable(db) && path != [] && Parent(path) in db && !Joining.AllFree('/', path)
    ensures var parent := db[Parent(path)];
            db[Parent(path) := Entry(parent.data, parent.children - {Name(path)})] == db
  {
    assert Parent(path) + [Name(path)] == path && path !in db;
    assert Stored(db, Parent(path), Name(path));
    var parent := db[Parent(path)];
    assert parent.children - {Name(path)} == parent.children;
  }

  lemma PlainPrefix(path: Path, i: nat)
    requires Plain(path) && i <= |path|
    ensures Plain(path[..i]) && Clean(path[..i]) == path[..i]
  {
    CleanOfPlain(path[..i]);
  }

  // ---------------------------------------------------------------- the transaction

  /** The entries are a tree, and the path needs no cleaning. */
  ghost predicate Orderly(db: Entries, path: Path) {
    TreeOk(db) && Storable(db) && Plain(path)
  }

  /** q is not the cleaned form of the path or of one of its prefixes. */
  ghost predicate OffPath(path: Path, q: Path) {
    forall i | 0 <= i <= |path| :: q != Clean(path[..i])
  }

  /** Nothing has changed off the path. */
  ghost predicate SameOff(db: Entries, db': Entries, path: Path) {
    forall q | OffPath(path, q) :: (q in db' <==> q in db) && (q in db ==> db'[q] == db[q])
  }

  lemma SameOffUpdate(db: Entries, m: Entries, path: Path, k: nat, entry: Entry)
    requires SameOff(db, m, path) && k <= |path|
    ensures SameOff(db, m[Clean(path[..k]) := entry], path)
  {
  }

  lemma SameOffTrans(a: Entries, b: Entries, c: Entries, path: Path)
    requires SameOff(a, b, path) && SameOff(b, c, path)
    ensures SameOff(a, c, path)
  {
  }

  /** What one round makes of the entries. */
  function Round(txn: Entries, path: Path, i: nat): Entries
    requires 1 <= i <= |path| && Clean(path[..i - 1]) in txn
  {
    var parent := Clean(path[..i - 1]);
    if path[i - 1] in txn[parent].children then txn
    else txn[parent := Entry(txn[parent].data, txn[parent].children + {path[i - 1]})][Clean(path[..i]) := Entry(None, {})]
  }

  /** On a tree, at a plain path, every round finds the parent. */
  lemma RoundReady(db: Entries, txn: Entries, path: Path, i: nat)
    requires Orderly(db, path) && 1 <= i <= |path| && Stage(db, txn, path, i)
    ensures Clean(path[..i - 1]) in txn
  {
    StageParent(db, txn, path, i);
    PlainPrefix(path, i - 1);
  }

  lemma RoundStages(db: Entries, txn: Entries, path: Path, i: nat, txn': Entries)
    requires Orderly(db, path) && 1 <= i < |path| && Stage(db, txn, path, i)
    requires Clean(path[..i - 1]) in txn && txn' == Round(txn, path, i)
    ensures Stage(db, txn', path, i + 1)
  {
    StageParent(db, txn, path, i);
    PlainPrefix(path, i - 1);
    PlainPrefix(path, i);
    if path[i - 1] in txn[path[..i - 1]].children {
      StageListed(db, txn, path, i);
    } else {
      StageUnlisted(db, txn, path, i, txn');
    }
  }

  /** Delete for any path, as keys are cleaned. */
  function DeleteAt(db: Entries, path: Path): Entries
    requires path != [] && Clean(Parent(path)) in db
  {
    var parent := Clean(Parent(path));
    db[parent := Entry(db[parent].data, db[parent].children - {Name(path)})] - {Clean(path)}
  }

  /** A transaction is open until it is committed or discarded; after that it refuses everything. */
  class Transaction {
    var txn: Entries
    var commits: seq<Op>
    var open: bool

    constructor (stored: Entries)
      ensures txn == stored && commits == [] && open
    {
      txn, commits, open := stored, [], true;
    }

    /** Whether a path is stored, under its cleaned key; None is an error. */
    method Has(path: Path) returns (found: Option<bool>)
      ensures found == if open && Joining.AllFree('/', path) then Some(Clean(path) in txn) else None
    {
      var key := GetDSKey(path);
      if key.None? || !open {
        return None;
      }
      return Some(Clean(path) in txn);
    }

    method Get(path: Path) returns (data: Option<Option<Data>>)
      ensures data.Some? <==> open && path != [] && Joining.AllFree('/', path) && Clean(path) in txn
      ensures data.Some? ==> data.value == txn[Clean(path)].data
    {
      if path == [] {
        return None;
      }
      var key := GetDSKey(path);
      if key.None? || !open || Clean(path) !in txn {
        return None;
      }
      return Some(txn[Clean(path)].data);
    }

    method GetChildren(path: Path) returns (children: Option<set<Key>>)
      ensures children.Some? <==> open && Joining.AllFree('/', path) && Clean(path) in txn
      ensures children.Some? ==> children.value == txn[Clean(path)].children
    {
      var key := GetDSKey(path);
      if key.None? || !open || Clean(path) !in txn {
        return None;
      }
      return Some(txn[Clean(path)].children);
    }

    /** The rounds of Put. On entries that are a tree, at a plain path: every proper prefix exists and is
        listed by the one before it. Elsewhere a parent may be missing, which is an error. */
    method MakePrefixes(path: Path) returns (ok: bool)
      requires path != []
      modifies this`txn
      ensures ok ==> Joining.AllFree('/', Parent(path))
      ensures SameOff(old(txn), txn, path)
      ensures Orderly(old(txn), path) && ok ==> Stage(old(txn), txn, path, |path|)
      ensures Orderly(old(txn), path) && !ok ==> TreeOk(txn) && !Joining.AllFree('/', Parent(path))
    {
      ghost var db, orderly := txn, Orderly(txn, path);
      if orderly {
        StageStart(db, path);
      }
      var parent: Path := [];
      for i := 1 to |path|
        invariant parent == Clean(path[..i - 1])
        invariant Joining.AllFree('/', path[..i - 1])
        invariant SameOff(db, txn, path)
        invariant orderly ==> Stage(db, txn, path, i)
      {
        var sub := path[..i];
        var key := GetDSKey(sub);
        if key.None? {
          if orderly {
            RefusedEarly(db, txn, path, i);
          }
          return false;
        }
        if orderly {
          RoundReady(db, txn, path, i);
        }
        if parent !in txn {
          return false;
        }
        ghost var before := txn;
        MakePrefix(parent, path, i);
        SameOffTrans(db, before, txn, path);
        if orderly {
          RoundStages(db, before, path, i, txn);
        }
        parent := Clean(sub);
      }
      return true;
    }

    /** One round: a prefix that its parent does not list is listed there, and gets an empty entry. */
    method MakePrefix(parent: Path, path: Path, i: nat)
      requires 1 <= i <= |path| && parent == Clean(path[..i - 1]) && parent in txn
      modifies this`txn
      ensures txn == Round(old(txn), path, i)
      ensures SameOff(old(txn), txn, path)
    {
      ghost var db := txn;
      var child := path[i - 1];
      if child !in txn[parent].children {
        SameOffUpdate(db, txn, path, i - 1, Entry(txn[parent].data, txn[parent].children + {child}));
        txn := txn[parent := Entry(txn[parent].data, txn[parent].children + {child})];
        SameOffUpdate(db, txn, path, i, Entry(None, {}));
        txn := txn[Clean(path[..i]) := Entry(None, {})];
      }
    }

    /** Lists the path in its parent and writes its value, once its prefixes are there. */
    method PutLast(value: Data, path: Path) returns (ok: bool)
      requires path != []
      modifies this
      ensures ok <==> Clean(Parent(path)) in old(txn) && Joining.AllFree('/', path)
      ensures open == old(open)
      ensures commits == if ok then old(commits) + [PutOp(path, value)] else old(commits)
      ensures ok ==> txn == old(txn)[Clean(Parent(path)) :=
          Entry(old(txn)[Clean(Parent(path))].data, old(txn)[Clean(Parent(path))].children + {Name(path)})]
          [Clean(path) := Entry(Some(value), {})]
      ensures !ok && Clean(Parent(path)) in old(txn) ==>
        txn.Keys == old(txn).Keys && Name(path) in txn[Clean(Parent(path))].children
      ensures SameOff(old(txn), txn, path)
    {
      var parent := Clean(path[..|path| - 1]);
      if parent !in txn {
        return false;
      }
      ghost var before := txn;
      var child := path[|path| - 1];
      if child !in txn[parent].children {
        SameOffUpdate(before, txn, path, |path| - 1, Entry(txn[parent].data, txn[parent].children + {child}));
        txn := txn[parent := Entry(txn[parent].data, txn[parent].children + {child})];
      }
      assert txn == before[parent := Entry(before[parent].data, before[parent].children + {child})] by {
        assert child in before[parent].children ==> before[parent].children + {child} == before[parent].children;
      }
      var key := GetDSKey(path);
      if key.None? {
        return false;
      }
      assert path[..|path|] == path;
      SameOffUpdate(before, txn, path, |path|, Entry(Some(value), {}));
      txn := txn[Clean(path) := Entry(Some(value), {})];
      commits := commits + [PutOp(path, value)];
      return true;
    }

    /** Put. Whatever the entries, what it says it has written is there, and nothing changes but at the
        path and its prefixes. On entries that are a tree, at a plain path: it creates the prefixes that
        are missing, each listed by the one before it, lists the path in its parent and writes its
        value. A refused component stops it half way: what it has written so far is still a tree,
        unless only the last component was refused, which the parent lists by then. */
    method Put(value: Data, path: Path) returns (ok: bool)
      modifies this
      ensures open == old(open) && commits == if ok then old(commits) + [PutOp(path, value)] else old(commits)
      ensures ok ==> old(open) && path != [] && Joining.AllFree('/', path)
      ensures ok ==> Clean(path) in txn && txn[Clean(path)] == Entry(Some(value), {})
      ensures SameOff(old(txn), txn, path)
      ensures !old(open) || path == [] ==> txn == old(txn)
      ensures Orderly(old(txn), path) ==> (ok <==> old(open) && path != [] && Joining.AllFree('/', path))
      ensures Orderly(old(txn), path) && ok ==> txn == PutEntry(old(txn), path, value)
      ensures Orderly(old(txn), path) && !ok && old(open) && path != [] ==>
        (TreeOk(txn) <==> !Joining.AllFree('/', Parent(path)))
    {
      if path == [] || !open {
        return false;
      }
      ghost var db, orderly := txn, Orderly(txn, path);
      ok := MakePrefixes(path);
      if !ok {
        if orderly {
          BlockedParent(path);
        }
        return;
      }
      ghost var before := txn;
      if orderly {
        StageParent(db, before, path, |path|);
        PlainPrefix(path, |path| - 1);
        PlainPrefix(path, |path|);
        assert path[..|path|] == path;
      }
      ok := PutLast(value, path);
      if orderly && ok {
        StageLast(db, before, path, value, txn);
      }
      if orderly && !ok {
        RefusedLast(db, before, path, txn);
      }
    }

    /** Delete: the parent stops listing the path, and the path is gone. */
    method Delete(path: Path) returns (ok: bool)
      modifies this
      ensures open == old(open) && commits == if ok then old(commits) + [DeleteOp(path)] else old(commits)
      ensures ok <==> old(open) && path != [] && Joining.AllFree('/', path) && Clean(Parent(path)) in old(txn)
      ensures ok ==> txn == DeleteAt(old(txn), path)
      ensures Orderly(old(txn), path) && !ok ==> txn == old(txn)
    {
      if path == [] || !open {
        return false;
      }
      ghost var before, orderly := txn, Orderly(txn, path);
      var parentKey := GetDSKey(path[..|path| - 1]);
      var parent := Clean(path[..|path| - 1]);
      if parentKey.None? {
        BlockedParent(path);
        return false;
      }
      if parent !in txn {
        return false;
      }
      var child := path[|path| - 1];
      txn := txn[parent := Entry(txn[parent].data, txn[parent].children - {child})];
      var key := GetDSKey(path);
      if key.None? {
        if orderly {
          PlainPrefix(path, |path| - 1);
          RefusedIsUnlisted(before, path);
        }
        return false;
      }
      txn := txn - {Clean(path)};
      commits := commits + [DeleteOp(path)];
      return true;
    }

    /** After this nothing of the transaction takes effect any more: Commit refuses it. */
    method Discard()
      modifies this`commits, this`open
      ensures commits == [] && !open
    {
      commits, open := [], false;
    }
  }

  lemma BlockedParent(path: Path)
    requires path != []
    ensures Joining.AllFree('/', path) ==> Joining.AllFree('/', Parent(path))
  {
  }

  /** At a plain path that is what the operation on values does. */
  lemma DeleteAtPlain(db: Entries, path: Path)
    requires path != [] && Plain(path) && Parent(path) in db
    ensures Clean(Parent(path)) == Parent(path) && DeleteAt(db, path) == DeleteEntry(db, path)
  {
    PlainPrefix(path, |path| - 1);
    PlainPrefix(path, |path|);
    assert path[..|path|] == path;
  }

  // ---------------------------------------------------------------- the store

  /** A careful run removes only paths whose parent has a lock node. */
  lemma {:induction false} CarefulIsRemovable(t: Tree, next: nat, db: Entries, ops: seq<Op>)
    requires TreeOk(db) && Storable(db) && Agrees(t, next, db) && Careful(db, ops)
    ensures Removable(t, next, ops)
    decreases |ops|
  {
    if ops != [] {
      var before, op := ops[..|ops| - 1], ops[|ops| - 1];
      CarefulIsRemovable(t, next, db, before);
      CarefulRunAgrees(t, next, db, before);
      if op.DeleteOp? {
        DeleteHasNode(Replay(t, next, before).0, Replay(t, next, before).1, ApplyAll(db, before), op.path);
      }
    }
  }

  /** A deletion finds the lock node whose child it removes. */
  lemma DeleteHasNode(t: Tree, next: nat, db: Entries, path: Path)
    requires Agrees(t, next, db) && Accepted(db, DeleteOp(path))
    ensures Node(t, Parent(path)).Some?
  {
    assert Plain(Parent(path));
  }

  /** Deleting a path that has children, and then one below them, crashes: the children's entries are
      still there for the second deletion to be accepted, but their lock nodes are not. */
  lemma OrphanDeletionCrashes(t: Tree, next: nat, db: Entries, a: Key, b: Key, c: Key)
    requires TreeOk(db) && Agrees(t, next, db) && [a, b] in db
    requires Plain([a, b, c]) && Joining.AllFree('/', [a, b, c])
    ensures var first, second := DeleteOp([a]), DeleteOp([a, b, c]);
            && Accepted(db, first) && Accepted(Apply(db, first), second)
            && !Removable(t, next, [first, second])
  {
    var first, second := DeleteOp([a]), DeleteOp([a, b, c]);
    assert [a, b, c][0] == a && [a, b, c][1] == b && [a, b, c][2] == c;
    assert Parent([a]) == [] && Parent([a, b, c]) == [a, b];
    assert [first, second][..1] == [first] && [first][..0] == [];
    assert Replay(t, next, []) == (t, next);
    assert Node(t, []) == Some(ROOT);
    NodePrune(t, next, [], a, [a, b]);
    assert [] + [a] == [a] && [a] <= [a, b];
    assert Replay(t, next, [first]) == ApplyLock(t, next, first);
  }

  lemma {:induction false} RemovablePrefix(t: Tree, next: nat, ops: seq<Op>, i: nat)
    requires i <= |ops| && !Removable(t, next, ops[..i])
    ensures !Removable(t, next, ops)
    decreases |ops|
  {
    if i < |ops| {
      var before := ops[..|ops| - 1];
      assert before[..i] == ops[..i];
      RemovablePrefix(t, next, before, i);
    } else {
      assert ops[..i] == ops;
    }
  }

  lemma PruneKeepsForm(t: Tree, next: nat, path: Path)
    requires WellFormed(t, next) && path != [] && Node(t, Parent(path)).Some?
    ensures Node(t, Parent(path)).value in t
    ensures WellFormed(Prune(t, Node(t, Parent(path)).value, Name(path)), next)
  {
    NodePrune(t, next, Parent(path), Name(path), []);
  }

  lemma GrowKeepsForm(t: Tree, next: nat, path: Path)
    requires WellFormed(t, next)
    ensures WellFormed(Grow(t, ROOT, path, next).0, Grow(t, ROOT, path, next).1)
  {
    NodeInsert(t, next, path, []);
  }

  /** One commit function. */
  method RunCommit(locks: LockNodes.Nodes, op: Op) returns (crashed: bool)
    requires locks.Valid()
    modifies locks
    ensures locks.Valid()
    ensures crashed <==> op.DeleteOp? && op.path != [] && Node(old(locks.tree), Parent(op.path)).None?
    ensures !crashed ==> (locks.tree, locks.next) == ApplyLock(old(locks.tree), old(locks.next), op)
  {
    match op {
      case PutOp(path, _) =>
        GrowKeepsForm(locks.tree, locks.next, path);
        locks.Insert(ROOT, path);
        crashed := false;
      case DeleteOp(path) =>
        if path != [] && Node(locks.tree, Parent(path)).Some? {
          PruneKeepsForm(locks.tree, locks.next, path);
        }
        crashed := locks.Remove(ROOT, path);
    }
  }

  /** The commit functions of a transaction, run in order on the lock tree. They crash exactly if one of
      them removes a path whose parent has no lock node. */
  method RunCommits(locks: LockNodes.Nodes, ops: seq<Op>) returns (crashed: bool)
    requires locks.Valid()
    modifies locks
    ensures locks.Valid()
    ensures crashed <==> !Removable(old(locks.tree), old(locks.next), ops)
    ensures !crashed ==> (locks.tree, locks.next) == Replay(old(locks.tree), old(locks.next), ops)
  {
    ghost var t, n := locks.tree, locks.next;
    for i := 0 to |ops|
      invariant locks.Valid()
      invariant Removable(t, n, ops[..i])
      invariant (locks.tree, locks.next) == Replay(t, n, ops[..i])
    {
      assert ops[..i + 1][..i] == ops[..i];
      crashed := RunCommit(locks, ops[i]);
      if crashed {
        RemovablePrefix(t, n, ops, i + 1);
        return;
      }
    }
    assert ops[..|ops|] == ops;
    return false;
  }

  datatype Outcome = Committed | Refused | Crashed

  class Store {
    var ds: Entries
    const locks: LockNodes.Nodes

    /** The entries form a tree, and the lock tree has exactly their paths. */
    ghost predicate Valid()
      reads this, locks
    {
      TreeOk(ds) && Storable(ds) && Agrees(locks.tree, locks.next, ds)
    }

    /** Opening a store with the entries found, in the order `keys` in which the query yields them. */
    constructor (found: Entries, keys: seq<Path>)
      requires forall q :: q in keys <==> q == [] || q in found
      ensures locks.Valid() && fresh(locks)
      ensures ds == if [] in found then found else found[[] := Entry(Some([0]), {})]
      ensures (locks.tree, locks.next) == Reopened(keys)
      ensures found == map[] || (TreeOk(found) && Storable(found)) ==> Valid()
    {
      var entries := found;
      if [] !in found {
        entries := found[[] := Entry(Some([0]), {})];
      }
      var root := new LockNodes.Nodes();
      for i := 0 to |keys|
        invariant root.Valid() && fresh(root)
        invariant (root.tree, root.next) == Reopened(keys[..i])
      {
        assert keys[..i + 1][..i] == keys[..i];
        var components := if keys[i] == [] then [""] else keys[i];
        GrowKeepsForm(root.tree, root.next, components);
        root.Insert(ROOT, components);
      }
      assert keys[..|keys|] == keys;
      if found == map[] || (TreeOk(found) && Storable(found)) {
        ReopenAgrees(entries, keys);
      }
      ds, locks := entries, root;
    }

    /** Commit: the stored entries become the transaction's, then its commit functions run on the lock
        tree, in order. `written` says whether the database could commit. A transaction takes effect
        at most once. A careful one, alone since it was opened, keeps entries and locks in agreement. */
    method Commit(t: Transaction, written: bool) returns (outcome: Outcome)
      requires locks.Valid()
      modifies this, locks, t`open
      ensures locks.Valid() && !t.open
      ensures outcome == Refused <==> !(written && old(t.open))
      ensures outcome == Refused ==> ds == old(ds) && locks.tree == old(locks.tree) && locks.next == old(locks.next)
      ensures outcome != Refused ==> ds == t.txn
      ensures outcome == Crashed <==> written && old(t.open) && !Removable(old(locks.tree), old(locks.next), t.commits)
      ensures outcome == Committed ==> (locks.tree, locks.next) == Replay(old(locks.tree), old(locks.next), t.commits)
      ensures old(Valid()) && Careful(old(ds), t.commits) && t.txn == ApplyAll(old(ds), t.commits) ==>
        Valid() && outcome != Crashed
    {
      if !written || !t.open {
        t.open := false;
        return Refused;
      }
      t.open := false;
      if Valid() && Careful(ds, t.commits) {
        CarefulRunAgrees(locks.tree, locks.next, ds, t.commits);
        CarefulIsRemovable(locks.tree, locks.next, ds, t.commits);
      }
      ds := t.txn;
      var crashed := RunCommits(locks, t.commits);
      return if crashed then Crashed else Committed;
    }
  }

  // ---------------------------------------------------------------- a whole transaction

  /** One operation at a childless path, carried out by a transaction that has done only such ones. */
  method CarryOut(t: Transaction, op: Op, ghost base: Entries)
    requires t.open && TreeOk(base) && Storable(base)
    requires Careful(base, t.commits) && t.txn == ApplyAll(base, t.commits)
    requires Accepted(t.txn, op) && Childless(t.txn, op.path)
    modifies t
    ensures t.open && t.commits == old(t.commits) + [op]
    ensures Careful(base, t.commits) && t.txn == ApplyAll(base, t.commits)
  {
    CarefulKeepsTree(base, t.commits);
    CarefulSnoc(base, t.commits, op);
    assert Orderly(t.txn, op.path);
    match op {
      case PutOp(path, value) =>
        var ok := t.Put(value, path);
      case DeleteOp(path) =>
        DeleteAtPlain(t.txn, path);
        var ok := t.Delete(path);
    }
  }

  method CarryOutAll(t: Transaction, ops: seq<Op>, ghost base: Entries)
    requires t.open && t.commits == [] && t.txn == base && TreeOk(base) && Storable(base) && Careful(base, ops)
    modifies t
    ensures t.open && t.commits == ops && t.txn == ApplyAll(base, ops)
    decreases |ops|
  {
    if ops != [] {
      CarryOutAll(t, ops[..|ops| - 1], base);
      CarryOut(t, ops[|ops| - 1], base);
      assert ops == ops[..|ops| - 1] + [ops[|ops| - 1]];
    }
  }

  /** Opening a transaction, carrying out any operations at childless paths, and committing it leaves
      entries and locks in agreement: the entries as the operations make them, or, if the database
      could not commit, as they were. */
  method Transact(store: Store, ops: seq<Op>, written: bool) returns (outcome: Outcome)
    requires store.Valid() && Careful(store.ds, ops)
    modifies store, store.locks
    ensures store.Valid() && outcome == if written then Committed else Refused
    ensures store.ds == if written then ApplyAll(old(store.ds), ops) else old(store.ds)
  {
    var t := new Transaction(store.ds);
    CarryOutAll(t, ops, store.ds);
    outcome := store.Commit(t, written);
  }
}
