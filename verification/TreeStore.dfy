/**
 The transactional tree store (mdlstore/mdlockablestore_impl.go, mdlstore/utils.go): entries in a
 flat key space that list their children, kept in agreement with a tree of locks.
 */
module TreeStore {
  import opened Wrappers
  import opened LockTree
  import Joining

  type Data = seq<int>

  /** A stored value: the data and the names of the children. */
  datatype Entry = Entry(data: Option<Data>, children: set<Key>)

  /** The stored entries by path; PathKeysDistinct justifies reading keys as paths. */
  type Entries = map<Path, Entry>

  function Name(path: Path): Key
    requires path != []
  {
    path[|path| - 1]
  }

  // ---------------------------------------------------------------- keys

  /** path.Clean on a rooted path, component by component. */
  function Clean(path: Path): Path {
    if path == [] then []
    else
      var rest := Clean(Parent(path));
      if Name(path) == "" || Name(path) == "." then rest
      else if Name(path) == ".." then (if rest == [] then [] else Parent(rest))
      else rest + [Name(path)]
  }

  /** A component that the cleaning of a key leaves alone. */
  predicate PlainName(key: Key) {
    key != "" && key != "." && key != ".."
  }

  predicate Plain(path: Path) {
    forall i | 0 <= i < |path| :: PlainName(path[i])
  }

  /** The datastore key of a path; None if a component contains the separator. */
  function DSKey(path: Path): Option<string> {
    if Joining.AllFree('/', path) then Some("/" + Joining.Join('/', Clean(path))) else None
  }

  lemma {:induction false} CleanPlain(path: Path)
    ensures Plain(Clean(path)) && |Clean(path)| <= |path|
    ensures Clean(path) == path <==> Plain(path)
    ensures Clean(Clean(path)) == Clean(path)
    ensures forall i | 0 <= i < |Clean(path)| :: Clean(path)[i] in path
    decreases |path|, 1
  {
    if path != [] {
      CleanPlain(Parent(path));
      assert path == Parent(path) + [Name(path)];
    }
    CleanOfPlain(Clean(path));
  }

  lemma {:induction false} CleanOfPlain(path: Path)
    requires Plain(path)
    ensures Clean(path) == path
    decreases |path|, 0
  {
    if path != [] {
      CleanOfPlain(Parent(path));
      assert path == Parent(path) + [Name(path)];
    }
  }

  /** Cleaning takes a path component by component: empty ones and "." stand for nothing, ".." takes back the
      plain component before it and nothing at the root, and any other is kept. */
  lemma CleanStep(p: Path, k: Key)
    ensures Clean(p + [""]) == Clean(p) && Clean(p + ["."]) == Clean(p)
    ensures PlainName(k) ==> Clean(p + [k]) == Clean(p) + [k] && Clean(p + [k, ".."]) == Clean(p)
    ensures Clean(p) == [] ==> Clean(p + [".."]) == []
  {
    SnocParts(p, "");
    SnocParts(p, ".");
    SnocParts(p, "..");
    SnocParts(p, k);
    SnocParts(p + [k], "..");
    assert p + [k, ".."] == p + [k] + [".."];
  }

  lemma CleanIsFree(p: Path)
    requires Joining.AllFree('/', p)
    ensures Joining.AllFree('/', Clean(p)) && Plain(Clean(p))
  {
    CleanPlain(p);
    forall i | 0 <= i < |Clean(p)|
      ensures Joining.Free('/', Clean(p)[i])
    {
      var j :| 0 <= j < |p| && p[j] == Clean(p)[i];
    }
  }

  lemma JoinNotEmpty(p: Path)
    requires p != [] && Plain(p)
    ensures Joining.Join('/', p) != ""
  {
    assert PlainName(p[0]);
  }

  /** Two paths share their key exactly if cleaning makes the same path of both. */
  lemma KeyIsShared(p: Path, q: Path)
    requires Joining.AllFree('/', p) && Joining.AllFree('/', q)
    ensures DSKey(p) == DSKey(q) <==> Clean(p) == Clean(q)
    ensures Clean(p) == p <==> Plain(p)
  {
    var a, b := Clean(p), Clean(q);
    CleanIsFree(p);
    CleanIsFree(q);
    CleanPlain(p);
    assert ("/" + Joining.Join('/', a))[1..] == Joining.Join('/', a);
    assert ("/" + Joining.Join('/', b))[1..] == Joining.Join('/', b);
    if a != [] {
      JoinNotEmpty(a);
    }
    if b != [] {
      JoinNotEmpty(b);
    }
    if DSKey(p) == DSKey(q) && a != [] && b != [] {
      Joining.JoinInjective('/', a, b);
    }
  }

  /** Plain paths have their keys to themselves. */
  lemma PathKeysDistinct(p: Path, q: Path)
    requires Plain(p) && Plain(q) && DSKey(p).Some?
    ensures DSKey(p) == DSKey(q) <==> p == q
  {
    if DSKey(q).Some? {
      KeyIsShared(p, q);
      CleanOfPlain(p);
      CleanOfPlain(q);
    }
  }

  /** datastore.NewKey: roots and cleans a text. */
  function NewKey(text: string): string {
    "/" + Joining.Join('/', Clean(Joining.Split('/', text)))
  }

  /** What the loop has put together: every component so far, each followed by a separator. */
  function Trailed(path: Path): string {
    if path == [] then "" else Trailed(Parent(path)) + Name(path) + "/"
  }

  lemma {:induction false} TrailedJoin(path: Path)
    requires path != []
    ensures Trailed(path) == Joining.Join('/', path) + "/"
  {
    if |path| > 1 {
      TrailedJoin(Parent(path));
      JoinSnoc(Parent(path), Name(path));
      assert Parent(path) + [Name(path)] == path;
    } else {
      assert Parent(path) == [];
    }
  }

  lemma {:induction false} JoinSnoc(path: Path, k: Key)
    requires path != []
    ensures Joining.Join('/', path + [k]) == Joining.Join('/', path) + "/" + k
  {
    assert (path + [k])[1..] == path[1..] + [k];
    if |path| > 1 {
      JoinSnoc(path[1..], k);
      assert path[0] + "/" + (Joining.Join('/', path[1..]) + "/" + k)
          == path[0] + "/" + Joining.Join('/', path[1..]) + "/" + k;
    } else {
      assert path + [k] == [path[0], k] && [path[0], k][1..] == [k];
    }
  }

  method GetDSKey(path: Path) returns (key: Option<string>)
    ensures key == DSKey(path)
  {
    var mdKey := "";
    for i := 0 to |path|
      invariant mdKey == Trailed(path[..i])
      invariant forall j | 0 <= j < i :: Joining.Free('/', path[j])
    {
      if '/' in path[i] {
        return None;
      }
      mdKey := mdKey + path[i] + "/";
      assert path[..i + 1][..i] == path[..i];
    }
    assert path[..|path|] == path;
    if mdKey != "" {
      if path != [] { TrailedJoin(path); }
      // Every component has put a separator behind it; the last one goes.
      mdKey := mdKey[..|mdKey| - 1];
    }
    if path != [] {
      TrailedJoin(path);
      Joining.SplitJoin('/', path);
    } else {
      assert Joining.Split('/', "") == [""] && Clean([""]) == [];
    }
    key := Some(NewKey(mdKey));
  }

  // ---------------------------------------------------------------- the tree of entries

  /** A stored path other than the root is listed by its stored parent. */
  ghost predicate Listed(db: Entries, q: Path) {
    q in db && q != [] ==> Parent(q) in db && Name(q) in db[Parent(q)].children
  }

  /** A listed child is stored. */
  ghost predicate Stored(db: Entries, q: Path, c: Key) {
    q in db && c in db[q].children ==> q + [c] in db
  }

  /** Every stored path but the root is listed by its stored parent, and every listed child is stored. */
  ghost predicate TreeOk(db: Entries) {
    && [] in db
    && (forall q :: Listed(db, q))
    && (forall q, c :: Stored(db, q, c))
  }

  function EntryAt(db: Entries, q: Path): Entry {
    if q in db then db[q] else Entry(None, {})
  }

  /** Put: every prefix exists and lists the next one, and the path itself holds the value. */
  function PutEntry(db: Entries, path: Path, value: Data): Entries
    requires path != []
  {
    map q | q in db.Keys + (set j | 0 <= j <= |path| :: path[..j]) ::
      if q == path then Entry(Some(value), {})
      else if q <= path then Entry(EntryAt(db, q).data, EntryAt(db, q).children + {path[|q|]})
      else db[q]
  }

  /** Delete: the parent no longer lists the path, and the path is gone. */
  function DeleteEntry(db: Entries, path: Path): Entries
    requires path != [] && Parent(path) in db
  {
    var parent := db[Parent(path)];
    db[Parent(path) := Entry(parent.data, parent.children - {Name(path)})] - {path}
  }

  predicate Childless(db: Entries, path: Path) {
    path in db ==> db[path].children == {}
  }

  lemma SnocParts(q: Path, c: Key)
    ensures q + [c] != [] && Parent(q + [c]) == q && Name(q + [c]) == c
  {
  }

  lemma PrefixParent(q: Path, path: Path)
    requires q <= path && q != []
    ensures Parent(q) <= path && Parent(q) != path && path[|Parent(q)|] == Name(q)
  {
  }

  lemma PutKeys(db: Entries, path: Path, value: Data, q: Path)
    requires path != []
    ensures q in PutEntry(db, path, value) <==> q in db || q <= path
  {
    if q <= path {
      assert q == path[..|q|];
    }
  }

  /** Put keeps the tree of entries exactly when the path has no children: the value written
      forgets the children of an interior node. */
  lemma PutKeepsTree(db: Entries, path: Path, value: Data)
    requires TreeOk(db) && path != []
    ensures TreeOk(PutEntry(db, path, value)) <==> Childless(db, path)
  {
    if Childless(db, path) {
      PutListsAll(db, path, value);
    } else {
      var c :| c in db[path].children;
      SnocParts(path, c);
      PutKeys(db, path, value, path);
      PutKeys(db, path, value, path + [c]);
      assert Stored(db, path, c);
      assert !Listed(PutEntry(db, path, value), path + [c]);
    }
  }

  lemma PutListed(db: Entries, path: Path, value: Data, q: Path)
    requires Listed(db, q) && path != [] && Childless(db, path)
    ensures Listed(PutEntry(db, path, value), q)
  {
    PutKeys(db, path, value, q);
    if q != [] {
      PutKeys(db, path, value, Parent(q));
      if q <= path {
        PrefixParent(q, path);
      }
    }
  }

  lemma PutStored(db: Entries, path: Path, value: Data, q: Path, c: Key)
    requires Stored(db, q, c) && path != []
    ensures Stored(PutEntry(db, path, value), q, c)
  {
    PutKeys(db, path, value, q);
    PutKeys(db, path, value, q + [c]);
  }

  lemma PutListsAll(db: Entries, path: Path, value: Data)
    requires TreeOk(db) && path != [] && Childless(db, path)
    ensures TreeOk(PutEntry(db, path, value))
  {
    var db' := PutEntry(db, path, value);
    PutKeys(db, path, value, []);
    forall q
      ensures Listed(db', q)
    {
      assert Listed(db, q);
      PutListed(db, path, value, q);
    }
    forall q, c
      ensures Stored(db', q, c)
    {
      assert Stored(db, q, c);
      PutStored(db, path, value, q, c);
    }
  }

  lemma DeleteListed(db: Entries, path: Path, q: Path)
    requires Listed(db, q) && path != [] && Parent(path) in db && Childless(db, path)
    ensures Listed(DeleteEntry(db, path), q)
  {
    if q != [] {
      assert Parent(q) + [Name(q)] == q;
      assert Parent(path) + [Name(path)] == path;
    }
  }

  lemma DeleteStored(db: Entries, path: Path, q: Path, c: Key)
    requires Stored(db, q, c) && path != [] && Parent(path) in db
    ensures Stored(DeleteEntry(db, path), q, c)
  {
  }

  /** The same for Delete. */
  lemma DeleteKeepsTree(db: Entries, path: Path)
    requires TreeOk(db) && path != [] && Parent(path) in db
    ensures TreeOk(DeleteEntry(db, path)) <==> Childless(db, path)
  {
    if Childless(db, path) {
      DeleteListsAll(db, path);
    } else {
      var c :| c in db[path].children;
      SnocParts(path, c);
      assert Stored(db, path, c);
      assert !Listed(DeleteEntry(db, path), path + [c]);
    }
  }

  lemma DeleteListsAll(db: Entries, path: Path)
    requires TreeOk(db) && path != [] && Parent(path) in db && Childless(db, path)
    ensures TreeOk(DeleteEntry(db, path))
  {
    var db' := DeleteEntry(db, path);
    forall q
      ensures Listed(db', q)
    {
      assert Listed(db, q);
      DeleteListed(db, path, q);
    }
    forall q, c
      ensures Stored(db', q, c)
    {
      assert Stored(db, q, c);
      DeleteStored(db, path, q, c);
    }
  }

  // ---------------------------------------------------------------- what is read back

  /** After Put the value is read at the path, and everywhere else what was read before; the children are
      those from before and, above the path, the next component on it. */
  lemma PutReads(db: Entries, path: Path, value: Data, q: Path, c: Key)
    requires path != []
    ensures var after := EntryAt(PutEntry(db, path, value), q);
            if q == path then after == Entry(Some(value), {})
            else
              && after.data == EntryAt(db, q).data
              && (c in after.children <==> c in EntryAt(db, q).children || q + [c] <= path)
  {
    PutKeys(db, path, value, q);
    if q <= path && q != path {
      assert q + [path[|q|]] <= path;
      assert q + [c] <= path ==> (q + [c])[|q|] == path[|q|];
    }
    assert q + [c] <= path ==> q <= path && q != path;
  }

  /** After Delete nothing is read at the path, and everywhere else what was read before; only the parent has
      lost that child. */
  lemma DeleteReads(db: Entries, path: Path, q: Path, c: Key)
    requires path != [] && Parent(path) in db
    ensures path !in DeleteEntry(db, path) && (q != path ==> (q in DeleteEntry(db, path) <==> q in db))
    ensures q != path ==>
      var after := EntryAt(DeleteEntry(db, path), q);
      && after.data == EntryAt(db, q).data
      && (c in after.children <==> c in EntryAt(db, q).children && q + [c] != path)
  {
  }

  /** The last value put is the one that counts. */
  lemma PutOverwrites(db: Entries, path: Path, value: Data, value': Data)
    requires path != []
    ensures PutEntry(PutEntry(db, path, value), path, value') == PutEntry(db, path, value')
  {
    var once := PutEntry(db, path, value);
    forall q
      ensures q in PutEntry(once, path, value') <==> q in PutEntry(db, path, value')
      ensures q in PutEntry(db, path, value') ==> PutEntry(once, path, value')[q] == PutEntry(db, path, value')[q]
    {
      PutKeys(db, path, value, q);
      PutKeys(db, path, value', q);
      PutKeys(once, path, value', q);
    }
  }

  /** Deleting a path that was not there before it was put, under a parent that was, takes back all of it. */
  lemma DeleteUndoesPut(db: Entries, path: Path, value: Data)
    requires TreeOk(db) && path != [] && path !in db && Parent(path) in db
    ensures Parent(path) in PutEntry(db, path, value)
    ensures DeleteEntry(PutEntry(db, path, value), path) == db
  {
    PutKeys(db, path, value, Parent(path));
    forall q
      ensures q in DeleteEntry(PutEntry(db, path, value), path) <==> q in db
      ensures q in db ==> DeleteEntry(PutEntry(db, path, value), path)[q] == db[q]
    {
      PutKeys(db, path, value, q);
      UndoneAt(db, path, q);
    }
  }

  /** The components above a stored parent are listed already, and the last one is not. */
  lemma UndoneAt(db: Entries, path: Path, q: Path)
    requires TreeOk(db) && path != [] && path !in db && Parent(path) in db
    ensures q <= path && q != path ==> q in db
    ensures q <= path && q != path && q != Parent(path) ==> path[|q|] in db[q].children
    ensures Name(path) !in db[Parent(path)].children
  {
    assert Parent(path) + [Name(path)] == path;
    assert Stored(db, Parent(path), Name(path));
    if q <= path && q != path {
      PrefixStored(db, Parent(path), q);
      if q != Parent(path) {
        var child := path[..|q| + 1];
        assert Parent(child) == q && Name(child) == path[|q|];
        PrefixStored(db, Parent(path), child);
        assert Listed(db, child);
      }
    }
  }

  // ---------------------------------------------------------------- agreement with the lock tree

  datatype Op = PutOp(path: Path, value: Data) | DeleteOp(path: Path)

  /** An operation that is carried out: it names no root and no separator, and a deleted path's
      parent is there to be rewritten. */
  predicate Accepted(db: Entries, op: Op) {
    && op.path != [] && Plain(op.path) && Joining.AllFree('/', op.path)
    && (op.DeleteOp? ==> Parent(op.path) in db)
  }

  function Apply(db: Entries, op: Op): Entries
    requires Accepted(db, op)
  {
    match op
    case PutOp(path, value) => PutEntry(db, path, value)
    case DeleteOp(path) => DeleteEntry(db, path)
  }

  /** What a committed operation does to the lock tree. */
  function ApplyLock(t: Tree, next: nat, op: Op): (Tree, nat) {
    match op
    case PutOp(path, _) => Grow(t, ROOT, path, next)
    case DeleteOp(path) =>
      if path != [] && Node(t, Parent(path)).Some? && Node(t, Parent(path)).value in t
      then (Prune(t, Node(t, Parent(path)).value, Name(path)), next) else (t, next)
  }

  function Replay(t: Tree, next: nat, ops: seq<Op>): (Tree, nat) {
    if ops == [] then (t, next)
    else
      var (t', next') := Replay(t, next, ops[..|ops| - 1]);
      ApplyLock(t', next', ops[|ops| - 1])
  }

  /** The run never removes a path whose parent has no lock node. */
  predicate Removable(t: Tree, next: nat, ops: seq<Op>) {
    ops == [] || (
      && Removable(t, next, ops[..|ops| - 1])
      && var op := ops[|ops| - 1];
         op.DeleteOp? && op.path != [] ==> Node(Replay(t, next, ops[..|ops| - 1]).0, Parent(op.path)).Some?)
  }

  /** The plain paths in the lock tree are exactly the stored ones. (A reopened store has one more
      lock node, at the empty name, which no plain path reaches.) */
  ghost predicate Agrees(t: Tree, next: nat, db: Entries) {
    && WellFormed(t, next)
    && (forall q | q in db :: Plain(q))
    && (forall q | Plain(q) :: Node(t, q).Some? <==> q in db)
  }

  lemma {:induction false} PrefixStored(db: Entries, q: Path, p: Path)
    requires TreeOk(db) && q in db && p <= q
    ensures p in db
    decreases |q|
  {
    if p != q {
      assert Listed(db, q);
      PrefixStored(db, Parent(q), p);
    }
  }

  lemma ExtensionNotStored(db: Entries, path: Path, q: Path)
    requires TreeOk(db) && Childless(db, path) && path <= q && path != q
    ensures q !in db
  {
    var child := q[..|path| + 1];
    assert Parent(child) == path;
    assert Listed(db, child);
    if q in db {
      PrefixStored(db, q, child);
    }
  }

  lemma PutAgrees(t: Tree, next: nat, db: Entries, path: Path, value: Data)
    requires Agrees(t, next, db) && path != [] && Plain(path)
    ensures var (t', next') := Grow(t, ROOT, path, next); Agrees(t', next', PutEntry(db, path, value))
  {
    var (t', next') := Grow(t, ROOT, path, next);
    NodeInsert(t, next, path, []);
    forall q | Plain(q)
      ensures Node(t', q).Some? <==> q in PutEntry(db, path, value)
    {
      NodeInsert(t, next, path, q);
      PutKeys(db, path, value, q);
    }
  }

  lemma DeleteAgrees(t: Tree, next: nat, db: Entries, path: Path)
    requires Agrees(t, next, db) && TreeOk(db) && Accepted(db, DeleteOp(path)) && Childless(db, path)
    ensures var (t', next') := ApplyLock(t, next, DeleteOp(path)); Agrees(t', next', DeleteEntry(db, path))
  {
    var parent := Parent(path);
    assert path == parent + [Name(path)];
    NodePrune(t, next, parent, Name(path), []);
    var (t', _) := ApplyLock(t, next, DeleteOp(path));
    forall q | Plain(q)
      ensures Node(t', q).Some? <==> q in DeleteEntry(db, path)
    {
      NodePrune(t, next, parent, Name(path), q);
      if path <= q && path != q {
        ExtensionNotStored(db, path, q);
      }
    }
  }

  /** Every operation at a childless path keeps both the tree of entries and its agreement with
      the lock tree. */
  lemma OpKeepsAgreement(t: Tree, next: nat, db: Entries, op: Op)
    requires Agrees(t, next, db) && TreeOk(db) && Accepted(db, op) && Childless(db, op.path)
    ensures TreeOk(Apply(db, op))
    ensures var (t', next') := ApplyLock(t, next, op); Agrees(t', next', Apply(db, op))
  {
    match op {
      case PutOp(path, value) =>
        PutKeepsTree(db, path, value);
        PutAgrees(t, next, db, path, value);
      case DeleteOp(path) =>
        DeleteKeepsTree(db, path);
        DeleteAgrees(t, next, db, path);
    }
  }

  /** Opening a store inserts the stored keys into a new lock tree, in whatever order they come;
      the root's key reads as a path of one empty name. */
  function Reopened(keys: seq<Path>): (Tree, nat) {
    if keys == [] then (map[ROOT := map[]], 1)
    else
      var (t, next) := Reopened(keys[..|keys| - 1]);
      var key := keys[|keys| - 1];
      Grow(t, ROOT, if key == [] then [""] else key, next)
  }

  lemma BlankIsNotPlain(q: Path)
    ensures Plain(q) && q <= [""] ==> q == []
  {
    if q != [] && Plain(q) {
      assert PlainName(q[0]);
    }
  }

  lemma {:induction false} ReopenedNodes(keys: seq<Path>, q: Path)
    requires Plain(q)
    ensures var (t, next) := Reopened(keys);
            && WellFormed(t, next)
            && (Node(t, q).Some? <==> q == [] || exists i | 0 <= i < |keys| :: q <= keys[i])
  {
    if keys != [] {
      var before, key := keys[..|keys| - 1], keys[|keys| - 1];
      ReopenedNodes(before, q);
      var (t, next) := Reopened(before);
      NodeInsert(t, next, if key == [] then [""] else key, q);
      BlankIsNotPlain(q);
      assert forall i | 0 <= i < |before| :: keys[i] == before[i];
    }
  }

  /** After reopening, in any order of the keys, the lock tree agrees with the store again. */
  lemma ReopenAgrees(db: Entries, keys: seq<Path>)
    requires TreeOk(db) && (forall q | q in db :: Plain(q))
    requires forall q :: q in keys <==> q in db
    ensures var (t, next) := Reopened(keys); Agrees(t, next, db)
  {
    var (t, next) := Reopened(keys);
    ReopenedNodes(keys, []);
    forall q | Plain(q)
      ensures Node(t, q).Some? <==> q in db
    {
      ReopenedNodes(keys, q);
      if q in db {
        var i :| 0 <= i < |keys| && keys[i] == q;
      }
      if i :| 0 <= i < |keys| && q <= keys[i] {
        PrefixStored(db, keys[i], q);
      }
    }
  }

  // ---------------------------------------------------------------- the store in place

  /** The entry at q once the prefixes of `path` below length i exist and list each other. */
  function StageEntry(db: Entries, path: Path, i: nat, q: Path): Entry {
    if q <= path && |q| < |path| && |q| + 1 < i then Entry(EntryAt(db, q).data, EntryAt(db, q).children + {path[|q|]})
    else EntryAt(db, q)
  }

  /** What Put has made of db before round i of its loop. */
  ghost predicate Stage(db: Entries, txn: Entries, path: Path, i: nat) {
    && (forall q :: q in txn <==> q in db || (q <= path && |q| < i))
    && (forall q | q in txn :: txn[q] == StageEntry(db, path, i, q))
  }

  lemma StageStart(db: Entries, path: Path)
    requires TreeOk(db) && path != []
    ensures Stage(db, db, path, 1)
  {
  }

  lemma StageParent(db: Entries, txn: Entries, path: Path, i: nat)
    requires TreeOk(db) && 1 <= i <= |path| && Stage(db, txn, path, i)
    ensures path[..i - 1] in txn && txn[path[..i - 1]] == EntryAt(db, path[..i - 1])
  {
  }

  /** A round that finds path[..i] listed has nothing to do. */
  lemma StageListed(db: Entries, txn: Entries, path: Path, i: nat)
    requires TreeOk(db) && 1 <= i < |path| && Stage(db, txn, path, i)
    requires path[i - 1] in EntryAt(db, path[..i - 1]).children
    ensures Stage(db, txn, path, i + 1)
  {
    var parent, sub := path[..i - 1], path[..i];
    assert Parent(sub) == parent && Name(sub) == path[i - 1];
    SubStoredIffListed(db, sub);
    forall q
      ensures q in txn <==> q in db || (q <= path && |q| < i + 1)
      ensures q in txn ==> StageEntry(db, path, i, q) == StageEntry(db, path, i + 1, q)
    {
      if q <= path {
        assert q == path[..|q|];
      }
    }
  }

  /** Otherwise it lists path[..i] in its parent and creates it. */
  lemma StageUnlisted(db: Entries, txn: Entries, path: Path, i: nat, txn': Entries)
    requires TreeOk(db) && 1 <= i < |path| && Stage(db, txn, path, i)
    requires path[i - 1] !in EntryAt(db, path[..i - 1]).children
    requires path[..i - 1] in txn
    requires txn' == txn[path[..i - 1] := Entry(txn[path[..i - 1]].data, txn[path[..i - 1]].children + {path[i - 1]})]
                        [path[..i] := Entry(None, {})]
    ensures Stage(db, txn', path, i + 1)
  {
    assert Parent(path[..i]) == path[..i - 1] && Name(path[..i]) == path[i - 1];
    SubStoredIffListed(db, path[..i]);
    forall q
      ensures q in txn' <==> q in db || (q <= path && |q| < i + 1)
      ensures q in txn' ==> txn'[q] == StageEntry(db, path, i + 1, q)
    {
      PrefixOrOther(path, q);
      if q != path[..i] && q != path[..i - 1] {
        assert q in txn' <==> q in txn;
        assert q in txn ==> txn'[q] == txn[q] == StageEntry(db, path, i, q);
      }
    }
  }

  lemma PrefixOrOther(path: Path, q: Path)
    ensures q <= path ==> q == path[..|q|]
  {
  }

  /** After the loop Put lists the path in its parent and writes its value. */
  lemma StageLastAt(db: Entries, txn: Entries, path: Path, value: Data, txn': Entries, q: Path)
    requires TreeOk(db) && path != [] && Stage(db, txn, path, |path|)
    requires Parent(path) in txn
    requires txn' == txn[Parent(path) := Entry(txn[Parent(path)].data, txn[Parent(path)].children + {Name(path)})]
                        [path := Entry(Some(value), {})]
    ensures q in txn' <==> q in PutEntry(db, path, value)
    ensures q in txn' ==> txn'[q] == PutEntry(db, path, value)[q]
  {
    PutKeys(db, path, value, q);
    PrefixOrOther(path, q);
    if q != path && q != Parent(path) {
      assert q in txn' <==> q in txn;
      assert q in txn ==> txn'[q] == txn[q] == StageEntry(db, path, |path|, q);
    }
  }

  lemma StageLast(db: Entries, txn: Entries, path: Path, value: Data, txn': Entries)
    requires TreeOk(db) && path != [] && Stage(db, txn, path, |path|)
    requires Parent(path) in txn
    requires txn' == txn[Parent(path) := Entry(txn[Parent(path)].data, txn[Parent(path)].children + {Name(path)})]
                        [path := Entry(Some(value), {})]
    ensures txn' == PutEntry(db, path, value)
  {
    forall q
      ensures q in txn' <==> q in PutEntry(db, path, value)
      ensures q in txn' ==> txn'[q] == PutEntry(db, path, value)[q]
    {
      StageLastAt(db, txn, path, value, txn', q);
    }
  }

  lemma SubStoredIffListed(db: Entries, sub: Path)
    requires TreeOk(db) && sub != []
    ensures sub in db <==> Parent(sub) in db && Name(sub) in db[Parent(sub)].children
  {
    assert Parent(sub) + [Name(sub)] == sub;
    assert Listed(db, sub);
    assert sub != [] && Stored(db, Parent(sub), Name(sub));
  }
}
