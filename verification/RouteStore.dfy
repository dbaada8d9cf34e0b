/**
 The route store (routestore/routestore_impl.go, routestore/utils.go) for one currency: the routes
 known from each direct neighbour, each until it expires, under the key of its joined addresses.
 */
module RouteStore {
  import opened Wrappers
  import Joining

  type Time = int
  type Addr = string
  type Route = seq<Addr>

  /** The routes from one neighbour: by destination, then by key, with their expiry. */
  type Routes = map<Addr, map<string, Time>>

  datatype Outcome = Done | Refused | Crashed

  function Last(r: Route): Addr
    requires r != []
  {
    r[|r| - 1]
  }

  function Expiry(m: Routes, dest: Addr, key: string): Option<Time> {
    if dest in m && key in m[dest] then Some(m[dest][key]) else None
  }

  /** What of an entry is left at a time. */
  function Alive(expiry: Option<Time>, now: Time): Option<Time> {
    if expiry.Some? && now < expiry.value then expiry else None
  }

  // ---------------------------------------------------------------- trimming and cleaning

  function Cut(route: Route, maxHop: nat): Route {
    if |route| > maxHop then route[..maxHop] else route
  }

  /** Trimming keeps the longest part of the route that is short enough. */
  lemma CutIsLongest(route: Route, maxHop: nat, q: Route)
    ensures q <= Cut(route, maxHop) <==> q <= route && |q| <= maxHop
  {
  }

  /** No address comes twice, and the node's own not at all. */
  predicate Acyclic(root: Addr, r: Route) {
    forall i | 0 <= i < |r| :: r[i] != root && r[i] !in r[..i]
  }

  /** The node itself and the addresses are all different. */
  lemma AcyclicIff(root: Addr, r: Route)
    ensures Acyclic(root, r) <==> root !in r && (forall i, j | 0 <= i < j < |r| :: r[i] != r[j])
  {
  }

  method TrimRoute(root: Addr, route: Route, maxHop: nat) returns (trimmed: Option<Route>)
    ensures trimmed == if |route| != 1 && Acyclic(root, Cut(route, maxHop)) then Some(Cut(route, maxHop)) else None
  {
    if |route| == 1 {
      return None;
    }
    var r := route;
    if |r| > maxHop {
      r := r[..maxHop];
    }
    var visited := {root};
    for i := 0 to |r|
      invariant visited == {root} + set node | node in r[..i]
      invariant Acyclic(root, r[..i])
    {
      if r[i] in visited {
        return None;
      }
      visited := visited + {r[i]};
      assert r[..i + 1] == r[..i] + [r[i]] && r[..i + 1][..i] == r[..i];
      assert forall j | 0 <= j < i :: r[..i + 1][..j] == r[..i][..j];
    }
    assert r[..|r|] == r;
    return Some(r);
  }

  /** Drops the expired routes of one destination. */
  method CleanDestination(routes: map<string, Time>, now: Time) returns (temp: map<string, Time>)
    ensures temp == map key | key in routes && now < routes[key] :: routes[key]
  {
    temp := map[];
    var keys := routes.Keys;
    while keys != {}
      invariant keys <= routes.Keys
      invariant temp == map key | key in routes && key !in keys && now < routes[key] :: routes[key]
    {
      var key :| key in keys;
      keys := keys - {key};
      if now < routes[key] {
        temp := temp[key := routes[key]];
      }
    }
  }

  method Cleanup(m: Routes, now: Time) returns (live: Routes)
    ensures forall dest, key :: Expiry(live, dest, key) == Alive(Expiry(m, dest, key), now)
    ensures forall dest | dest in live :: live[dest] != map[]
  {
    live := map[];
    var dests := m.Keys;
    while dests != {}
      invariant dests <= m.Keys
      invariant forall dest | dest in live :: dest !in dests && live[dest] != map[]
      invariant forall dest, key | dest !in dests :: Expiry(live, dest, key) == Alive(Expiry(m, dest, key), now)
    {
      var dest :| dest in dests;
      dests := dests - {dest};
      var temp := CleanDestination(m[dest], now);
      assert |temp| == 0 ==> forall key :: key !in temp;
      assert forall key :: Alive(Expiry(m, dest, key), now) == if key in temp then Some(temp[key]) else None;
      if |temp| > 0 {
        live := live[dest := temp];
      }
    }
  }

  // ---------------------------------------------------------------- what is stored

  /** A route worth keeping. */
  predicate Good(root: Addr, maxHop: nat, r: Route) {
    2 <= |r| <= maxHop && Acyclic(root, r)
  }

  /** Every key is that of a good route, filed under its source and its destination. */
  ghost predicate FiledWell(root: Addr, maxHop: nat, src: Addr, m: Routes) {
    forall dest, key | Expiry(m, dest, key).Some? ::
      var r := Joining.Split('-', key);
      Good(root, maxHop, r) && r[0] == src && Last(r) == dest
  }

  lemma PrefixIsGood(root: Addr, maxHop: nat, r: Route, i: nat)
    requires Acyclic(root, r) && 2 <= i <= |r| <= maxHop
    ensures Good(root, maxHop, r[..i])
  {
  }

  /** A route is entered under its own key only. */
  predicate IsEntry(dest: Addr, key: string, r: Route) {
    r != [] && dest == Last(r) && key == Joining.Join('-', r)
  }

  /** The entry is for one of the prefixes of a route from length i on. */
  ghost predicate IsPrefixEntry(dest: Addr, key: string, route: Route, i: nat) {
    exists j :: i <= j <= |route| && IsEntry(dest, key, route[..j])
  }

  /** The loop of AddRoute: enters every prefix that has at least two addresses. */
  method AddPrefixes(m: Routes, route: Route, expiry: Time) returns (m': Routes)
    requires route != []
    ensures forall dest, key ::
      Expiry(m', dest, key) == if IsPrefixEntry(dest, key, route, 2) then Some(expiry) else Expiry(m, dest, key)
  {
    m' := m;
    var i := |route| - 1;
    while i >= 1
      invariant 0 <= i < |route|
      invariant forall dest, key ::
        Expiry(m', dest, key) == if IsPrefixEntry(dest, key, route, i + 2) then Some(expiry) else Expiry(m, dest, key)
    {
      var dest := route[i];
      var key := Joining.Join('-', route[..i + 1]);
      ghost var before := m';
      if dest !in m' {
        m' := m'[dest := map[]];
      }
      m' := m'[dest := m'[dest][key := expiry]];
      forall d, k
        ensures Expiry(m', d, k) == if d == dest && k == key then Some(expiry) else Expiry(before, d, k)
        ensures IsPrefixEntry(d, k, route, i + 1) <==> (d == dest && k == key) || IsPrefixEntry(d, k, route, i + 2)
      {
        PrefixEntryStep(d, k, route, i);
      }
      i := i - 1;
    }
  }

  lemma PrefixEntryStep(dest: Addr, key: string, route: Route, i: nat)
    requires i < |route|
    ensures IsPrefixEntry(dest, key, route, i + 1) <==>
      (dest == route[i] && key == Joining.Join('-', route[..i + 1])) || IsPrefixEntry(dest, key, route, i + 2)
  {
  }

  lemma PrefixFree(route: Route, j: nat)
    requires Joining.AllFree('-', route) && j <= |route|
    ensures Joining.AllFree('-', route[..j])
  {
  }

  /** For a route of separator-free addresses the entries of its prefixes are told from all others. */
  lemma EntryOfPrefix(route: Route, r: Route)
    requires Joining.AllFree('-', route) && Joining.AllFree('-', r) && r != []
    ensures IsPrefixEntry(Last(r), Joining.Join('-', r), route, 2) <==> 2 <= |r| && r <= route
  {
    if IsPrefixEntry(Last(r), Joining.Join('-', r), route, 2) {
      var j :| 2 <= j <= |route| && IsEntry(Last(r), Joining.Join('-', r), route[..j]);
      PrefixFree(route, j);
      Joining.JoinInjective('-', r, route[..j]);
    }
    if 2 <= |r| && r <= route {
      assert r == route[..|r|];
      assert IsEntry(Last(r), Joining.Join('-', r), route[..|r|]);
    }
  }

  /** Entering the prefixes of a good route leaves good routes only. */
  lemma AddedFiledWell(root: Addr, maxHop: nat, route: Route, m: Routes, m': Routes, expiry: Time)
    requires Joining.AllFree('-', route) && Acyclic(root, route) && 0 < |route| <= maxHop
    requires FiledWell(root, maxHop, route[0], m)
    requires forall dest, key ::
      Expiry(m', dest, key) == if IsPrefixEntry(dest, key, route, 2) then Some(expiry) else Expiry(m, dest, key)
    ensures FiledWell(root, maxHop, route[0], m')
  {
    forall dest, key | Expiry(m', dest, key).Some?
      ensures var r := Joining.Split('-', key);
              Good(root, maxHop, r) && r[0] == route[0] && Last(r) == dest
    {
      if IsPrefixEntry(dest, key, route, 2) {
        var j :| 2 <= j <= |route| && IsEntry(dest, key, route[..j]);
        PrefixFree(route, j);
        Joining.SplitJoin('-', route[..j]);
        PrefixIsGood(root, maxHop, route, j);
      } else {
        assert Expiry(m, dest, key).Some?;
      }
    }
  }

  /** A route with a separator in an address leaves an entry that is filed wrongly. */
  lemma BlockedFiledBadly(root: Addr, maxHop: nat, route: Route, m': Routes)
    requires !Joining.AllFree('-', route) && |route| >= 2
    requires forall dest, key :: IsPrefixEntry(dest, key, route, 2) ==> Expiry(m', dest, key).Some?
    ensures !FiledWell(root, maxHop, route[0], m')
  {
    var b :| 0 <= b < |route| && !Joining.Free('-', route[b]);
    var j := if b == 0 then 2 else b + 1;
    var prefix := route[..j];
    var dest, key := Last(prefix), Joining.Join('-', prefix);
    assert IsEntry(dest, key, route[..j]);
    assert IsPrefixEntry(dest, key, route, 2);
    var r := Joining.Split('-', key);
    Joining.JoinSplit('-', key);
    assert Joining.Free('-', r[0]) && Joining.Free('-', Last(r));
    assert Expiry(m', dest, key).Some?;
  }

  /** When a route is stored, until when. */
  function Held(db: map<Addr, Routes>, r: Route): Option<Time>
    requires r != []
  {
    if r[0] in db then Expiry(db[r[0]], Last(r), Joining.Join('-', r)) else None
  }

  lemma FiledRoutes(root: Addr, maxHop: nat, db: map<Addr, Routes>, src: Addr, dest: Addr, key: string)
    requires src in db && FiledWell(root, maxHop, src, db[src]) && Expiry(db[src], dest, key).Some?
    ensures var r := Joining.Split('-', key);
            && r != [] && Joining.AllFree('-', r) && Joining.Join('-', r) == key
            && r[0] == src && Last(r) == dest && Good(root, maxHop, r)
            && Held(db, r) == Expiry(db[src], dest, key)
  {
    Joining.JoinSplit('-', key);
  }

  /** What AddRoute makes of the stored routes: every prefix of the trimmed route of at least two
      addresses is held until the new expiry; of the other routes from its source, those that
      have not expired stay; routes from other sources are not touched. */
  ghost predicate Added(db: map<Addr, Routes>, db': map<Addr, Routes>, trimmed: Route, now: Time, expiry: Time)
    requires trimmed != []
  {
    && db'.Keys == db.Keys
    && forall r | r != [] && Joining.AllFree('-', r) ::
         Held(db', r) == if 2 <= |r| && r <= trimmed then Some(expiry)
                         else if r[0] == trimmed[0] then Alive(Held(db, r), now)
                         else Held(db, r)
  }

  /** The same for RemoveRoute: exactly the trimmed route goes, its prefixes do not. */
  ghost predicate Removed(db: map<Addr, Routes>, db': map<Addr, Routes>, trimmed: Route, now: Time)
    requires trimmed != []
  {
    && db'.Keys == db.Keys
    && forall r | r != [] && Joining.AllFree('-', r) ::
         Held(db', r) == if r == trimmed then None
                         else if r[0] == trimmed[0] then Alive(Held(db, r), now)
                         else Held(db, r)
  }

  /** Between two changes to its neighbour's routes a route that was added stays for the time it was given,
      up to the very moment and not for longer. */
  lemma AddedLivesUntil(db: map<Addr, Routes>, db': map<Addr, Routes>, trimmed: Route, now: Time, ttl: Time, r: Route, u: Time)
    requires trimmed != [] && Added(db, db', trimmed, now, now + ttl)
    requires Joining.AllFree('-', r) && 2 <= |r| && r <= trimmed
    ensures Alive(Held(db', r), u).Some? <==> u - now < ttl
  {
  }

  class RouteStore {
    const root: Addr
    const maxHop: nat
    var db: map<Addr, Routes>

    /** Every stored route starts at the neighbour it is filed under, ends at its destination, has no
        cycle, avoids this node, and has two to maxHop addresses. */
    ghost predicate Valid()
      reads this
    {
      root !in db && forall src | src in db :: FiledWell(root, maxHop, src, db[src])
    }

    constructor (root: Addr, maxHop: nat)
      ensures Valid() && db == map[] && this.root == root && this.maxHop == maxHop
    {
      this.root, this.maxHop, db := root, maxHop, map[];
    }

    method AddDirectLink(toAddr: Addr) returns (ok: bool)
      requires Valid()
      modifies this`db
      ensures Valid() && (ok <==> toAddr != root)
      ensures db == if !ok || toAddr in old(db) then old(db) else old(db)[toAddr := map[]]
    {
      if root == toAddr {
        return false;
      }
      if toAddr !in db {
        db := db[toAddr := map[]];
      }
      return true;
    }

    method RemoveDirectLink(toAddr: Addr)
      requires Valid()
      modifies this`db
      ensures Valid() && db == old(db) - {toAddr}
    {
      if toAddr in db {
        db := db - {toAddr};
      } else {
        assert db - {toAddr} == db;
      }
    }

    /** AddRoute. Trimming lets an empty route pass, and leaves one if no hop is allowed: it crashes
        exactly then. A route with "-" in an address is filed under keys that lead elsewhere. */
    method AddRoute(route: Route, now: Time, ttl: Time) returns (outcome: Outcome)
      requires Valid()
      modifies this`db
      ensures outcome == Crashed <==> |route| != 1 && Cut(route, maxHop) == []
      ensures outcome == Done <==>
        |route| > 1 && maxHop > 0 && Acyclic(root, Cut(route, maxHop)) && route[0] in old(db)
      ensures outcome != Done ==> db == old(db)
      ensures outcome == Done ==> db.Keys == old(db).Keys && (forall src | src in db && src != route[0] :: db[src] == old(db)[src])
      ensures outcome == Done ==> forall dest, key ::
        Expiry(db[route[0]], dest, key) ==
          if IsPrefixEntry(dest, key, Cut(route, maxHop), 2) then Some(now + ttl)
          else Alive(Expiry(old(db)[route[0]], dest, key), now)
      ensures Valid() <==> outcome == Done && |Cut(route, maxHop)| > 1 ==> Joining.AllFree('-', Cut(route, maxHop))
      ensures outcome == Done && Joining.AllFree('-', Cut(route, maxHop)) ==>
        Added(old(db), db, Cut(route, maxHop), now, now + ttl)
    {
      var trimmed := TrimRoute(root, route, maxHop);
      if trimmed.None? {
        return Refused;
      }
      var r := trimmed.value;
      if |r| == 0 {
        return Crashed;
      }
      if r[0] !in db {
        return Refused;
      }
      ghost var before := db;
      var routesMap := Cleanup(db[r[0]], now);
      var added := AddPrefixes(routesMap, r, now + ttl);
      CleanedFiledWell(root, maxHop, r[0], db[r[0]], routesMap, now);
      AddedFiledWellIff(root, maxHop, r, routesMap, added, now + ttl);
      db := db[r[0] := added];
      if Joining.AllFree('-', r) {
        AddedIsAdded(before, routesMap, added, r, now, now + ttl);
      }
      return Done;
    }

    /** RemoveRoute takes out the one entry under the key of the trimmed route: for a route with "-" in an
        address that of another route. */
    method RemoveRoute(route: Route, now: Time) returns (outcome: Outcome)
      requires Valid()
      modifies this`db
      ensures Valid()
      ensures outcome == Crashed <==> |route| != 1 && Cut(route, maxHop) == []
      ensures outcome == Done <==>
        |route| > 1 && maxHop > 0 && Acyclic(root, Cut(route, maxHop)) && Held(old(db), Cut(route, maxHop)).Some?
      ensures outcome != Done ==> db == old(db)
      ensures outcome == Done ==>
        var removed := Joining.Split('-', Joining.Join('-', Cut(route, maxHop)));
        && removed != [] && Removed(old(db), db, removed, now)
        && (removed == Cut(route, maxHop) <==> Joining.AllFree('-', Cut(route, maxHop)))
    {
      var trimmed := TrimRoute(root, route, maxHop);
      if trimmed.None? {
        return Refused;
      }
      var r := trimmed.value;
      if |r| == 0 {
        return Crashed;
      }
      if r[0] !in db {
        return Refused;
      }
      var dest, key := r[|r| - 1], Joining.Join('-', r);
      if dest !in db[r[0]] || key !in db[r[0]][dest] {
        return Refused;
      }
      RemoveEntry(r[0], dest, key, now);
      if Joining.AllFree('-', r) {
        Joining.SplitJoin('-', r);
      }
      return Done;
    }

    /** Cleans the routes of one neighbour and takes out one entry. */
    method RemoveEntry(src: Addr, dest: Addr, key: string, now: Time)
      requires Valid() && src in db && Expiry(db[src], dest, key).Some?
      modifies this`db
      ensures Valid()
      ensures var r := Joining.Split('-', key);
              r != [] && Joining.AllFree('-', r) && Removed(old(db), db, r, now)
    {
      ghost var before := db;
      FiledRoutes(root, maxHop, db, src, dest, key);
      var routesMap := Cleanup(db[src], now);
      CleanedFiledWell(root, maxHop, src, db[src], routesMap, now);
      ghost var cleaned := routesMap;
      if dest in routesMap {
        routesMap := routesMap[dest := routesMap[dest] - {key}];
      }
      db := db[src := routesMap];
      RemovedIsRemoved(before, cleaned, routesMap, Joining.Split('-', key), now);
    }

    /** ListRoutesTo yields exactly the live stored routes to a destination. */
    method ListRoutesTo(toAddr: Addr, now: Time) returns (out: set<Route>)
      requires Valid()
      ensures forall r :: r in out <==>
        r != [] && Joining.AllFree('-', r) && Last(r) == toAddr && Alive(Held(db, r), now).Some?
      ensures forall r | r in out :: Good(root, maxHop, r) && r[0] in db
    {
      out := {};
      var children := db.Keys;
      while children != {}
        invariant children <= db.Keys
        invariant forall r :: r in out <==>
          r != [] && Joining.AllFree('-', r) && Last(r) == toAddr && Alive(Held(db, r), now).Some? && r[0] !in children
      {
        var src :| src in children;
        children := children - {src};
        var routes := Listed(src, toAddr, now);
        out := out + routes;
      }
      forall r | r in out
        ensures Good(root, maxHop, r) && r[0] in db
      {
        FiledRoutes(root, maxHop, db, r[0], Last(r), Joining.Join('-', r));
        Joining.SplitJoin('-', r);
      }
    }

    /** ListRoutesFrom yields the direct link itself and exactly the live stored routes through it.
        `cancelled` says that the caller's context has ended when the direct link is to be yielded: then
        nothing is, and the read lock, otherwise released exactly once, is never given back. */
    method ListRoutesFrom(src: Addr, now: Time, cancelled: bool) returns (out: set<Route>, releases: nat)
      requires Valid()
      ensures forall r :: r in out <==>
        src in db && !cancelled &&
        (r == [src] || (r != [] && Joining.AllFree('-', r) && r[0] == src && Alive(Held(db, r), now).Some?))
      ensures releases == if src in db && cancelled then 0 else 1
    {
      releases := 0;
      if src !in db {
        releases := releases + 1;
        return {}, releases;
      }
      if cancelled {
        return {}, releases;
      }
      out := {[src]};
      releases := releases + 1;
      var dests := db[src].Keys;
      while dests != {}
        invariant dests <= db[src].Keys
        invariant forall r :: r in out <==>
          r == [src] ||
          (r != [] && Joining.AllFree('-', r) && r[0] == src && Last(r) !in dests && Alive(Held(db, r), now).Some?)
      {
        var dest :| dest in dests;
        dests := dests - {dest};
        var routes := Listed(src, dest, now);
        out := out + routes;
      }
    }

    /** The live routes from one neighbour to a destination. */
    method Listed(src: Addr, toAddr: Addr, now: Time) returns (out: set<Route>)
      requires Valid() && src in db
      ensures forall r :: r in out <==>
        r != [] && Joining.AllFree('-', r) && r[0] == src && Last(r) == toAddr && Alive(Held(db, r), now).Some?
    {
      var routesMap := Cleanup(db[src], now);
      if toAddr !in routesMap {
        assert forall key :: Expiry(routesMap, toAddr, key) == Alive(Expiry(db[src], toAddr, key), now);
        return {};
      }
      out := set key | key in routesMap[toAddr] :: Joining.Split('-', key);
      forall r
        ensures r in out <==>
          r != [] && Joining.AllFree('-', r) && r[0] == src && Last(r) == toAddr && Alive(Held(db, r), now).Some?
      {
        ListedExactly(root, maxHop, db, src, toAddr, routesMap, now, r);
      }
    }
  }

  lemma CleanedFiledWell(root: Addr, maxHop: nat, src: Addr, m: Routes, m': Routes, now: Time)
    requires FiledWell(root, maxHop, src, m)
    requires forall dest, key :: Expiry(m', dest, key) == Alive(Expiry(m, dest, key), now)
    ensures FiledWell(root, maxHop, src, m')
  {
  }

  /** Entering the prefixes of a route keeps the filing exactly if its addresses contain no separator. */
  lemma AddedFiledWellIff(root: Addr, maxHop: nat, route: Route, m: Routes, m': Routes, expiry: Time)
    requires Acyclic(root, route) && 0 < |route| <= maxHop
    requires FiledWell(root, maxHop, route[0], m)
    requires forall dest, key ::
      Expiry(m', dest, key) == if IsPrefixEntry(dest, key, route, 2) then Some(expiry) else Expiry(m, dest, key)
    ensures FiledWell(root, maxHop, route[0], m') <==> |route| > 1 ==> Joining.AllFree('-', route)
  {
    if |route| == 1 {
      forall dest, key | Expiry(m', dest, key).Some?
        ensures Expiry(m, dest, key).Some?
      {
        assert !IsPrefixEntry(dest, key, route, 2);
      }
    } else if Joining.AllFree('-', route) {
      AddedFiledWell(root, maxHop, route, m, m', expiry);
    } else {
      BlockedFiledBadly(root, maxHop, route, m');
    }
  }

  lemma AddedIsAdded(db: map<Addr, Routes>, cleaned: Routes, added: Routes, r: Route, now: Time, expiry: Time)
    requires r != [] && Joining.AllFree('-', r) && r[0] in db
    requires forall dest, key :: Expiry(cleaned, dest, key) == Alive(Expiry(db[r[0]], dest, key), now)
    requires forall dest, key ::
      Expiry(added, dest, key) == if IsPrefixEntry(dest, key, r, 2) then Some(expiry) else Expiry(cleaned, dest, key)
    ensures Added(db, db[r[0] := added], r, now, expiry)
  {
    forall q | q != [] && Joining.AllFree('-', q)
      ensures Held(db[r[0] := added], q)
           == if 2 <= |q| && q <= r then Some(expiry) else if q[0] == r[0] then Alive(Held(db, q), now) else Held(db, q)
    {
      EntryOfPrefix(r, q);
    }
  }

  lemma RemovedIsRemoved(db: map<Addr, Routes>, cleaned: Routes, left: Routes, r: Route, now: Time)
    requires r != [] && Joining.AllFree('-', r) && r[0] in db
    requires forall dest, key :: Expiry(cleaned, dest, key) == Alive(Expiry(db[r[0]], dest, key), now)
    requires left == if Last(r) in cleaned then cleaned[Last(r) := cleaned[Last(r)] - {Joining.Join('-', r)}] else cleaned
    ensures Removed(db, db[r[0] := left], r, now)
    ensures forall dest, key | Expiry(left, dest, key).Some? :: Expiry(cleaned, dest, key).Some?
  {
    forall q | q != [] && Joining.AllFree('-', q)
      ensures Held(db[r[0] := left], q)
           == if q == r then None else if q[0] == r[0] then Alive(Held(db, q), now) else Held(db, q)
    {
      if Joining.Join('-', q) == Joining.Join('-', r) {
        Joining.JoinInjective('-', q, r);
      }
    }
  }

  lemma ListedExactly(root: Addr, maxHop: nat, db: map<Addr, Routes>, src: Addr, dest: Addr, live: Routes, now: Time, r: Route)
    requires src in db && FiledWell(root, maxHop, src, db[src]) && dest in live
    requires forall key :: Expiry(live, dest, key) == Alive(Expiry(db[src], dest, key), now)
    ensures (exists key :: key in live[dest] && r == Joining.Split('-', key)) <==>
      r != [] && Joining.AllFree('-', r) && r[0] == src && Last(r) == dest && Alive(Held(db, r), now).Some?
  {
    forall key | key in live[dest] && r == Joining.Split('-', key)
      ensures r != [] && Joining.AllFree('-', r) && r[0] == src && Last(r) == dest && Alive(Held(db, r), now).Some?
    {
      assert Expiry(live, dest, key).Some?;
      FiledRoutes(root, maxHop, db, src, dest, key);
    }
    if r != [] && Joining.AllFree('-', r) && r[0] == src && Last(r) == dest && Alive(Held(db, r), now).Some? {
      var key := Joining.Join('-', r);
      Joining.SplitJoin('-', r);
      assert Expiry(live, dest, key).Some?;
    }
  }
}
