/** The routing table over many computations: what of the older tables is left in it (07-mospf/mospf_daemon.c). */
module MospfTable {
  import opened MospfRouter
  import opened MospfGraph
  import opened MospfRoutes
  import opened MospfTopology
  import opened MospfNode

  /** `kept` is the routes with gateway 0 among the first `n`, in order: `at` tells where each was. */
  predicate KeptFrom(t: seq<Route>, n: nat, kept: seq<Route>, at: seq<nat>) {
    && n <= |t| && |at| == |kept|
    && (forall k :: 0 <= k < |at| ==> at[k] < n && t[at[k]].gw == 0 && kept[k] == t[at[k]])
    && (forall j, k :: 0 <= j < k < |at| ==> at[j] < at[k])
    && forall i :: 0 <= i < n && t[i].gw == 0 ==> i in at
  }

  function OwnDirect(r: Route): seq<Route> { if r.gw == 0 then [r] else [] }

  lemma DirectCons(r: Route, t: seq<Route>)
    ensures Direct([r] + t) == OwnDirect(r) + Direct(t)
  {
    assert ([r] + t)[1..] == t;
  }

  lemma Regroup(a: seq<Route>, b: seq<Route>, c: seq<Route>)
    ensures a + b + c == a + (b + c)
  {
  }

  /** A second computation finds the direct routes of the first, and any computed route that looks like one. */
  lemma {:induction false} DirectOfSum(a: seq<Route>, b: seq<Route>)
    ensures Direct(a + b) == Direct(a) + Direct(b)
  {
    if a == [] {
      assert a + b == b;
    } else {
      var r, rest := a[0], a[1..];
      assert a == [r] + rest;
      DirectOfSum(rest, b);
      DirectCons(r, rest);
      DirectCons(r, rest + b);
      Regroup([r], rest, b);
      Regroup(OwnDirect(r), Direct(rest), Direct(b));
    }
  }

  lemma DirectOfNext(t: seq<Route>, n: nat)
    requires n < |t|
    ensures t[n].gw == 0 ==> Direct(t[..n + 1]) == Direct(t[..n]) + [t[n]]
    ensures t[n].gw != 0 ==> Direct(t[..n + 1]) == Direct(t[..n])
  {
    assert t[..n + 1] == t[..n] + [t[n]] && [t[n]][1..] == [];
    DirectOfSum(t[..n], [t[n]]);
  }

  /** The first loop of update_rtable keeps exactly those. */
  lemma {:induction false} DirectIsKept(t: seq<Route>, n: nat) returns (at: seq<nat>)
    requires n <= |t|
    ensures KeptFrom(t, n, Direct(t[..n]), at)
  {
    if n == 0 {
      at := [];
    } else {
      var before := DirectIsKept(t, n - 1);
      at := DirectNext(t, n - 1, before);
    }
  }

  lemma AllKept(t: seq<Route>) returns (at: seq<nat>)
    ensures KeptFrom(t, |t|, Direct(t), at)
  {
    at := DirectIsKept(t, |t|);
    assert t[..|t|] == t;
  }

  lemma KeptNext(t: seq<Route>, n: nat, kept: seq<Route>, at: seq<nat>) returns (next: seq<nat>)
    requires KeptFrom(t, n, kept, at) && n < |t|
    ensures t[n].gw == 0 ==> KeptFrom(t, n + 1, kept + [t[n]], next)
    ensures t[n].gw != 0 ==> KeptFrom(t, n + 1, kept, next)
  {
    if t[n].gw == 0 {
      next := at + [n];
      forall i | 0 <= i <= n && t[i].gw == 0 ensures i in next {
        assert next[|at|] == n;
      }
    } else {
      next := at;
    }
  }

  lemma DirectNext(t: seq<Route>, n: nat, at: seq<nat>) returns (next: seq<nat>)
    requires n < |t| && KeptFrom(t, n, Direct(t[..n]), at)
    ensures KeptFrom(t, n + 1, Direct(t[..n + 1]), next)
  {
    DirectOfNext(t, n);
    next := KeptNext(t, n, Direct(t[..n]), at);
  }

  lemma {:induction false} DirectIsDirect(t: seq<Route>)
    ensures Direct(Direct(t)) == Direct(t)
  {
    if t != [] {
      DirectIsDirect(t[1..]);
      DirectOfSum(if t[0].gw == 0 then [t[0]] else [], Direct(t[1..]));
    }
  }

  lemma {:induction false} NoneDirect(t: seq<Route>)
    requires forall k :: 0 <= k < |t| ==> t[k].gw != 0
    ensures Direct(t) == []
  {
    if t != [] {
      NoneDirect(t[1..]);
    }
  }

  /** No neighbour has address 0. */
  predicate Addressed(ifaces: seq<Iface>) {
    forall f, b :: 0 <= f < |ifaces| && 0 <= b < |ifaces[f].nbrs| ==> ifaces[f].nbrs[b].ip != 0
  }

  lemma SeedsAddressed(db: seq<Entry>, ifaces: seq<Iface>, s: Seed)
    requires Addressed(ifaces) && s in SeedsOf(db, ifaces)
    ensures s.gw != 0
  {
    var k :| 0 <= k < |SeedsOf(db, ifaces)| && SeedsOf(db, ifaces)[k] == s;
    var b := SeedsSound(Build(db).nodes, ifaces, |ifaces|, k);
  }

  /** The routes computed from the database, none with gateway 0. */
  ghost predicate Computed(db: seq<Entry>, ifaces: seq<Iface>, added: seq<Route>) {
    && (exists order, src, dist :: RoutesCorrect(Build(db), SeedsOf(db, ifaces), order, src, dist, added))
    && forall k :: 0 <= k < |added| ==> added[k].gw != 0
  }

  lemma AddedHaveGateways(db: seq<Entry>, ifaces: seq<Iface>, added: seq<Route>)
    requires Addressed(ifaces)
    requires exists order, src, dist :: RoutesCorrect(Build(db), SeedsOf(db, ifaces), order, src, dist, added)
    ensures Computed(db, ifaces, added)
  {
    var g, seeds := Build(db), SeedsOf(db, ifaces);
    var order, src, dist :| RoutesCorrect(g, seeds, order, src, dist, added);
    forall k | 0 <= k < |added| ensures added[k].gw != 0 {
      assert RouteFollows(g, seeds, order[k], src, added[k]);
      SeedsAddressed(db, ifaces, LastSeed(seeds, src[order[k]]));
    }
  }

  /** Every table is computed from the one before it. */
  ghost predicate Computations(tables: seq<seq<Route>>, dbs: seq<seq<Entry>>, ifaces: seq<seq<Iface>>) {
    && |tables| == |dbs| + 1 && |ifaces| == |dbs|
    && forall k {:trigger dbs[k]} :: 0 <= k < |dbs| ==>
      TableFollows(tables[k], tables[k + 1], dbs[k], ifaces[k]) && Addressed(ifaces[k])
  }

  lemma {:induction false} DirectLasts(tables: seq<seq<Route>>, dbs: seq<seq<Entry>>, ifaces: seq<seq<Iface>>, n: nat)
    requires Computations(tables, dbs, ifaces) && n < |tables|
    ensures Direct(tables[n]) == Direct(tables[0])
  {
    if n > 0 {
      DirectLasts(tables, dbs, ifaces, n - 1);
      var before, after, db := tables[n - 1], tables[n], dbs[n - 1];
      var added := after[|Direct(before)|..];
      AddedHaveGateways(db, ifaces[n - 1], added);
      NoneDirect(added);
      DirectIsDirect(before);
      DirectOfSum(Direct(before), added);
      assert after == Direct(before) + added;
    }
  }

  /** However often the table has been computed, it holds the directly connected networks it started with, in their
      order, and then the routes of the latest database; of the computations in between nothing is left. */
  lemma TableIsFresh(tables: seq<seq<Route>>, dbs: seq<seq<Entry>>, ifaces: seq<seq<Iface>>, n: nat)
      returns (kept: seq<Route>, at: seq<nat>, added: seq<Route>)
    requires Computations(tables, dbs, ifaces) && 0 < n < |tables|
    ensures tables[n] == kept + added && KeptFrom(tables[0], |tables[0]|, kept, at)
    ensures Computed(dbs[n - 1], ifaces[n - 1], added)
  {
    DirectLasts(tables, dbs, ifaces, n - 1);
    kept := Direct(tables[0]);
    at := AllKept(tables[0]);
    assert TableFollows(tables[n - 1], tables[n], dbs[n - 1], ifaces[n - 1]);
    added := tables[n][|kept|..];
    AddedHaveGateways(dbs[n - 1], ifaces[n - 1], added);
  }
}
