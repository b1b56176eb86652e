/** The per-database pool cache of `DBRunner` (internal/orchestrator/db_runner.go). Pools are numbered in the
    order they are created; which creations fail is an input. */
module PoolCache {
  import opened Basics
  import opened Sorting

  const TTL_CYCLES: nat := 3

  /** A successful discovery: the databases found, and those whose pool cannot be created. */
  datatype Cycle = Cycle(databases: seq<string>, failing: set<string>)

  /** The cycles since an open pool's database was last discovered, or None without a pool. */
  type Age = Option<nat>

  /** Eviction, seen from one database. */
  function Aged(age: Age, seen: bool): Age {
    if age.None? then None
    else if seen then Some(0)
    else if age.value + 1 >= TTL_CYCLES then None
    else Some(age.value + 1)
  }

  /** One cycle, seen from one database. */
  function StepAge(age: Age, c: Cycle, db: string): Age {
    var a := Aged(age, db in c.databases);
    if a.None? && db in c.databases && db !in c.failing then Some(0) else a
  }

  /** Every pool created is open under one name, or was closed once. */
  ghost predicate Accounted(pools: map<string, nat>, created: nat, closed: seq<nat>) {
    && (forall d :: d in pools ==> pools[d] < created && pools[d] !in closed)
    && (forall d, e :: d in pools && e in pools && pools[d] == pools[e] ==> d == e)
    && (forall i, j :: 0 <= i < j < |closed| ==> closed[i] != closed[j])
    && (forall i :: 0 <= i < |closed| ==> closed[i] < created)
    && created == |pools| + |closed|
  }

  lemma PoolAdded(pools: map<string, nat>, created: nat, closed: seq<nat>, db: string)
    requires Accounted(pools, created, closed) && db !in pools
    ensures Accounted(pools[db := created], created + 1, closed)
  {
    var after := pools[db := created];
    assert after.Keys == pools.Keys + {db};
    assert |pools| == |pools.Keys| && |after| == |after.Keys|;
  }

  lemma PoolRemoved(pools: map<string, nat>, created: nat, closed: seq<nat>, db: string)
    requires Accounted(pools, created, closed) && db in pools
    ensures Accounted(map d | d in pools && d != db :: pools[d], created, closed + [pools[db]])
  {
    var after := map d | d in pools && d != db :: pools[d];
    assert after.Keys == pools.Keys - {db};
    assert |pools| == |pools.Keys| && |after| == |after.Keys|;
  }

  class DBRunner {
    var pools: map<string, nat>
    var poolLastSeen: map<string, nat>
    var created: nat
    var closed: seq<nat>

    ghost predicate Valid()
      reads this
    {
      pools.Keys <= poolLastSeen.Keys && Accounted(pools, created, closed)
    }

    ghost function AgeOf(db: string): Age
      reads this
      requires Valid()
    {
      if db in pools then Some(poolLastSeen[db]) else None
    }

    constructor ()
      ensures Valid() && pools == map[] && created == 0 && closed == []
    {
      pools, poolLastSeen, created, closed := map[], map[], 0, [];
    }

    method ClosePool(db: string)
      requires Valid() && db in pools
      modifies this`pools, this`closed
      ensures Valid() && pools == map d | d in old(pools) && d != db :: old(pools)[d]
      ensures closed == old(closed) + [old(pools)[db]]
    {
      hide Accounted;
      PoolRemoved(pools, created, closed, db);
      closed := closed + [pools[db]];
      pools := map d | d in pools && d != db :: pools[d];
    }

    method CheckStale(db: string, seenSet: set<string>)
      requires Valid() && db in pools
      modifies this`pools, this`closed, this`poolLastSeen
      ensures Valid() && AgeOf(db) == Aged(old(AgeOf(db)), db in seenSet)
      ensures forall d :: d != db ==> AgeOf(d) == old(AgeOf(d))
      ensures forall d :: d in pools ==> d in old(pools) && pools[d] == old(pools)[d]
    {
      hide Accounted;
      if db in seenSet {
        poolLastSeen := poolLastSeen[db := 0];
      } else {
        poolLastSeen := poolLastSeen[db := poolLastSeen[db] + 1];
        if poolLastSeen[db] >= TTL_CYCLES {
          ClosePool(db);
          poolLastSeen := map d | d in poolLastSeen && d != db :: poolLastSeen[d];
        }
      }
    }

    method EvictStalePools(seen: seq<string>)
      requires Valid()
      modifies this`pools, this`closed, this`poolLastSeen
      ensures Valid() && forall d :: AgeOf(d) == Aged(old(AgeOf(d)), d in seen)
    {
      hide Accounted;
      var seenSet := set d | d in seen;
      var names := Enumerate(pools.Keys);
      for i := 0 to |names|
        invariant Valid()
        invariant forall d :: d in names[..i] ==> AgeOf(d) == Aged(old(AgeOf(d)), d in seen)
        invariant forall d :: d !in names[..i] ==> AgeOf(d) == old(AgeOf(d))
      {
        NoRepeat(names, old(pools.Keys), i);
        assert names[..i + 1] == names[..i] + [names[i]];
        assert AgeOf(names[i]) == old(AgeOf(names[i])) && names[i] in pools;
        hide Aged;
        CheckStale(names[i], seenSet);
      }
      assert names[..|names|] == names;
      forall d ensures AgeOf(d) == Aged(old(AgeOf(d)), d in seen) {
        if d !in names { assert old(AgeOf(d)) == None; }
      }
    }

    method GetOrCreatePool(db: string, fails: bool) returns (pool: Option<nat>)
      requires Valid()
      modifies this`pools, this`poolLastSeen, this`created
      ensures Valid() && (pool.None? <==> db !in old(pools) && fails)
      ensures pool.Some? ==> db in pools && pools[db] == pool.value
      ensures AgeOf(db) == if old(AgeOf(db)).None? && !fails then Some(0) else old(AgeOf(db))
      ensures forall d :: d != db ==> AgeOf(d) == old(AgeOf(d))
    {
      hide Accounted;
      if db in pools {
        return Some(pools[db]);
      }
      if fails {
        return None;
      }
      PoolAdded(pools, created, closed, db);
      pools := pools[db := created];
      poolLastSeen := poolLastSeen[db := 0];
      created := created + 1;
      pool := Some(pools[db]);
    }

    /** The pool part of one cycle; the result says which databases got a pool. */
    method RunCycle(c: Cycle) returns (pooled: seq<bool>)
      requires Valid()
      modifies this
      ensures Valid() && forall d :: AgeOf(d) == StepAge(old(AgeOf(d)), c, d)
      ensures |pooled| == |c.databases| && forall i :: 0 <= i < |pooled| ==> (pooled[i] <==> c.databases[i] in pools)
    {
      hide Accounted, Aged;
      EvictStalePools(c.databases);
      label Evicted:
      pooled := [];
      for i := 0 to |c.databases|
        invariant Valid() && |pooled| == i
        invariant forall d :: AgeOf(d) ==
                              if old@Evicted(AgeOf(d)).None? && d in c.databases[..i] && d !in c.failing then Some(0)
                              else old@Evicted(AgeOf(d))
        invariant forall k :: 0 <= k < i ==> (pooled[k] <==> AgeOf(c.databases[k]).Some?)
      {
        assert c.databases[..i + 1] == c.databases[..i] + [c.databases[i]];
        var pool := GetOrCreatePool(c.databases[i], c.databases[i] in c.failing);
        pooled := pooled + [pool.Some?];
      }
      assert c.databases[..|c.databases|] == c.databases;
    }

    method Close()
      requires Valid()
      modifies this`pools, this`closed
      ensures Valid() && pools == map[] && |closed| == created
    {
      while pools != map[]
        invariant Valid()
        decreases |pools|
      {
        var db :| db in pools;
        ghost var before := pools;
        ClosePool(db);
        assert pools.Keys == before.Keys - {db};
        assert |pools| == |pools.Keys| && |before| == |before.Keys|;
      }
    }
  }

  // ---- the cache as a predicate on recent discoveries

  ghost function AgeAfter(trace: seq<Cycle>, db: string): Age {
    if trace == [] then None else StepAge(AgeAfter(trace[..|trace| - 1], db), trace[|trace| - 1], db)
  }

  ghost predicate Found(trace: seq<Cycle>, db: string, i: int) { 0 <= i < |trace| && db in trace[i].databases }

  ghost predicate NoFailures(trace: seq<Cycle>, db: string) {
    forall i :: 0 <= i < |trace| ==> db !in trace[i].failing
  }

  /** When pools can be created, a database has one exactly when one of the last three discoveries found it,
      and its counter says which. */
  lemma {:induction false} OpenIffRecent(trace: seq<Cycle>, db: string)
    requires NoFailures(trace, db)
    ensures var n, age := |trace|, AgeAfter(trace, db);
            && (age.Some? <==> Found(trace, db, n - 1) || Found(trace, db, n - 2) || Found(trace, db, n - 3))
            && (age.Some? ==> age.value < TTL_CYCLES && Found(trace, db, n - 1 - age.value)
                              && forall j :: n - 1 - age.value < j < n ==> !Found(trace, db, j))
  {
    if trace != [] {
      var init := trace[..|trace| - 1];
      OpenIffRecent(init, db);
      assert forall i :: i < |init| ==> Found(trace, db, i) == Found(init, db, i);
    }
  }

  /** Feeding the cycles to a fresh runner. */
  method Replay(r: DBRunner, trace: seq<Cycle>)
    requires r.Valid() && r.pools == map[]
    modifies r
    ensures r.Valid() && forall d :: r.AgeOf(d) == AgeAfter(trace, d)
  {
    for i := 0 to |trace|
      invariant r.Valid() && forall d :: r.AgeOf(d) == AgeAfter(trace[..i], d)
    {
      assert trace[..i + 1][..i] == trace[..i];
      var _ := r.RunCycle(trace[i]);
    }
    assert trace[..|trace|] == trace;
  }
}
