/** The lock tree of the API and the lock statistics of the collector, on the edges of one row list. */
module LockRelation {
  import opened LockGraph
  import opened LockTree
  import LockStats

  lemma {:induction false} WalkLeavesBlockers(es: seq<Edge>, sources: set<int>, open: set<int>, v: int, d: nat)
    requires Walk(es, sources, open, v, d)
    ensures Walk(es, sources, Blockers(es), v, d)
    decreases d
  {
    if d > 0 {
      var u :| u in open && Edge(v, u) in es && Walk(es, sources, open, u, d - 1);
      WalkLeavesBlockers(es, sources, open, u, d - 1);
      assert Edge(v, u).blocker in Blockers(es);
    }
  }

  /** Below a root that is a row, every pid met is a row. */
  lemma {:induction false} WalkStaysInRows(es: seq<Edge>, rows: set<int>, r: int, v: int, d: nat)
    requires BlockedPids(es) <= rows && r in rows && Walk(es, {r}, Blockers(es), v, d)
    ensures v in rows && Walk(es, {r}, rows, v, d)
    decreases d
  {
    if d > 0 {
      var u :| u in Blockers(es) && Edge(v, u) in es && Walk(es, {r}, Blockers(es), u, d - 1);
      WalkStaysInRows(es, rows, r, u, d - 1);
      WalkEndsBlocked(es, {r}, Blockers(es), v, d);
    }
  }

  /** A listed pid is as far from one present root as the tree says it is deep. */
  lemma DepthIsChain(raw: seq<RawLockEntry>, v: int, d: nat) returns (r: int)
    requires Distance(EdgesOf(raw), PresentRoots(raw), Pids(raw), v, d)
    ensures r in PresentRoots(raw) && Distance(EdgesOf(raw), {r}, Blockers(EdgesOf(raw)), v, d)
  {
    var es := EdgesOf(raw);
    BlockedAreRows(raw);
    r := WalkSource(es, PresentRoots(raw), Pids(raw), v, d);
    WalkLeavesBlockers(es, {r}, Pids(raw), v, d);
    forall k: nat | k < d ensures !Walk(es, {r}, Blockers(es), v, k) {
      if Walk(es, {r}, Blockers(es), v, k) {
        WalkStaysInRows(es, Pids(raw), r, v, k);
        WalkMonotone(es, {r}, Pids(raw), PresentRoots(raw), Pids(raw), v, k);
      }
    }
  }

  lemma DepthAtMostChain(raw: seq<RawLockEntry>, t: LockTreeResponse, s: LockStats.Stats)
    requires IsLockTree(raw, t) && LockStats.IsLockStats(EdgesOf(raw), s)
    ensures t.summary.maxDepth <= s.maxChainDepth
  {
    if t.locks != [] {
      var e := t.locks[|t.locks| - 1];
      ListedFacts(raw, t, e);
      var r := DepthIsChain(raw, e.pid, e.depth);
    }
  }

  /** With a single root, and that one a row, the two depths are the same. */
  lemma SingleRootDepth(raw: seq<RawLockEntry>, t: LockTreeResponse, s: LockStats.Stats)
    requires IsLockTree(raw, t) && LockStats.IsLockStats(EdgesOf(raw), s)
    requires |Roots(EdgesOf(raw))| == 1 && Roots(EdgesOf(raw)) <= Pids(raw)
    ensures t.summary.maxDepth == s.maxChainDepth
  {
    DepthAtMostChain(raw, t, s);
    var es := EdgesOf(raw);
    if s.maxChainDepth > 0 {
      var r, v :| r in Roots(es) && Distance(es, {r}, Blockers(es), v, s.maxChainDepth);
      OnlyRoot(Roots(es), r);
      assert PresentRoots(raw) == {r};
      BlockedAreRows(raw);
      WalkStaysInRows(es, Pids(raw), r, v, s.maxChainDepth);
      var d := ShortestExists(es, {r}, Pids(raw), v, s.maxChainDepth);
      assert Listed(t.locks, v);
      var e :| e in t.locks && e.pid == v;
      ListedFacts(raw, t, e);
      DistanceUnique(es, {r}, Pids(raw), v, d, e.depth);
      WalkLeavesBlockers(es, {r}, Pids(raw), v, d);
    }
  }

  /** Some root blocks `v` at distance `d`, and none is nearer. */
  ghost predicate FarFromAll(es: seq<Edge>, roots: set<int>, v: int, d: nat) {
    && (exists r :: r in roots && Walk(es, {r}, Blockers(es), v, d))
    && (forall r, k: nat :: r in roots && Walk(es, {r}, Blockers(es), v, k) ==> d <= k)
  }

  /** A tree depth in terms of the single-root distances. */
  lemma DepthIsFar(raw: seq<RawLockEntry>, v: int, d: nat)
    ensures Distance(EdgesOf(raw), PresentRoots(raw), Pids(raw), v, d)
            <==> FarFromAll(EdgesOf(raw), PresentRoots(raw), v, d)
  {
    var es, roots, rows := EdgesOf(raw), PresentRoots(raw), Pids(raw);
    forall k: nat ensures Walk(es, roots, rows, v, k) <==> exists r :: r in roots && Walk(es, {r}, Blockers(es), v, k) {
      RootWalks(raw, v, k);
    }
    hide Walk, EdgesOf, PresentRoots, Pids, Blockers;
    assert FarFromAll(es, roots, v, d) ==> forall k: nat :: k < d ==> !Walk(es, roots, rows, v, k);
    if Distance(es, roots, rows, v, d) {
      forall r, k: nat | r in roots && Walk(es, {r}, Blockers(es), v, k) ensures d <= k {
        assert Walk(es, roots, rows, v, k);
      }
    }
  }

  /** Reaching a pid from the present roots within the rows is reaching it from one of them. */
  lemma RootWalks(raw: seq<RawLockEntry>, v: int, k: nat)
    ensures Walk(EdgesOf(raw), PresentRoots(raw), Pids(raw), v, k)
            <==> exists r :: r in PresentRoots(raw) && Walk(EdgesOf(raw), {r}, Blockers(EdgesOf(raw)), v, k)
  {
    var es, roots, rows := EdgesOf(raw), PresentRoots(raw), Pids(raw);
    if Walk(es, roots, rows, v, k) {
      hide EdgesOf, PresentRoots, Pids, Blockers;
      var r := WalkSource(es, roots, rows, v, k);
      WalkLeavesBlockers(es, {r}, rows, v, k);
    }
    if r :| r in roots && Walk(es, {r}, Blockers(es), v, k) {
      BlockedAreRows(raw);
      hide EdgesOf, Blockers;
      WalkStaysInRows(es, rows, r, v, k);
      WalkMonotone(es, {r}, rows, roots, rows, v, k);
    }
  }

  /** The two depths are equal exactly when some pid at the greatest single-root distance is no nearer to any
      root that is a row. */
  lemma DepthsEqualIff(raw: seq<RawLockEntry>, t: LockTreeResponse, s: LockStats.Stats)
    requires IsLockTree(raw, t) && LockStats.IsLockStats(EdgesOf(raw), s)
    ensures t.summary.maxDepth == s.maxChainDepth
            <==> s.maxChainDepth == 0 || exists v :: FarFromAll(EdgesOf(raw), PresentRoots(raw), v, s.maxChainDepth)
  {
    var es, d := EdgesOf(raw), s.maxChainDepth;
    DepthAtMostChain(raw, t, s);
    TreeShape(raw, t);
    if t.summary.maxDepth == d > 0 {
      var e := t.locks[|t.locks| - 1];
      hide IsLockTree, FarFromAll, Distance, LockStats.IsLockStats;
      ListedFacts(raw, t, e);
      DepthIsFar(raw, e.pid, d);
    }
    if v :| FarFromAll(es, PresentRoots(raw), v, d) {
      DepthIsFar(raw, v, d);
      var e := ListedEntry(raw, t, v, d);
      hide IsLockTree, FarFromAll, LockStats.IsLockStats;
      ListedFacts(raw, t, e);
      DistanceUnique(es, PresentRoots(raw), Pids(raw), v, d, e.depth);
    }
  }

  lemma OnlyRoot(s: set<int>, r: int)
    requires |s| == 1 && r in s
    ensures s == {r}
  {
    assert |s - {r}| == 0;
  }

  /** The pids counted by TotalBlocked: blocked, and reachable from a root that is a row. */
  lemma NonRootsAre(raw: seq<RawLockEntry>, t: LockTreeResponse, p: int)
    requires IsLockTree(raw, t)
    ensures p in NonRoots(t.locks)
            <==> p in BlockedPids(EdgesOf(raw)) && Reachable(EdgesOf(raw), PresentRoots(raw), Pids(raw), p)
  {
    var es := EdgesOf(raw);
    if p in NonRoots(t.locks) {
      var e :| e in t.locks && !e.isRoot && e.pid == p;
      ListedFacts(raw, t, e);
      WalkEndsBlocked(es, PresentRoots(raw), Pids(raw), p, e.depth);
      assert Listed(t.locks, p);
    }
    if p in BlockedPids(es) && Reachable(es, PresentRoots(raw), Pids(raw), p) {
      assert Listed(t.locks, p);
      var e :| e in t.locks && e.pid == p;
      ListedFacts(raw, t, e);
      assert e.depth > 0;
    }
  }

  ghost predicate AllReachable(es: seq<Edge>, sources: set<int>, open: set<int>) {
    forall p :: p in BlockedPids(es) ==> Reachable(es, sources, open, p)
  }

  /** The two algorithms agree as far as they can: same root count; the tree is no deeper and counts no
      more blocked pids, and it counts all of them exactly when each hangs below a root that is a row. */
  lemma TreeAgreesWithStats(raw: seq<RawLockEntry>, t: LockTreeResponse, s: LockStats.Stats)
    requires IsLockTree(raw, t) && LockStats.IsLockStats(EdgesOf(raw), s)
    ensures t.summary.rootBlockers == s.blockerCount
    ensures t.summary.maxDepth <= s.maxChainDepth
    ensures t.summary.totalBlocked <= s.blockedCount
    ensures t.summary.totalBlocked == s.blockedCount <==>
            AllReachable(EdgesOf(raw), PresentRoots(raw), Pids(raw))
  {
    DepthAtMostChain(raw, t, s);
    forall p
      ensures p in NonRoots(t.locks)
              <==> p in BlockedPids(EdgesOf(raw)) && Reachable(EdgesOf(raw), PresentRoots(raw), Pids(raw), p)
    {
      NonRootsAre(raw, t, p);
    }
    CountedBlocked(EdgesOf(raw), PresentRoots(raw), Pids(raw), NonRoots(t.locks));
  }

  /** Both views of one row list, as the API and the collector compute them. */
  method BothViews(raw: seq<RawLockEntry>) returns (t: LockTreeResponse, s: LockStats.Stats)
    ensures IsLockTree(raw, t) && LockStats.IsLockStats(EdgesOf(raw), s)
    ensures t.summary.rootBlockers == s.blockerCount && t.summary.maxDepth <= s.maxChainDepth
    ensures |Roots(EdgesOf(raw))| == 1 && Roots(EdgesOf(raw)) <= Pids(raw) ==> t.summary.maxDepth == s.maxChainDepth
    ensures t.summary.maxDepth == s.maxChainDepth
            <==> s.maxChainDepth == 0 || exists v :: FarFromAll(EdgesOf(raw), PresentRoots(raw), v, s.maxChainDepth)
    ensures t.summary.totalBlocked <= s.blockedCount
    ensures t.summary.totalBlocked == s.blockedCount <==> AllReachable(EdgesOf(raw), PresentRoots(raw), Pids(raw))
  {
    hide *;
    t := BuildLockTree(raw);
    s := LockStats.ComputeLockStats(EdgesOf(raw));
    TreeAgreesWithStats(raw, t, s);
    DepthsEqualIff(raw, t, s);
    if |Roots(EdgesOf(raw))| == 1 && Roots(EdgesOf(raw)) <= Pids(raw) { SingleRootDepth(raw, t, s); }
  }

  lemma CountedBlocked(es: seq<Edge>, sources: set<int>, open: set<int>, counted: set<int>)
    requires forall p :: p in counted <==> p in BlockedPids(es) && Reachable(es, sources, open, p)
    ensures |counted| <= |BlockedPids(es)|
    ensures |counted| == |BlockedPids(es)| <==> AllReachable(es, sources, open)
  {
    forall p | p in counted ensures p in BlockedPids(es) { }
    SubsetCount(counted, BlockedPids(es));
    if counted == BlockedPids(es) {
      forall p | p in BlockedPids(es) ensures Reachable(es, sources, open, p) { assert p in counted; }
    }
    if AllReachable(es, sources, open) {
      assert counted == BlockedPids(es);
    }
  }

  lemma SubsetCount(a: set<int>, b: set<int>)
    requires a <= b
    ensures |a| <= |b| && (|a| == |b| <==> a == b)
  {
    assert b == a + (b - a);
  }

  /** The gap is real: one row blocked by a pid that is no row gives depth 0 in the tree and 1 in the
      statistics, and no blocked pid against one. */
  lemma AbsentRootGap(row: RawLockEntry, absent: int, t: LockTreeResponse, s: LockStats.Stats)
    requires row.blockingPids == [absent] && absent != row.pid
    requires IsLockTree([row], t) && LockStats.IsLockStats(EdgesOf([row]), s)
    ensures t.summary == LockTreeSummary(1, 0, 0) && t.locks == []
    ensures s == LockStats.Stats(1, 1, 1)
  {
    var es := [Edge(row.pid, absent)];
    assert EdgesOf([row]) == es by { assert [row][..0] == []; }
    OneEdgeRoots(row.pid, absent);
    OneEdgeDepth(row.pid, absent, s.maxChainDepth);
    assert PresentRoots([row]) == {};
    NothingListed(es, Pids([row]), t.locks);
    assert NonRoots(t.locks) == {};
  }

  lemma NothingListed(es: seq<Edge>, open: set<int>, locks: seq<LockEntry>)
    requires forall pid :: Listed(locks, pid) <==> Reachable(es, {}, open, pid)
    ensures locks == []
  {
    if locks != [] {
      var pid := locks[0].pid;
      assert Listed(locks, pid);
      var d: nat :| Walk(es, {}, open, pid, d);
      NoSources(es, open, pid, d);
    }
  }

  lemma OneEdgeRoots(blocked: int, blocker: int)
    requires blocked != blocker
    ensures var es := [Edge(blocked, blocker)];
            Blockers(es) == {blocker} && BlockedPids(es) == {blocked} && Roots(es) == {blocker}
  {
    assert [Edge(blocked, blocker)][0] in [Edge(blocked, blocker)];
  }

  lemma OneEdgeDepth(blocked: int, blocker: int, d: nat)
    requires blocked != blocker && LockStats.IsChainDepth([Edge(blocked, blocker)], d)
    ensures d == 1
  {
    var es := [Edge(blocked, blocker)];
    OneEdgeRoots(blocked, blocker);
    assert es[0] in es;
    WalkStep(es, {blocker}, {blocker}, blocker, blocked, 0);
    assert Distance(es, {blocker}, Blockers(es), blocked, 1);
    if d > 1 {
      var r, v :| r in Roots(es) && Distance(es, {r}, Blockers(es), v, d);
      var u :| u in Blockers(es) && Edge(v, u) in es && Walk(es, {r}, Blockers(es), u, d - 1);
      WalkEndsBlocked(es, {r}, Blockers(es), u, d - 1);
    }
  }

  lemma {:induction false} NoSources(es: seq<Edge>, open: set<int>, v: int, d: nat)
    ensures !Walk(es, {}, open, v, d)
    decreases d
  {
    if d > 0 {
      forall u | u in open && Edge(v, u) in es ensures !Walk(es, {}, open, u, d - 1) { NoSources(es, open, u, d - 1); }
    }
  }

  /** Two roots, both rows: 1 blocks 2 blocks 3, and 4 blocks 3 as well. */
  ghost function TwoRoots(x: Session): seq<RawLockEntry> {
    [RawLockEntry(1, x, []), RawLockEntry(2, x, [1]), RawLockEntry(3, x, [2, 4]), RawLockEntry(4, x, [])]
  }

  lemma TwoRootsEdges(x: Session)
    ensures EdgesOf(TwoRoots(x)) == [Edge(2, 1), Edge(3, 2), Edge(3, 4)]
  {
    var rows, es := TwoRoots(x), [Edge(2, 1), Edge(3, 2), Edge(3, 4)];
    assert EdgesOf(rows[..0]) == [];
    hide EdgesOf;
    EdgesUpTo(rows, 0, [], []);
    EdgesUpTo(rows, 1, [], [Edge(2, 1)]);
    EdgesUpTo(rows, 2, [Edge(2, 1)], es);
    EdgesUpTo(rows, 3, es, es);
    assert rows[..4] == rows;
  }

  lemma EdgesUpTo(rows: seq<RawLockEntry>, n: nat, es: seq<Edge>, es': seq<Edge>)
    requires n < |rows| && EdgesOf(rows[..n]) == es && es' == es + RowEdges(rows[n])
    ensures EdgesOf(rows[..n + 1]) == es'
  {
    assert rows[..n + 1][..n] == rows[..n];
  }

  lemma TwoRootsPids(x: Session)
    ensures Pids(TwoRoots(x)) == {1, 2, 3, 4} && PresentRoots(TwoRoots(x)) == {1, 4}
  {
    var rows := TwoRoots(x);
    assert rows[0] in rows && rows[1] in rows && rows[2] in rows && rows[3] in rows;
    assert Pids(rows) == {1, 2, 3, 4};
    TwoRootsEdges(x);
    TwoRootsSets();
  }

  lemma TwoRootsSets()
    ensures var es := [Edge(2, 1), Edge(3, 2), Edge(3, 4)];
            Blockers(es) == {1, 2, 4} && BlockedPids(es) == {2, 3} && Roots(es) == {1, 4}
  {
    var es := [Edge(2, 1), Edge(3, 2), Edge(3, 4)];
    assert es[0] in es && es[1] in es && es[2] in es;
  }

  /** Every walk of that graph, by its length. */
  lemma TwoRootsWalks(es: seq<Edge>, sources: set<int>, open: set<int>, v: int, d: nat)
    requires es == [Edge(2, 1), Edge(3, 2), Edge(3, 4)] && sources <= {1, 4} && {1, 2, 4} <= open
    ensures Walk(es, sources, open, v, d)
            <==> (d == 0 && v in sources)
                 || (d == 1 && ((v == 2 && 1 in sources) || (v == 3 && 4 in sources)))
                 || (d == 2 && v == 3 && 1 in sources)
    decreases d
  {
    assert es[0] in es && es[1] in es && es[2] in es;
    forall u, w | Edge(w, u) in es ensures (w, u) in {(2, 1), (3, 2), (3, 4)} {}
    if d > 0 {
      forall u ensures Walk(es, sources, open, u, d - 1)
                       <==> (d - 1 == 0 && u in sources)
                            || (d - 1 == 1 && ((u == 2 && 1 in sources) || (u == 3 && 4 in sources)))
                            || (d - 1 == 2 && u == 3 && 1 in sources)
      {
        TwoRootsWalks(es, sources, open, u, d - 1);
      }
    }
  }

  /** With two roots in the rows the tree can be shallower: 3 is two steps below 1 and one below 4. */
  lemma TwoRootsGap(x: Session, t: LockTreeResponse, s: LockStats.Stats)
    requires IsLockTree(TwoRoots(x), t) && LockStats.IsLockStats(EdgesOf(TwoRoots(x)), s)
    ensures t.summary.maxDepth == 1 && s.maxChainDepth == 2
  {
    var es := EdgesOf(TwoRoots(x));
    TwoRootsEdges(x);
    TwoRootsPids(x);
    TwoRootsSets();
    TwoRootsChain(es, s.maxChainDepth);
    forall v, d: nat ensures FarFromAll(es, {1, 4}, v, d) ==> d <= 1 { TwoRootsFar(es, v, d); }
    TwoRootsFar(es, 2, 1);
    DepthIsFar(TwoRoots(x), 2, 1);
    var two := ListedEntry(TwoRoots(x), t, 2, 1);
    TreeShape(TwoRoots(x), t);
    var last := t.locks[|t.locks| - 1];
    hide IsLockTree, LockStats.IsLockStats, FarFromAll;
    ListedFacts(TwoRoots(x), t, two);
    DistanceUnique(es, {1, 4}, Pids(TwoRoots(x)), 2, 1, two.depth);
    ListedFacts(TwoRoots(x), t, last);
    DepthIsFar(TwoRoots(x), last.pid, last.depth);
  }

  lemma TwoRootsFar(es: seq<Edge>, v: int, d: nat)
    requires es == [Edge(2, 1), Edge(3, 2), Edge(3, 4)] && Blockers(es) == {1, 2, 4}
    ensures FarFromAll(es, {1, 4}, v, d) <==> (d == 0 && v in {1, 4}) || (d == 1 && v in {2, 3})
  {
    forall r, k: nat | r in {1, 4}
      ensures Walk(es, {r}, {1, 2, 4}, v, k)
              <==> (k == 0 && v == r) || (k == 1 && ((v == 2 && r == 1) || (v == 3 && r == 4)))
                   || (k == 2 && v == 3 && r == 1)
    {
      TwoRootsWalks(es, {r}, {1, 2, 4}, v, k);
    }
    hide Walk;
    assert Walk(es, {4}, {1, 2, 4}, v, 1) <==> v == 3;
    assert Walk(es, {1}, {1, 2, 4}, v, 1) <==> v == 2;
    assert Walk(es, {1}, {1, 2, 4}, v, 0) <==> v == 1;
    assert Walk(es, {4}, {1, 2, 4}, v, 0) <==> v == 4;
  }

  lemma TwoRootsChain(es: seq<Edge>, d: nat)
    requires es == [Edge(2, 1), Edge(3, 2), Edge(3, 4)] && Blockers(es) == {1, 2, 4} && Roots(es) == {1, 4}
    requires LockStats.IsChainDepth(es, d)
    ensures d == 2
  {
    forall k: nat ensures Walk(es, {1}, {1, 2, 4}, 3, k) <==> k == 2 { TwoRootsWalks(es, {1}, {1, 2, 4}, 3, k); }
    assert Distance(es, {1}, Blockers(es), 3, 2);
    if d > 2 {
      var r, v :| r in Roots(es) && Distance(es, {r}, Blockers(es), v, d);
      TwoRootsWalks(es, {r}, {1, 2, 4}, v, d);
    }
  }
}
