/** What the collector's chain depth (internal/collector/lock_tree.go) says of its documented meaning, the
    longest blocking chain with 0 for no blocking: when each half of that holds, and where it does not. */
module LockLongest {
  import opened LockGraph
  import opened LockChains
  import opened LockStats

  // ---- zero means no blocking

  /** The depth is 0 exactly when no unblocked blocker exists. */
  lemma ChainDepthZeroIff(es: seq<Edge>, d: nat)
    requires IsChainDepth(es, d)
    ensures d == 0 <==> Roots(es) == {}
  {
    if r :| r in Roots(es) {
      var e :| e in es && e.blocker == r;
      RootBlocks(es, r, e.blocked);
      assert d >= 1;
    }
  }

  lemma RootBlocks(es: seq<Edge>, r: int, v: int)
    requires r in Roots(es) && Edge(v, r) in es
    ensures Distance(es, {r}, Blockers(es), v, 1)
  {
    assert Edge(v, r).blocker in Blockers(es) && Edge(v, r).blocked in BlockedPids(es);
    WalkStep(es, {r}, Blockers(es), r, v, 0);
  }

  /** So 0 stands for no blocking unless every blocker is itself blocked. */
  lemma ZeroMeansNoBlockingIff(es: seq<Edge>, d: nat)
    requires IsChainDepth(es, d)
    ensures (d == 0 <==> es == []) <==> es == [] || Roots(es) != {}
  {
    ChainDepthZeroIff(es, d);
    if es == [] { assert Blockers(es) == {}; }
  }

  /** Two sessions that block each other count as no chain at all. */
  lemma DeadlockHasDepthZero(d: nat)
    requires IsChainDepth([Edge(1, 2), Edge(2, 1)], d)
    ensures d == 0
  {
    var es := [Edge(1, 2), Edge(2, 1)];
    assert es[0] in es && es[1] in es;
    assert Blockers(es) == {1, 2} && BlockedPids(es) == {1, 2};
    ChainDepthZeroIff(es, d);
  }

  // ---- the longest chain

  /** No pid twice. */
  ghost predicate Simple(c: seq<int>) { forall i, j :: 0 <= i < j < |c| ==> c[i] != c[j] }

  /** A chain of blocked sessions below the root `r`. */
  ghost predicate ChainFrom(es: seq<Edge>, r: int, c: seq<int>) {
    r in Roots(es) && Chain(es, {r}, Blockers(es), c) && Simple(c)
  }

  /** `n` is the number of edges of the longest chain below any root, 0 when there is no root. */
  ghost predicate IsLongest(es: seq<Edge>, n: nat) {
    && (forall r, c :: ChainFrom(es, r, c) ==> |c| - 1 <= n)
    && (n > 0 ==> exists r, c :: ChainFrom(es, r, c) && |c| - 1 == n)
  }

  lemma {:induction false} WalkToChain(es: seq<Edge>, sources: set<int>, open: set<int>, v: int, d: nat)
      returns (c: seq<int>)
    requires Walk(es, sources, open, v, d)
    ensures Chain(es, sources, open, c) && Last(c) == v && |c| == d + 1
    decreases d
  {
    if d == 0 {
      c := [v];
    } else {
      var u :| u in open && Edge(v, u) in es && Walk(es, sources, open, u, d - 1);
      var p := WalkToChain(es, sources, open, u, d - 1);
      ChainExtend(es, sources, open, p, v);
      c := p + [v];
    }
  }

  /** Every pid of a chain is reached by the part of the chain before it. */
  lemma {:induction false} ChainWalks(es: seq<Edge>, sources: set<int>, open: set<int>, c: seq<int>, i: nat)
    requires Chain(es, sources, open, c) && i < |c|
    ensures Walk(es, sources, open, c[i], i)
  {
    if i == |c| - 1 { ChainIsWalk(es, sources, open, c); } else { ChainWalks(es, sources, open, Parent(c), i); }
  }

  /** Following the rest of a chain from one of its pids, however that was reached. */
  lemma {:induction false} WalkAlong(es: seq<Edge>, sources: set<int>, open: set<int>, c: seq<int>, j: nat, m: nat)
    requires Chain(es, sources, open, c) && j < |c| && Walk(es, sources, open, c[j], m)
    ensures Walk(es, sources, open, Last(c), m + (|c| - 1 - j))
  {
    if j < |c| - 1 {
      WalkAlong(es, sources, open, Parent(c), j, m);
      WalkStep(es, sources, open, Last(Parent(c)), Last(c), m + (|c| - 2 - j));
    }
  }

  /** A shortest chain meets no pid twice: leaving out the part between would shorten it. */
  lemma ShortestIsSimple(es: seq<Edge>, sources: set<int>, open: set<int>, c: seq<int>)
    requires Chain(es, sources, open, c) && Distance(es, sources, open, Last(c), |c| - 1)
    ensures Simple(c)
  {
    forall i, j | 0 <= i < j < |c| ensures c[i] != c[j] {
      if c[i] == c[j] {
        ChainWalks(es, sources, open, c, i);
        WalkAlong(es, sources, open, c, j, i);
      }
    }
  }

  lemma ShortestChainFrom(es: seq<Edge>, r: int, v: int, d: nat) returns (c: seq<int>)
    requires r in Roots(es) && Distance(es, {r}, Blockers(es), v, d)
    ensures ChainFrom(es, r, c) && |c| == d + 1 && Last(c) == v
  {
    c := WalkToChain(es, {r}, Blockers(es), v, d);
    ShortestIsSimple(es, {r}, Blockers(es), c);
  }

  /** The chain depth is never more than the longest chain, and is that exactly when some longest chain ends at a
      pid that its root does not reach sooner. */
  lemma DepthIsLongestIff(es: seq<Edge>, d: nat, n: nat)
    requires IsChainDepth(es, d) && IsLongest(es, n)
    ensures d <= n
    ensures d == n <==>
            n == 0 || exists r, c :: ChainFrom(es, r, c) && |c| - 1 == n && Distance(es, {r}, Blockers(es), Last(c), n)
  {
    if d > 0 {
      var r, v :| r in Roots(es) && Distance(es, {r}, Blockers(es), v, d);
      var c := ShortestChainFrom(es, r, v, d);
    }
  }

  /** Where 1 blocks 2 and both block 3, the chain 1, 2, 3 has two steps and the depth is 1. */
  lemma ShortcutHidesChain(es: seq<Edge>, d: nat, n: nat)
    requires es == [Edge(2, 1), Edge(3, 2), Edge(3, 1)] && IsChainDepth(es, d) && IsLongest(es, n)
    ensures d == 1 && n == 2
  {
    ShortcutSets(es);
    hide IsChainDepth, IsLongest, Blockers, BlockedPids, Roots;
    ShortcutDepth(es, d);
    ShortcutLongest(es, n);
  }

  lemma ShortcutSets(es: seq<Edge>)
    requires es == [Edge(2, 1), Edge(3, 2), Edge(3, 1)]
    ensures Blockers(es) == {1, 2} && BlockedPids(es) == {2, 3} && Roots(es) == {1}
  {
    assert es[0] in es && es[1] in es && es[2] in es;
  }

  lemma ShortcutDepth(es: seq<Edge>, d: nat)
    requires es == [Edge(2, 1), Edge(3, 2), Edge(3, 1)] && BlockedPids(es) == {2, 3} && Roots(es) == {1}
    requires IsChainDepth(es, d)
    ensures d == 1
  {
    assert es[0] in es && es[2] in es;
    hide Blockers, BlockedPids, Roots;
    RootBlocks(es, 1, 2);
    RootBlocks(es, 1, 3);
    forall v, k: nat | Distance(es, {1}, Blockers(es), v, k) ensures k <= 1 {
      if k > 0 {
        WalkEndsBlocked(es, {1}, Blockers(es), v, k);
        DistanceUnique(es, {1}, Blockers(es), v, k, 1);
      }
    }
  }

  lemma ShortcutLongest(es: seq<Edge>, n: nat)
    requires es == [Edge(2, 1), Edge(3, 2), Edge(3, 1)] && Blockers(es) == {1, 2}
    requires BlockedPids(es) == {2, 3} && Roots(es) == {1} && IsLongest(es, n)
    ensures n == 2
  {
    assert es[0] in es && es[1] in es && es[2] in es;
    var open := {1, 2};
    assert Chain(es, {1}, open, [1]);
    ChainExtend(es, {1}, open, [1], 2);
    assert [1] + [2] == [1, 2];
    ChainExtend(es, {1}, open, [1, 2], 3);
    assert [1, 2] + [3] == [1, 2, 3];
    assert ChainFrom(es, 1, [1, 2, 3]);
    forall r, c | ChainFrom(es, r, c) ensures |c| - 1 <= 2 {
      ChainInPids(es, c, {1, 2, 3});
      SimpleLength(c, {1, 2, 3});
    }
  }

  // ---- there is a longest chain

  /** A chain stays among its root and the blocked pids. */
  lemma {:induction false} ChainInRange(es: seq<Edge>, r: int, c: seq<int>)
    requires Chain(es, {r}, Blockers(es), c)
    ensures forall i :: 0 <= i < |c| ==> c[i] in {r} + BlockedPids(es)
  {
    if |c| > 1 {
      ChainInRange(es, r, Parent(c));
      assert Edge(Last(c), Last(Parent(c))).blocked in BlockedPids(es);
    }
  }

  lemma {:induction false} SimpleLength(c: seq<int>, pids: set<int>)
    requires Simple(c) && forall i :: 0 <= i < |c| ==> c[i] in pids
    ensures |c| <= |pids|
  {
    if c != [] {
      var last := c[|c| - 1];
      SimpleLength(c[..|c| - 1], pids - {last});
    }
  }

  lemma ChainInPids(es: seq<Edge>, c: seq<int>, pids: set<int>)
    requires Roots(es) + BlockedPids(es) <= pids && exists r :: ChainFrom(es, r, c)
    ensures forall i :: 0 <= i < |c| ==> c[i] in pids
  {
    var r :| ChainFrom(es, r, c);
    ChainInRange(es, r, c);
  }

  /** Every graph has a longest chain, cycles or not. */
  lemma LongestExists(es: seq<Edge>) returns (n: nat)
    ensures IsLongest(es, n)
  {
    var pids := Roots(es) + BlockedPids(es);
    forall r, c | ChainFrom(es, r, c) ensures |c| - 1 <= |pids| {
      ChainInPids(es, c, pids);
      SimpleLength(c, pids);
    }
    n := LongestBelow(es, |pids|);
  }

  lemma {:induction false} LongestBelow(es: seq<Edge>, bound: nat) returns (n: nat)
    requires forall r, c :: ChainFrom(es, r, c) ==> |c| - 1 <= bound
    ensures IsLongest(es, n)
  {
    if bound == 0 || exists r, c :: ChainFrom(es, r, c) && |c| - 1 == bound {
      n := bound;
    } else {
      n := LongestBelow(es, bound - 1);
    }
  }

  /** The collector's result against its documentation, for any edges. */
  method DocumentedDepth(edges: seq<Edge>) returns (s: Stats, ghost n: nat)
    ensures IsLockStats(edges, s) && IsLongest(edges, n) && s.maxChainDepth <= n
    ensures s.maxChainDepth == n <==>
            n == 0 || exists r, c :: ChainFrom(edges, r, c) && |c| - 1 == n
                        && Distance(edges, {r}, Blockers(edges), Last(c), n)
    ensures (s.maxChainDepth == 0 <==> edges == []) <==> edges == [] || Roots(edges) != {}
  {
    s := ComputeLockStats(edges);
    n := LongestExists(edges);
    DepthIsLongestIff(edges, s.maxChainDepth, n);
    ZeroMeansNoBlockingIff(edges, s.maxChainDepth);
  }
}
