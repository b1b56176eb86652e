/** `computeLockStats` (internal/collector/lock_tree.go): the lock summary metrics, computed by one
    breadth-first search per root blocker. Map ranges appear as arbitrary choices. */
module LockStats {
  import opened Basics
  import opened LockGraph
  import opened Sorting

  datatype Stats = Stats(blockerCount: nat, blockedCount: nat, maxChainDepth: nat)

  /** `d` is the largest shortest distance from `start` to anything it blocks. */
  ghost predicate IsDepthFrom(es: seq<Edge>, start: int, d: nat) {
    && (forall v, k: nat :: Distance(es, {start}, Blockers(es), v, k) ==> k <= d)
    && (exists v :: Distance(es, {start}, Blockers(es), v, d))
  }

  /** `d` is the largest distance of a pid from a single root blocker, 0 when there is no root. */
  ghost predicate IsChainDepth(es: seq<Edge>, d: nat) {
    && (forall r, v, k: nat :: r in Roots(es) && Distance(es, {r}, Blockers(es), v, k) ==> k <= d)
    && (d > 0 ==> exists r, v :: r in Roots(es) && Distance(es, {r}, Blockers(es), v, d))
  }

  /** What `computeLockStats` promises. */
  ghost predicate IsLockStats(es: seq<Edge>, s: Stats) {
    && s.blockerCount == |Roots(es)|
    && s.blockedCount == |BlockedPids(es)|
    && IsChainDepth(es, s.maxChainDepth)
  }

  function Victims(blocks: map<int, set<int>>, p: int): set<int> { if p in blocks then blocks[p] else {} }

  ghost predicate Adjacent(es: seq<Edge>, blocks: map<int, set<int>>) {
    forall u, v :: v in Victims(blocks, u) <==> Edge(v, u) in es
  }

  /** The search state: `settled` are the popped pids, `visited` also those still queued. */
  ghost predicate DepthInv(es: seq<Edge>, start: int, settled: map<int, nat>, visited: set<int>,
                           queue: seq<Item>, maxDepth: nat) {
    && Frontier(es, {start}, Blockers(es), settled, queue)
    && QueueFresh(settled.Keys, visited, queue)
    && (forall v :: v in settled ==> settled[v] <= maxDepth)
    && (maxDepth > 0 ==> exists v :: v in settled && settled[v] == maxDepth)
    && (queue == [] ==> start in settled)
  }

  /** The children queued by one turn. */
  ghost predicate NewItems(es: seq<Edge>, head: Item, seen: set<int>, items: seq<Item>) {
    && (forall it :: it in items ==> it.depth == head.depth + 1 && Edge(it.pid, head.pid) in es && it.pid !in seen)
    && DistinctItems(items)
    && (forall c :: Edge(c, head.pid) in es && c !in seen ==> exists it :: it in items && it.pid == c)
  }

  method QueueVictims(ghost es: seq<Edge>, head: Item, victims: set<int>, visited: set<int>, queue: seq<Item>)
    returns (visited': set<int>, queue': seq<Item>, ghost items: seq<Item>)
    requires forall v :: v in victims <==> Edge(v, head.pid) in es
    ensures NewItems(es, head, visited, items) && queue' == queue + items
    ensures visited' == visited + PidSet(items)
  {
    visited', queue', items := visited, queue, [];
    var order := Enumerate(victims);
    for k := 0 to |order|
      invariant queue' == queue + items
      invariant visited' == visited + PidSet(items)
      invariant forall it :: it in items ==> it.depth == head.depth + 1 && it.pid in victims && it.pid !in visited
      invariant DistinctItems(items)
      invariant forall n :: 0 <= n < k && order[n] !in visited ==> order[n] in visited'
    {
      var child := order[k];
      if child !in visited' {
        assert forall i :: 0 <= i < |items| ==> items[i] in items;
        var it := Item(child, head.depth + 1, None);
        visited', queue', items := visited' + {child}, queue' + [it], items + [it];
      }
    }
    forall c | Edge(c, head.pid) in es && c !in visited ensures exists it :: it in items && it.pid == c {
      assert c in order;
    }
  }

  lemma SettleTurn(es: seq<Edge>, start: int, settled: map<int, nat>, visited: set<int>, queue: seq<Item>,
                   maxDepth: nat, items: seq<Item>)
    requires DepthInv(es, start, settled, visited, queue, maxDepth) && queue != []
    requires NewItems(es, queue[0], visited, items)
    ensures Frontier(es, {start}, Blockers(es), settled[queue[0].pid := queue[0].depth], queue[1..] + items)
  {
    var h := queue[0];
    assert h in queue;
    forall it | it in items ensures h.pid in Blockers(es) {
      assert Edge(it.pid, h.pid).blocker in Blockers(es);
    }
    forall c | Edge(c, h.pid) in es && c != h.pid
      ensures Covered(settled, queue[1..] + items, c, h.depth + 1)
    {
      assert Edge(c, h.pid).blocker in Blockers(es);
      if c in settled {
        if settled[c] > h.depth + 1 { WalkStep(es, {start}, Blockers(es), h.pid, c, h.depth); }
      } else if c in visited {
        var it :| it in queue && it.pid == c;
        var i :| 0 <= i < |queue| && queue[i] == it;
        assert queue[1..][i - 1] == it;
        assert it in queue[1..] + items;
      } else {
        var it :| it in items && it.pid == c;
        assert it in queue[1..] + items;
      }
    }
    FrontierSettle(es, {start}, Blockers(es), settled, queue, items);
  }

  ghost function PidSet(items: seq<Item>): set<int> { set it | it in items :: it.pid }

  ghost predicate DistinctItems(items: seq<Item>) {
    forall i, j :: 0 <= i < j < |items| ==> items[i].pid != items[j].pid
  }

  /** The queue holds distinct unsettled pids, and with the settled ones they are the visited ones. */
  ghost predicate QueueFresh(settled: set<int>, visited: set<int>, queue: seq<Item>) {
    DistinctItems(queue) && PidSet(queue) !! settled && visited == settled + PidSet(queue)
  }

  lemma PidSetConcat(a: seq<Item>, b: seq<Item>)
    ensures PidSet(a + b) == PidSet(a) + PidSet(b)
  {
    forall p | p in PidSet(a) + PidSet(b) ensures p in PidSet(a + b) {
      var it :| (it in a || it in b) && it.pid == p;
      assert it in a + b;
    }
  }

  lemma DistinctConcat(a: seq<Item>, b: seq<Item>)
    requires DistinctItems(a) && DistinctItems(b) && PidSet(a) !! PidSet(b)
    ensures DistinctItems(a + b)
  {
    forall i, j | 0 <= i < j < |a + b| ensures (a + b)[i].pid != (a + b)[j].pid {
      if i < |a| <= j {
        assert a[i] in a && b[j - |a|] in b;
        assert a[i].pid in PidSet(a) && b[j - |a|].pid in PidSet(b);
      }
    }
  }

  lemma DistinctTail(queue: seq<Item>)
    requires DistinctItems(queue) && queue != []
    ensures DistinctItems(queue[1..]) && queue[0].pid !in PidSet(queue[1..])
    ensures PidSet(queue) == {queue[0].pid} + PidSet(queue[1..])
  {
    assert queue == [queue[0]] + queue[1..];
    PidSetConcat([queue[0]], queue[1..]);
    assert PidSet([queue[0]]) == {queue[0].pid} by { assert queue[0] in [queue[0]]; }
  }

  lemma QueueFreshTurn(settled: set<int>, visited: set<int>, queue: seq<Item>, items: seq<Item>)
    requires QueueFresh(settled, visited, queue) && queue != []
    requires DistinctItems(items) && PidSet(items) !! visited
    ensures QueueFresh(settled + {queue[0].pid}, visited + PidSet(items), queue[1..] + items)
  {
    DistinctTail(queue);
    PidSetConcat(queue[1..], items);
    DistinctConcat(queue[1..], items);
  }

  lemma TurnKeepsInv(es: seq<Edge>, start: int, settled: map<int, nat>, visited: set<int>, queue: seq<Item>,
                     maxDepth: nat, items: seq<Item>)
    requires DepthInv(es, start, settled, visited, queue, maxDepth) && queue != []
    requires NewItems(es, queue[0], visited, items)
    ensures DepthInv(es, start, settled[queue[0].pid := queue[0].depth], visited + PidSet(items),
                     queue[1..] + items, if queue[0].depth > maxDepth then queue[0].depth else maxDepth)
    ensures queue[0].pid !in settled
  {
    var h := queue[0];
    var settled', queue' := settled[h.pid := h.depth], queue[1..] + items;
    assert h in queue;
    SettleTurn(es, start, settled, visited, queue, maxDepth, items);
    assert PidSet(items) !! visited;
    QueueFreshTurn(settled.Keys, visited, queue, items);
    assert settled'.Keys == settled.Keys + {h.pid};
    if h.depth > maxDepth {
      assert h.pid in settled' && settled'[h.pid] == h.depth;
    } else if maxDepth > 0 {
      var v :| v in settled && settled[v] == maxDepth;
      assert v in settled' && settled'[v] == maxDepth;
    }
    StartStays(es, start, settled', queue');
  }

  lemma StartStays(es: seq<Edge>, start: int, settled: map<int, nat>, queue: seq<Item>)
    requires Frontier(es, {start}, Blockers(es), settled, queue)
    ensures queue == [] ==> start in settled
  {
    assert Covered(settled, queue, start, 0);
  }

  lemma SettledInRange(es: seq<Edge>, start: int, queue: seq<Item>)
    requires queue != [] && forall it :: it in queue ==> Walk(es, {start}, Blockers(es), it.pid, it.depth)
    ensures queue[0].pid in {start} + BlockedPids(es)
  {
    assert queue[0] in queue;
    if queue[0].depth > 0 {
      WalkEndsBlocked(es, {start}, Blockers(es), queue[0].pid, queue[0].depth);
    }
  }

  lemma DepthDone(es: seq<Edge>, start: int, settled: map<int, nat>, visited: set<int>, maxDepth: nat)
    requires DepthInv(es, start, settled, visited, [], maxDepth)
    ensures IsDepthFrom(es, start, maxDepth)
  {
    FrontierDone(es, {start}, Blockers(es), settled);
    forall v, k: nat | Distance(es, {start}, Blockers(es), v, k) ensures k <= maxDepth {
      assert Reachable(es, {start}, Blockers(es), v);
      DistanceUnique(es, {start}, Blockers(es), v, k, settled[v]);
    }
    if maxDepth == 0 {
      assert Distance(es, {start}, Blockers(es), start, settled[start]);
      assert settled[start] == 0;
    }
  }

  method BfsMaxDepth(ghost es: seq<Edge>, start: int, blocks: map<int, set<int>>) returns (maxDepth: nat)
    requires Adjacent(es, blocks)
    ensures IsDepthFrom(es, start, maxDepth)
  {
    var queue, visited := [Item(start, 0, None)], {start};
    maxDepth := 0;
    ghost var settled: map<int, nat> := map[];
    assert queue[0] in queue;
    while queue != []
      invariant DepthInv(es, start, settled, visited, queue, maxDepth)
      decreases ({start} + BlockedPids(es)) - settled.Keys
    {
      var curr := queue[0];
      SettledInRange(es, start, queue);
      ghost var seen := visited;
      var rest := queue[1..];
      var m := if curr.depth > maxDepth then curr.depth else maxDepth;
      var visited', queue', items := QueueVictims(es, curr, Victims(blocks, curr.pid), visited, rest);
      TurnKeepsInv(es, start, settled, visited, queue, maxDepth, items);
      visited, queue, maxDepth := visited', queue', m;
      settled := settled[curr.pid := curr.depth];
    }
    DepthDone(es, start, settled, visited, maxDepth);
  }

  method BuildSets(edges: seq<Edge>)
    returns (blockedSet: set<int>, blockerSet: set<int>, blocks: map<int, set<int>>)
    ensures blockedSet == BlockedPids(edges) && blockerSet == Blockers(edges) && Adjacent(edges, blocks)
  {
    blockedSet, blockerSet, blocks := {}, {}, map[];
    for i := 0 to |edges|
      invariant blockedSet == BlockedPids(edges[..i]) && blockerSet == Blockers(edges[..i])
      invariant Adjacent(edges[..i], blocks)
    {
      var e := edges[i];
      assert edges[..i + 1] == edges[..i] + [e];
      blockedSet, blockerSet := blockedSet + {e.blocked}, blockerSet + {e.blocker};
      blocks := blocks[e.blocker := Victims(blocks, e.blocker) + {e.blocked}];
    }
    assert edges[..|edges|] == edges;
  }

  method CountRoots(blockerSet: set<int>, blockedSet: set<int>) returns (roots: nat)
    ensures roots == |blockerSet - blockedSet|
  {
    roots := 0;
    ghost var counted: set<int> := {};
    var order := Enumerate(blockerSet);
    for i := 0 to |order|
      invariant roots == |counted| && counted == set p | p in order[..i] && p !in blockedSet
    {
      assert order[..i + 1] == order[..i] + [order[i]];
      NoRepeat(order, blockerSet, i);
      if order[i] !in blockedSet {
        roots, counted := roots + 1, counted + {order[i]};
      }
    }
    assert order[..|order|] == order;
    assert counted == blockerSet - blockedSet;
  }

  method DeepestRoot(edges: seq<Edge>, blockerSet: set<int>, blockedSet: set<int>, blocks: map<int, set<int>>)
    returns (maxDepth: nat)
    requires Adjacent(edges, blocks) && blockerSet - blockedSet == Roots(edges)
    ensures IsChainDepth(edges, maxDepth)
  {
    maxDepth := 0;
    var order := Enumerate(blockerSet);
    for i := 0 to |order|
      invariant forall r, v, k: nat ::
          r in order[..i] && r in Roots(edges) && Distance(edges, {r}, Blockers(edges), v, k) ==> k <= maxDepth
      invariant maxDepth > 0 ==>
          exists r, v :: r in Roots(edges) && Distance(edges, {r}, Blockers(edges), v, maxDepth)
    {
      var pid := order[i];
      assert order[..i + 1] == order[..i] + [pid];
      if pid !in blockedSet {
        var d := BfsMaxDepth(edges, pid, blocks);
        assert pid in Roots(edges);
        if d > maxDepth {
          maxDepth := d;
        }
      }
    }
    assert order[..|order|] == order;
  }

  method ComputeLockStats(edges: seq<Edge>) returns (s: Stats)
    ensures IsLockStats(edges, s)
  {
    if |edges| == 0 {
      return Stats(0, 0, 0);
    }
    var blockedSet, blockerSet, blocks := BuildSets(edges);
    var roots := CountRoots(blockerSet, blockedSet);
    var maxDepth := DeepestRoot(edges, blockerSet, blockedSet, blocks);
    s := Stats(roots, |blockedSet|, maxDepth);
  }

  /** Whatever order the map ranges take, the statistics are the same. */
  lemma StatsUnique(es: seq<Edge>, a: Stats, b: Stats)
    requires IsLockStats(es, a) && IsLockStats(es, b)
    ensures a == b
  {
  }
}
