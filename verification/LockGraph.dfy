/** The blocking graph both lock algorithms search: edges, walks and shortest distances, and the
    frontier invariant that every breadth-first search over the graph keeps. */
module LockGraph {
  import opened Basics

  /** `blocker` holds a lock that `blocked` waits for. */
  datatype Edge = Edge(blocked: int, blocker: int)

  function Blockers(es: seq<Edge>): set<int> { set e | e in es :: e.blocker }

  function BlockedPids(es: seq<Edge>): set<int> { set e | e in es :: e.blocked }

  /** Root blockers: they block someone and nobody blocks them. */
  function Roots(es: seq<Edge>): set<int> { Blockers(es) - BlockedPids(es) }

  /** `v` is reached from `sources` by `d` edges, every node that is left being in `open`. */
  ghost predicate Walk(es: seq<Edge>, sources: set<int>, open: set<int>, v: int, d: nat)
    decreases d
  {
    if d == 0 then v in sources
    else exists u :: u in open && Edge(v, u) in es && Walk(es, sources, open, u, d - 1)
  }

  ghost predicate Reachable(es: seq<Edge>, sources: set<int>, open: set<int>, v: int) {
    exists d: nat :: Walk(es, sources, open, v, d)
  }

  /** The shortest walk to `v` has `d` edges. */
  ghost predicate Distance(es: seq<Edge>, sources: set<int>, open: set<int>, v: int, d: nat) {
    Walk(es, sources, open, v, d) && forall k: nat :: k < d ==> !Walk(es, sources, open, v, k)
  }

  lemma WalkStep(es: seq<Edge>, sources: set<int>, open: set<int>, u: int, v: int, d: nat)
    requires Walk(es, sources, open, u, d) && u in open && Edge(v, u) in es
    ensures Walk(es, sources, open, v, d + 1)
  {
  }

  /** A reachable node has a shortest distance. */
  lemma {:induction false} ShortestExists(es: seq<Edge>, sources: set<int>, open: set<int>, v: int, n: nat)
      returns (d: nat)
    requires Walk(es, sources, open, v, n)
    ensures d <= n && Distance(es, sources, open, v, d)
  {
    if k: nat :| k < n && Walk(es, sources, open, v, k) {
      d := ShortestExists(es, sources, open, v, k);
    } else {
      d := n;
    }
  }

  lemma DistanceUnique(es: seq<Edge>, sources: set<int>, open: set<int>, v: int, a: nat, b: nat)
    requires Distance(es, sources, open, v, a) && Distance(es, sources, open, v, b)
    ensures a == b
  {
  }

  /** Enlarging the sources or the open nodes keeps every walk. */
  lemma {:induction false} WalkMonotone(es: seq<Edge>, s1: set<int>, o1: set<int>, s2: set<int>, o2: set<int>,
                                        v: int, d: nat)
    requires s1 <= s2 && o1 <= o2 && Walk(es, s1, o1, v, d)
    ensures Walk(es, s2, o2, v, d)
    decreases d
  {
    if d > 0 {
      var u :| u in o1 && Edge(v, u) in es && Walk(es, s1, o1, u, d - 1);
      WalkMonotone(es, s1, o1, s2, o2, u, d - 1);
    }
  }

  /** Only blocked pids are reached by a walk with at least one edge. */
  lemma WalkEndsBlocked(es: seq<Edge>, sources: set<int>, open: set<int>, v: int, d: nat)
    requires d > 0 && Walk(es, sources, open, v, d)
    ensures v in BlockedPids(es)
  {
    var u :| u in open && Edge(v, u) in es && Walk(es, sources, open, u, d - 1);
    assert Edge(v, u).blocked in BlockedPids(es);
  }

  /** The source a walk comes from. */
  lemma {:induction false} WalkSource(es: seq<Edge>, sources: set<int>, open: set<int>, v: int, d: nat)
      returns (r: int)
    requires Walk(es, sources, open, v, d)
    ensures r in sources && Walk(es, {r}, open, v, d) && (d > 0 ==> r in open)
    decreases d
  {
    if d == 0 {
      r := v;
    } else {
      var u :| u in open && Edge(v, u) in es && Walk(es, sources, open, u, d - 1);
      r := WalkSource(es, sources, open, u, d - 1);
      WalkStep(es, {r}, open, u, v, d - 1);
    }
  }

  /** An entry of a search queue. */
  datatype Item = Item(pid: int, depth: nat, parent: Option<int>)

  ghost predicate Queued(queue: seq<Item>, pid: int, bound: nat) {
    exists it :: it in queue && it.pid == pid && it.depth <= bound
  }

  /** `pid` is settled, or waits in the queue, at distance at most `bound`. */
  ghost predicate Covered(settled: map<int, nat>, queue: seq<Item>, pid: int, bound: nat) {
    (pid in settled && settled[pid] <= bound) || Queued(queue, pid, bound)
  }

  ghost predicate QueueOrdered(queue: seq<Item>) {
    && (forall i, j :: 0 <= i < j < |queue| ==> queue[i].depth <= queue[j].depth)
    && (forall i :: 0 <= i < |queue| ==> queue[i].depth <= queue[0].depth + 1)
  }

  /** What every turn of a breadth-first search keeps: settled nodes carry their shortest distance,
      and whatever they lead to is settled or queued no later than one level below. */
  ghost predicate Frontier(es: seq<Edge>, sources: set<int>, open: set<int>,
                           settled: map<int, nat>, queue: seq<Item>) {
    && QueueOrdered(queue)
    && (forall it :: it in queue ==> Walk(es, sources, open, it.pid, it.depth))
    && (forall v :: v in settled ==> Distance(es, sources, open, v, settled[v]))
    && (forall v :: v in sources ==> Covered(settled, queue, v, 0))
    && (forall u, c :: u in settled && u in open && Edge(c, u) in es ==> Covered(settled, queue, c, settled[u] + 1))
  }

  /** Below the depth of the queue's head the search is complete. */
  lemma {:induction false} SettledBelow(es: seq<Edge>, sources: set<int>, open: set<int>,
                                        settled: map<int, nat>, queue: seq<Item>, v: int, k: nat)
    requires Frontier(es, sources, open, settled, queue)
    requires forall it :: it in queue ==> k < it.depth
    requires Walk(es, sources, open, v, k)
    ensures v in settled && settled[v] <= k
    decreases k
  {
    if k == 0 {
      assert Covered(settled, queue, v, 0);
    } else {
      var u :| u in open && Edge(v, u) in es && Walk(es, sources, open, u, k - 1);
      SettledBelow(es, sources, open, settled, queue, u, k - 1);
      assert Covered(settled, queue, v, settled[u] + 1);
    }
  }

  /** The head of the queue is at its shortest distance unless it is settled already. */
  lemma HeadIsShortest(es: seq<Edge>, sources: set<int>, open: set<int>, settled: map<int, nat>, queue: seq<Item>)
    requires Frontier(es, sources, open, settled, queue) && queue != []
    requires queue[0].pid !in settled
    ensures Distance(es, sources, open, queue[0].pid, queue[0].depth)
  {
    var v, d := queue[0].pid, queue[0].depth;
    forall k: nat | k < d ensures !Walk(es, sources, open, v, k) {
      if Walk(es, sources, open, v, k) {
        forall it | it in queue ensures k < it.depth {
          var i :| 0 <= i < |queue| && queue[i] == it;
        }
        SettledBelow(es, sources, open, settled, queue, v, k);
      }
    }
  }

  /** An empty queue leaves exactly the reachable nodes settled. */
  lemma FrontierDone(es: seq<Edge>, sources: set<int>, open: set<int>, settled: map<int, nat>)
    requires Frontier(es, sources, open, settled, [])
    ensures forall v :: v in settled <==> Reachable(es, sources, open, v)
  {
    forall v, k: nat | Walk(es, sources, open, v, k) ensures v in settled {
      SettledBelow(es, sources, open, settled, [], v, k);
    }
  }

  /** Dropping a head that is settled keeps the frontier. */
  lemma FrontierDrop(es: seq<Edge>, sources: set<int>, open: set<int>, settled: map<int, nat>, queue: seq<Item>)
    requires Frontier(es, sources, open, settled, queue) && queue != []
    requires queue[0].pid in settled
    ensures settled[queue[0].pid] <= queue[0].depth
    ensures Frontier(es, sources, open, settled, queue[1..])
  {
    var v, d := queue[0].pid, queue[0].depth;
    assert queue[0] in queue;
    assert settled[v] <= d;
    assert QueueOrdered(queue[1..]);
    forall p, bound: nat | Covered(settled, queue, p, bound) ensures Covered(settled, queue[1..], p, bound) {
      if !(p in settled && settled[p] <= bound) {
        var it :| it in queue && it.pid == p && it.depth <= bound;
        assert it in queue[1..];
      }
    }
  }

  /** Settling the head and queueing its unsettled children one level below keeps the frontier. */
  lemma FrontierSettle(es: seq<Edge>, sources: set<int>, open: set<int>, settled: map<int, nat>,
                       queue: seq<Item>, children: seq<Item>)
    requires Frontier(es, sources, open, settled, queue) && queue != []
    requires queue[0].pid !in settled
    requires forall it :: it in children ==>
               it.depth == queue[0].depth + 1 && queue[0].pid in open && Edge(it.pid, queue[0].pid) in es
    requires queue[0].pid in open ==>
               forall c :: Edge(c, queue[0].pid) in es ==>
                 c == queue[0].pid || Covered(settled, queue[1..] + children, c, queue[0].depth + 1)
    ensures Frontier(es, sources, open, settled[queue[0].pid := queue[0].depth], queue[1..] + children)
  {
    var h := queue[0];
    var settled', queue' := settled[h.pid := h.depth], queue[1..] + children;
    HeadIsShortest(es, sources, open, settled, queue);
    assert h in queue;
    forall it | it in queue' ensures Walk(es, sources, open, it.pid, it.depth) {
      if it in children {
        WalkStep(es, sources, open, h.pid, it.pid, h.depth);
      } else {
        assert it in queue;
      }
    }
    SettleOrdered(queue, children);
    forall p, bound: nat | Covered(settled, queue, p, bound) ensures Covered(settled', queue', p, bound) {
      CoveredGrows(settled, queue, children, p, bound);
    }
    forall u, c | u in settled' && u in open && Edge(c, u) in es ensures Covered(settled', queue', c, settled'[u] + 1) {
      if u == h.pid {
        if c != u {
          assert Covered(settled, queue[1..] + children, c, h.depth + 1);
        }
      } else {
        assert Covered(settled, queue, c, settled[u] + 1);
      }
    }
  }

  lemma SettleOrdered(queue: seq<Item>, children: seq<Item>)
    requires QueueOrdered(queue) && queue != []
    requires forall it :: it in children ==> it.depth == queue[0].depth + 1
    ensures QueueOrdered(queue[1..] + children)
  {
    var q := queue[1..] + children;
    assert forall i :: 0 <= i < |children| ==> children[i] in children;
    assert forall i :: 0 <= i < |q| ==>
        (i < |queue| - 1 && q[i] == queue[i + 1]) || (i >= |queue| - 1 && q[i].depth == queue[0].depth + 1);
  }

  lemma CoveredGrows(settled: map<int, nat>, queue: seq<Item>, children: seq<Item>, p: int, bound: nat)
    requires queue != [] && queue[0].pid !in settled && Covered(settled, queue, p, bound)
    ensures Covered(settled[queue[0].pid := queue[0].depth], queue[1..] + children, p, bound)
  {
    if !(p in settled && settled[p] <= bound) {
      var it :| it in queue && it.pid == p && it.depth <= bound;
      if it != queue[0] {
        assert it in queue[1..] + children;
      }
    }
  }
}
