/** Blocking chains, and the search invariant that fixes which parent a pid is listed under: the
    tree path of a pid is the lexicographically least of its shortest chains. */
module LockChains {
  import opened Basics
  import opened LockGraph
  import opened Sorting

  /** Extending two sequences of one length by ordered elements keeps the order. */
  lemma {:induction false} LexExtend(a: seq<int>, b: seq<int>, x: int, y: int)
    requires |a| == |b| && LexLe(a, b) && (a == b ==> x <= y)
    ensures LexLe(a + [x], b + [y])
  {
    if a != [] {
      assert (a + [x])[1..] == a[1..] + [x] && (b + [y])[1..] == b[1..] + [y];
      if a[0] == b[0] {
        if a[1..] == b[1..] { assert a == [a[0]] + a[1..] && b == [b[0]] + b[1..]; }
        LexExtend(a[1..], b[1..], x, y);
      }
    }
  }

  function Last(c: seq<int>): int
    requires c != []
  {
    c[|c| - 1]
  }

  function Parent(c: seq<int>): (p: seq<int>)
    requires |c| > 1
    ensures |p| == |c| - 1
  {
    c[..|c| - 1]
  }

  /** `c` runs from a source down blocking edges, every node that is left being in `open`. */
  ghost predicate Chain(es: seq<Edge>, sources: set<int>, open: set<int>, c: seq<int>) {
    if |c| <= 1 then |c| == 1 && c[0] in sources
    else
      && Chain(es, sources, open, Parent(c))
      && Last(Parent(c)) in open && Edge(Last(c), Last(Parent(c))) in es
  }

  /** `c` is the first, in dictionary order, of the shortest chains to `v`. */
  ghost predicate BestChain(es: seq<Edge>, sources: set<int>, open: set<int>, v: int, c: seq<int>) {
    && Chain(es, sources, open, c) && Last(c) == v
    && Distance(es, sources, open, v, |c| - 1)
    && (forall o :: Chain(es, sources, open, o) && Last(o) == v && |o| == |c| ==> LexLe(c, o))
  }

  lemma BestChainUnique(es: seq<Edge>, sources: set<int>, open: set<int>, v: int, a: seq<int>, b: seq<int>)
    requires BestChain(es, sources, open, v, a) && BestChain(es, sources, open, v, b)
    ensures a == b
  {
    DistanceUnique(es, sources, open, v, |a| - 1, |b| - 1);
    LexAntisymmetric(a, b);
  }

  lemma {:induction false} ChainIsWalk(es: seq<Edge>, sources: set<int>, open: set<int>, c: seq<int>)
    requires Chain(es, sources, open, c)
    ensures Walk(es, sources, open, Last(c), |c| - 1)
  {
    if |c| > 1 {
      ChainIsWalk(es, sources, open, Parent(c));
      WalkStep(es, sources, open, Last(Parent(c)), Last(c), |c| - 2);
    }
  }

  lemma ChainExtend(es: seq<Edge>, sources: set<int>, open: set<int>, c: seq<int>, v: int)
    requires Chain(es, sources, open, c) && Last(c) in open && Edge(v, Last(c)) in es
    ensures Chain(es, sources, open, c + [v]) && Last(c + [v]) == v && Parent(c + [v]) == c
  {
    assert Parent(c + [v]) == c;
  }

  /** The chain a queue item stands for. */
  ghost predicate ItemChain(it: Item, c: seq<int>) {
    c != [] && it.pid == Last(c) && it.depth == |c| - 1
    && it.parent == (if |c| == 1 then None else Some(c[|c| - 2]))
  }

  /** Queue order: by depth, and dictionary order within a level; children of the level being
      searched come from parents no later than the head. */
  ghost predicate ChainsOrdered(qs: seq<seq<int>>) {
    && (forall i :: 0 <= i < |qs| ==> qs[i] != [])
    && (forall i, j :: 0 <= i < j < |qs| && |qs[i]| == |qs[j]| ==> LexLe(qs[i], qs[j]))
    && (forall j :: 0 <= j < |qs| && |qs[j]| == |qs[0]| + 1 ==> LexLe(qs[j][..|qs[0]|], qs[0]))
  }

  ghost predicate QueueChains(es: seq<Edge>, sources: set<int>, open: set<int>, queue: seq<Item>, qs: seq<seq<int>>) {
    && |qs| == |queue|
    && (forall i :: 0 <= i < |qs| ==> ItemChain(queue[i], qs[i]))
    && (forall i :: 0 <= i < |qs| ==> Chain(es, sources, open, qs[i]))
  }

  ghost predicate SettledBest(es: seq<Edge>, sources: set<int>, open: set<int>,
                              settled: map<int, nat>, chains: map<int, seq<int>>) {
    && settled.Keys == chains.Keys
    && (forall v :: v in chains ==> BestChain(es, sources, open, v, chains[v]) && settled[v] == |chains[v]| - 1)
  }

  ghost predicate ParentsSettled(chains: map<int, seq<int>>, qs: seq<seq<int>>) {
    forall c :: c in qs && |c| > 1 ==> Last(Parent(c)) in chains
  }

  /** Whatever a settled pid leads to is settled, or queued with the chain through that pid. */
  ghost predicate AllQueued(es: seq<Edge>, sources: set<int>, open: set<int>,
                            chains: map<int, seq<int>>, qs: seq<seq<int>>) {
    && (forall v :: v in sources && v !in chains ==> [v] in qs)
    && (forall u, v :: u in chains && u in open && Edge(v, u) in es && v !in chains ==> chains[u] + [v] in qs)
  }

  /** The search invariant: the frontier of `LockGraph`, with the chain behind every distance. */
  ghost predicate TreeInv(es: seq<Edge>, sources: set<int>, open: set<int>, settled: map<int, nat>,
                          chains: map<int, seq<int>>, queue: seq<Item>, qs: seq<seq<int>>) {
    && Frontier(es, sources, open, settled, queue)
    && QueueChains(es, sources, open, queue, qs)
    && ChainsOrdered(qs)
    && ParentsSettled(chains, qs)
    && SettledBest(es, sources, open, settled, chains)
    && AllQueued(es, sources, open, chains, qs)
  }

  ghost predicate TwoLevels(qs: seq<seq<int>>) {
    forall i :: 0 <= i < |qs| ==> |qs[0]| <= |qs[i]| <= |qs[0]| + 1
  }

  lemma OrderedTail(qs: seq<seq<int>>)
    requires ChainsOrdered(qs) && qs != [] && TwoLevels(qs)
    ensures ChainsOrdered(qs[1..])
  {
    var t := qs[1..];
    forall j | 0 <= j < |t| && |t[j]| == |t[0]| + 1 ensures LexLe(t[j][..|t[0]|], t[0]) {
      assert t[j] == qs[j + 1] && t[0] == qs[1];
      LexTransitive(t[j][..|t[0]|], qs[0], t[0]);
    }
  }

  lemma QueueTwoLevels(queue: seq<Item>, qs: seq<seq<int>>)
    requires QueueOrdered(queue) && queue != [] && |qs| == |queue|
    requires forall i :: 0 <= i < |qs| ==> ItemChain(queue[i], qs[i])
    ensures TwoLevels(qs)
  {
    forall i | 0 <= i < |qs| ensures |qs[0]| <= |qs[i]| <= |qs[0]| + 1 {
      assert ItemChain(queue[i], qs[i]) && ItemChain(queue[0], qs[0]);
      if i > 0 { assert queue[0].depth <= queue[i].depth; }
    }
  }

  /** The chain queued for `v` through a parent of another chain to `v` is no later than that chain. */
  lemma QueuedChainAtMost(es: seq<Edge>, sources: set<int>, open: set<int>, chains: map<int, seq<int>>,
                          qs: seq<seq<int>>, o: seq<int>)
    requires ChainsOrdered(qs) && qs != [] && AllQueued(es, sources, open, chains, qs)
    requires Chain(es, sources, open, o) && |o| == |qs[0]| > 1 && Last(o) !in chains
    requires Last(Parent(o)) in chains
    requires BestChain(es, sources, open, Last(Parent(o)), chains[Last(Parent(o))])
    requires |chains[Last(Parent(o))]| == |o| - 1
    ensures LexLe(qs[0], o)
  {
    hide Chain, BestChain, LexLe, ChainsOrdered;
    var p, v := Parent(o), Last(o);
    var best := chains[Last(p)];
    ParentStep(es, sources, open, o, best);
    assert best + [v] in qs;
    hide AllQueued;
    assert o == p + [v];
    LexExtend(best, p, v, v);
    FirstIsLeast(qs, best + [v]);
    LexTransitive(qs[0], best + [v], o);
  }

  lemma ParentStep(es: seq<Edge>, sources: set<int>, open: set<int>, o: seq<int>, best: seq<int>)
    requires |o| > 1 && Chain(es, sources, open, o) && BestChain(es, sources, open, Last(Parent(o)), best)
    requires |best| == |o| - 1
    ensures Last(Parent(o)) in open && Edge(Last(o), Last(Parent(o))) in es && LexLe(best, Parent(o))
  {
    assert Chain(es, sources, open, Parent(o));
    hide Chain, LexLe;
  }

  lemma FirstIsLeast(qs: seq<seq<int>>, c: seq<int>)
    requires ChainsOrdered(qs) && c in qs && |c| == |qs[0]|
    ensures LexLe(qs[0], c)
  {
    hide LexLe;
    var j :| 0 <= j < |qs| && qs[j] == c;
    if j == 0 { LexReflexive(qs[0]); }
  }

  lemma ParentSettled(es: seq<Edge>, sources: set<int>, open: set<int>, settled: map<int, nat>,
                      queue: seq<Item>, o: seq<int>)
    requires Frontier(es, sources, open, settled, queue) && queue != []
    requires Chain(es, sources, open, o) && |o| == queue[0].depth + 1 > 1
    requires Distance(es, sources, open, Last(o), queue[0].depth)
    ensures Last(Parent(o)) in settled && settled[Last(Parent(o))] == |o| - 2
  {
    var u, d := Last(Parent(o)), queue[0].depth;
    ChainIsWalk(es, sources, open, Parent(o));
    forall it | it in queue ensures d - 1 < it.depth {
      var i :| 0 <= i < |queue| && queue[i] == it;
    }
    SettledBelow(es, sources, open, settled, queue, u, d - 1);
    if settled[u] < d - 1 { WalkStep(es, sources, open, u, Last(o), settled[u]); }
  }

  /** An unsettled head stands for the best chain to its pid. */
  lemma HeadIsBest(es: seq<Edge>, sources: set<int>, open: set<int>, settled: map<int, nat>,
                   chains: map<int, seq<int>>, queue: seq<Item>, qs: seq<seq<int>>)
    requires Frontier(es, sources, open, settled, queue) && queue != []
    requires QueueChains(es, sources, open, queue, qs) && ChainsOrdered(qs)
    requires SettledBest(es, sources, open, settled, chains) && AllQueued(es, sources, open, chains, qs)
    requires queue[0].pid !in settled
    ensures BestChain(es, sources, open, queue[0].pid, qs[0])
  {
    var v, d := queue[0].pid, queue[0].depth;
    assert ItemChain(queue[0], qs[0]);
    HeadIsShortest(es, sources, open, settled, queue);
    forall o | Chain(es, sources, open, o) && Last(o) == v && |o| == d + 1 ensures LexLe(qs[0], o) {
      hide Frontier, AllQueued, ChainsOrdered, LexLe;
      HeadAtMost(es, sources, open, settled, chains, queue, qs, o);
    }
  }

  lemma HeadAtMost(es: seq<Edge>, sources: set<int>, open: set<int>, settled: map<int, nat>,
                   chains: map<int, seq<int>>, queue: seq<Item>, qs: seq<seq<int>>, o: seq<int>)
    requires Frontier(es, sources, open, settled, queue) && queue != [] && qs != [] && ItemChain(queue[0], qs[0])
    requires SettledBest(es, sources, open, settled, chains) && AllQueued(es, sources, open, chains, qs)
    requires ChainsOrdered(qs) && queue[0].pid !in settled
    requires Distance(es, sources, open, queue[0].pid, queue[0].depth)
    requires Chain(es, sources, open, o) && Last(o) == queue[0].pid && |o| == queue[0].depth + 1
    ensures LexLe(qs[0], o)
  {
    if queue[0].depth == 0 {
      assert o == qs[0];
      LexReflexive(o);
    } else {
      hide Frontier, AllQueued, ChainsOrdered, LexLe, Distance;
      ParentSettled(es, sources, open, settled, queue, o);
      QueuedChainAtMost(es, sources, open, chains, qs, o);
    }
  }

  /** Removing the head keeps every queued chain to an unsettled pid. */
  lemma AllQueuedDrop(es: seq<Edge>, sources: set<int>, open: set<int>, chains: map<int, seq<int>>,
                      qs: seq<seq<int>>, more: seq<seq<int>>, pid: int)
    requires AllQueued(es, sources, open, chains, qs) && qs != [] && qs[0] != [] && Last(qs[0]) == pid
    ensures forall v :: v in sources && v !in chains && v != pid ==> [v] in qs[1..] + more
    ensures forall u, v :: u in chains && u in open && Edge(v, u) in es && v !in chains && v != pid ==>
              chains[u] + [v] in qs[1..] + more
  {
    forall v | v in sources && v !in chains && v != pid ensures [v] in qs[1..] + more {
      assert [v] in qs && Last([v]) != pid;
      assert [v] in qs[1..];
    }
    forall u, v | u in chains && u in open && Edge(v, u) in es && v !in chains && v != pid
      ensures chains[u] + [v] in qs[1..] + more
    {
      assert chains[u] + [v] in qs && Last(chains[u] + [v]) != pid;
      assert chains[u] + [v] in qs[1..];
    }
  }

  lemma TreeDrop(es: seq<Edge>, sources: set<int>, open: set<int>, settled: map<int, nat>,
                 chains: map<int, seq<int>>, queue: seq<Item>, qs: seq<seq<int>>)
    requires TreeInv(es, sources, open, settled, chains, queue, qs) && queue != []
    requires queue[0].pid in settled
    ensures TreeInv(es, sources, open, settled, chains, queue[1..], qs[1..])
  {
    FrontierDrop(es, sources, open, settled, queue);
    QueueTwoLevels(queue, qs);
    OrderedTail(qs);
    DropQueue(es, sources, open, chains, queue, qs);
    hide Frontier, SettledBest, ChainsOrdered, QueueChains, AllQueued, ParentsSettled;
  }

  lemma DropQueue(es: seq<Edge>, sources: set<int>, open: set<int>, chains: map<int, seq<int>>,
                  queue: seq<Item>, qs: seq<seq<int>>)
    requires QueueChains(es, sources, open, queue, qs) && queue != [] && queue[0].pid in chains
    requires AllQueued(es, sources, open, chains, qs) && ParentsSettled(chains, qs)
    ensures QueueChains(es, sources, open, queue[1..], qs[1..])
    ensures AllQueued(es, sources, open, chains, qs[1..]) && ParentsSettled(chains, qs[1..])
  {
    assert ItemChain(queue[0], qs[0]);
    AllQueuedDrop(es, sources, open, chains, qs, [], queue[0].pid);
    assert qs[1..] + [] == qs[1..];
  }

  /** What is queued when the head is settled: its unsettled victims in ascending order. */
  ghost predicate ChildItems(es: seq<Edge>, open: set<int>, seen: set<int>, head: Item, children: seq<Item>) {
    && (forall it :: it in children ==>
          && it == Item(it.pid, head.depth + 1, Some(head.pid))
          && head.pid in open && Edge(it.pid, head.pid) in es && it.pid !in seen)
    && (forall i, j :: 0 <= i < j < |children| ==> children[i].pid <= children[j].pid)
    && (head.pid in open ==> forall v :: Edge(v, head.pid) in es && v !in seen ==>
          Item(v, head.depth + 1, Some(head.pid)) in children)
  }

  ghost function ChildChains(c: seq<int>, children: seq<Item>): (cs: seq<seq<int>>) {
    seq(|children|, i requires 0 <= i < |children| => c + [children[i].pid])
  }

  lemma SettleFrontier(es: seq<Edge>, sources: set<int>, open: set<int>, settled: map<int, nat>,
                       queue: seq<Item>, children: seq<Item>)
    requires Frontier(es, sources, open, settled, queue) && queue != [] && queue[0].pid !in settled
    requires ChildItems(es, open, settled.Keys + {queue[0].pid}, queue[0], children)
    ensures Frontier(es, sources, open, settled[queue[0].pid := queue[0].depth], queue[1..] + children)
  {
    var h := queue[0];
    assert h in queue;
    forall c | h.pid in open && Edge(c, h.pid) in es && c != h.pid
      ensures Covered(settled, queue[1..] + children, c, h.depth + 1)
    {
      if c in settled {
        if settled[c] > h.depth + 1 { WalkStep(es, sources, open, h.pid, c, h.depth); }
      } else {
        assert Item(c, h.depth + 1, Some(h.pid)) in children;
        assert Item(c, h.depth + 1, Some(h.pid)) in queue[1..] + children;
      }
    }
    FrontierSettle(es, sources, open, settled, queue, children);
  }

  lemma SettleQueueChains(es: seq<Edge>, sources: set<int>, open: set<int>, queue: seq<Item>, qs: seq<seq<int>>,
                          seen: set<int>, children: seq<Item>)
    requires QueueChains(es, sources, open, queue, qs) && queue != []
    requires ChildItems(es, open, seen, queue[0], children)
    ensures QueueChains(es, sources, open, queue[1..] + children, qs[1..] + ChildChains(qs[0], children))
  {
    var cs := ChildChains(qs[0], children);
    assert ItemChain(queue[0], qs[0]);
    forall k | 0 <= k < |children| ensures ItemChain(children[k], cs[k]) && Chain(es, sources, open, cs[k]) {
      assert children[k] in children;
      ChainExtend(es, sources, open, qs[0], children[k].pid);
    }
  }

  lemma SettleAllQueued(es: seq<Edge>, sources: set<int>, open: set<int>, chains: map<int, seq<int>>,
                        queue: seq<Item>, qs: seq<seq<int>>, children: seq<Item>)
    requires AllQueued(es, sources, open, chains, qs) && queue != [] && qs != [] && ItemChain(queue[0], qs[0])
    requires ChildItems(es, open, chains.Keys + {queue[0].pid}, queue[0], children)
    ensures AllQueued(es, sources, open, chains[queue[0].pid := qs[0]], qs[1..] + ChildChains(qs[0], children))
  {
    var h, cs := queue[0], ChildChains(qs[0], children);
    AllQueuedDrop(es, sources, open, chains, qs, cs, h.pid);
    forall v | h.pid in open && Edge(v, h.pid) in es && v !in chains && v != h.pid ensures qs[0] + [v] in qs[1..] + cs {
      assert Item(v, h.depth + 1, Some(h.pid)) in children;
      var k :| 0 <= k < |children| && children[k] == Item(v, h.depth + 1, Some(h.pid));
      assert cs[k] == qs[0] + [v];
      assert cs[k] in cs;
    }
  }

  lemma SettleChainsOrdered(qs: seq<seq<int>>, children: seq<Item>)
    requires ChainsOrdered(qs) && qs != [] && TwoLevels(qs)
    requires forall i :: 0 <= i < |qs| && |qs[i]| == |qs[0]| + 1 ==> Parent(qs[i]) != qs[0]
    requires forall i, j :: 0 <= i < j < |children| ==> children[i].pid <= children[j].pid
    ensures ChainsOrdered(qs[1..] + ChildChains(qs[0], children))
  {
    var h, n := qs[0], |qs| - 1;
    var q := qs[1..] + ChildChains(h, children);
    LexReflexive(h);
    OrderedTail(qs);
    forall i, j | 0 <= i < j < |q| && |q[i]| == |q[j]| ensures LexLe(q[i], q[j]) {
      if i >= n {
        LexExtend(h, h, children[i - n].pid, children[j - n].pid);
      } else if j >= n {
        var p := Parent(q[i]);
        assert q[i] == qs[i + 1] && q[i] == p + [Last(q[i])];
        LexExtend(p, h, Last(q[i]), children[j - n].pid);
      } else {
        assert q[i] == qs[i + 1] && q[j] == qs[j + 1];
      }
    }
    forall j | 0 <= j < |q| && |q[j]| == |q[0]| + 1 ensures LexLe(q[j][..|q[0]|], q[0]) {
      if j >= n {
        assert q[j][..|h|] == h && q[0] == qs[1];
      } else {
        assert q[j] == qs[1..][j] && q[0] == qs[1..][0];
      }
    }
  }

  lemma ParentsDiffer(chains: map<int, seq<int>>, qs: seq<seq<int>>)
    requires ParentsSettled(chains, qs) && qs != [] && qs[0] != [] && Last(qs[0]) !in chains
    ensures forall i :: 0 <= i < |qs| && |qs[i]| == |qs[0]| + 1 ==> Parent(qs[i]) != qs[0]
  {
    forall i | 0 <= i < |qs| && |qs[i]| == |qs[0]| + 1 ensures Parent(qs[i]) != qs[0] {
      assert qs[i] in qs;
    }
  }

  lemma SettleParents(chains: map<int, seq<int>>, qs: seq<seq<int>>, children: seq<Item>)
    requires ParentsSettled(chains, qs) && qs != [] && qs[0] != []
    ensures ParentsSettled(chains[Last(qs[0]) := qs[0]], qs[1..] + ChildChains(qs[0], children))
  {
    var cs := ChildChains(qs[0], children);
    forall c | c in qs[1..] + cs && |c| > 1 ensures Last(Parent(c)) in chains[Last(qs[0]) := qs[0]] {
      if c in cs {
        var k :| 0 <= k < |cs| && cs[k] == c;
        assert Parent(c) == qs[0];
      } else {
        assert c in qs;
      }
    }
  }

  lemma SettleBest(es: seq<Edge>, sources: set<int>, open: set<int>, settled: map<int, nat>,
                   chains: map<int, seq<int>>, v: int, c: seq<int>)
    requires SettledBest(es, sources, open, settled, chains) && BestChain(es, sources, open, v, c)
    ensures SettledBest(es, sources, open, settled[v := |c| - 1], chains[v := c])
  {
  }

  lemma TreeSettle(es: seq<Edge>, sources: set<int>, open: set<int>, settled: map<int, nat>,
                   chains: map<int, seq<int>>, queue: seq<Item>, qs: seq<seq<int>>, children: seq<Item>)
    requires TreeInv(es, sources, open, settled, chains, queue, qs) && queue != []
    requires queue[0].pid !in settled
    requires ChildItems(es, open, settled.Keys + {queue[0].pid}, queue[0], children)
    ensures TreeInv(es, sources, open, settled[queue[0].pid := queue[0].depth], chains[queue[0].pid := qs[0]],
                    queue[1..] + children, qs[1..] + ChildChains(qs[0], children))
  {
    hide Frontier, SettledBest, ChainsOrdered, QueueChains, AllQueued, ParentsSettled, ChildItems, BestChain, ItemChain,
         QueueOrdered, TwoLevels, Last;
    TreeFacts(es, sources, open, settled, chains, queue, qs);
    ChildOrder(es, open, settled.Keys + {queue[0].pid}, queue[0], children);
    HeadIsBest(es, sources, open, settled, chains, queue, qs);
    SettleBest(es, sources, open, settled, chains, queue[0].pid, qs[0]);
    SettleFrontier(es, sources, open, settled, queue, children);
    SettleQueueChains(es, sources, open, queue, qs, settled.Keys + {queue[0].pid}, children);
    SettleAllQueued(es, sources, open, chains, queue, qs, children);
    QueueTwoLevels(queue, qs);
    ParentsDiffer(chains, qs);
    SettleChainsOrdered(qs, children);
    SettleParents(chains, qs, children);
  }

  lemma TreeFacts(es: seq<Edge>, sources: set<int>, open: set<int>, settled: map<int, nat>,
                  chains: map<int, seq<int>>, queue: seq<Item>, qs: seq<seq<int>>)
    requires TreeInv(es, sources, open, settled, chains, queue, qs) && queue != []
    ensures QueueOrdered(queue) && |qs| == |queue| && settled.Keys == chains.Keys
    ensures forall i :: 0 <= i < |qs| ==> ItemChain(queue[i], qs[i])
    ensures ItemChain(queue[0], qs[0]) && qs[0] != [] && Last(qs[0]) == queue[0].pid
    ensures |qs[0]| - 1 == queue[0].depth
  {
    assert ItemChain(queue[0], qs[0]);
  }

  lemma ChildOrder(es: seq<Edge>, open: set<int>, seen: set<int>, head: Item, children: seq<Item>)
    requires ChildItems(es, open, seen, head, children)
    ensures forall i, j :: 0 <= i < j < |children| ==> children[i].pid <= children[j].pid
  {
  }
}
