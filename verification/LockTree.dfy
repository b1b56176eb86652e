/** `BuildLockTree` (internal/api/handler_locks.go): the blocking tree of pg_stat_activity rows. */
module LockTree {
  import opened Basics
  import opened LockGraph
  import opened LockChains
  import opened Sorting

  /** The columns of a row that the tree only carries along. */
  datatype Session = Session(usename: string, datname: string, state: string,
                             waitEventType: Option<string>, waitEvent: Option<string>,
                             durationSeconds: real, query: string)

  datatype RawLockEntry = RawLockEntry(pid: int, session: Session, blockingPids: seq<int>)

  datatype LockEntry = LockEntry(pid: int, depth: nat, session: Session, blockedByCount: nat,
                                 blockingCount: nat, isRoot: bool, parentPid: Option<int>)

  datatype LockTreeSummary = LockTreeSummary(rootBlockers: nat, totalBlocked: nat, maxDepth: nat)

  datatype LockTreeResponse = LockTreeResponse(summary: LockTreeSummary, locks: seq<LockEntry>)

  function Pids(raw: seq<RawLockEntry>): set<int> { set r | r in raw :: r.pid }

  /** The row a pid is looked up as: the last one carrying it. */
  ghost function RowOf(raw: seq<RawLockEntry>, pid: int): RawLockEntry
    requires pid in Pids(raw)
  {
    var last := raw[|raw| - 1];
    if last.pid == pid then last
    else
      assert raw == raw[..|raw| - 1] + [last];
      RowOf(raw[..|raw| - 1], pid)
  }

  function RowEdges(r: RawLockEntry): (es: seq<Edge>) {
    seq(|r.blockingPids|, i requires 0 <= i < |r.blockingPids| => Edge(r.pid, r.blockingPids[i]))
  }

  /** The blocking edges of the rows, in row order. */
  function EdgesOf(raw: seq<RawLockEntry>): seq<Edge> {
    if raw == [] then [] else EdgesOf(raw[..|raw| - 1]) + RowEdges(raw[|raw| - 1])
  }

  /** Who blocks `p`, with repetitions, in edge order. */
  ghost function BlockerList(es: seq<Edge>, p: int): seq<int> {
    if es == [] then []
    else
      var e := es[|es| - 1];
      BlockerList(es[..|es| - 1], p) + if e.blocked == p then [e.blocker] else []
  }

  /** Whom `p` blocks, with repetitions, in edge order. */
  ghost function VictimList(es: seq<Edge>, p: int): seq<int> {
    if es == [] then []
    else
      var e := es[|es| - 1];
      VictimList(es[..|es| - 1], p) + if e.blocker == p then [e.blocked] else []
  }

  lemma {:induction false} ListMembers(es: seq<Edge>, p: int, q: int)
    ensures q in BlockerList(es, p) <==> Edge(p, q) in es
    ensures q in VictimList(es, p) <==> Edge(q, p) in es
  {
    if es != [] {
      ListMembers(es[..|es| - 1], p, q);
      assert es == es[..|es| - 1] + [es[|es| - 1]];
    }
  }

  lemma {:induction false} BlockedAreRows(raw: seq<RawLockEntry>)
    ensures BlockedPids(EdgesOf(raw)) <= Pids(raw)
  {
    if raw != [] {
      var init, last := raw[..|raw| - 1], raw[|raw| - 1];
      BlockedAreRows(init);
      assert raw == init + [last];
      forall e | e in EdgesOf(raw) ensures e.blocked in Pids(raw) {
        if e in EdgesOf(init) {
          assert e.blocked in BlockedPids(EdgesOf(init));
        } else {
          assert e.blocked == last.pid;
        }
      }
    }
  }

  /** The entry listed for a pid whose tree path is `c`. */
  ghost function Listing(raw: seq<RawLockEntry>, c: seq<int>): LockEntry
    requires c != [] && Last(c) in Pids(raw)
  {
    var pid, es := Last(c), EdgesOf(raw);
    LockEntry(pid, |c| - 1, RowOf(raw, pid).session, |BlockerList(es, pid)|, |VictimList(es, pid)|,
              |c| == 1, if |c| == 1 then None else Some(c[|c| - 2]))
  }

  /** The roots a search can leave: unblocked blockers that are among the rows. */
  ghost function PresentRoots(raw: seq<RawLockEntry>): set<int> { Roots(EdgesOf(raw)) * Pids(raw) }

  ghost predicate Best(raw: seq<RawLockEntry>, pid: int, c: seq<int>) {
    BestChain(EdgesOf(raw), PresentRoots(raw), Pids(raw), pid, c)
  }

  ghost predicate Listed(locks: seq<LockEntry>, pid: int) {
    exists e :: e in locks && e.pid == pid
  }

  ghost predicate EntryLt(a: LockEntry, b: LockEntry) {
    a.depth < b.depth || (a.depth == b.depth && a.pid < b.pid)
  }

  /** What `BuildLockTree` promises; `ResponseUnique` shows that it leaves no freedom. */
  ghost predicate IsLockTree(raw: seq<RawLockEntry>, r: LockTreeResponse) {
    && (forall pid :: Listed(r.locks, pid) <==> Reachable(EdgesOf(raw), PresentRoots(raw), Pids(raw), pid))
    && (forall e :: e in r.locks ==> IsListed(raw, e))
    && StrictlyOrdered(r.locks)
    && r.summary == SummaryOf(raw, r.locks)
  }

  /** The entry shows the best chain to its pid. */
  ghost predicate IsListed(raw: seq<RawLockEntry>, e: LockEntry) {
    exists c :: Best(raw, e.pid, c) && Last(c) in Pids(raw) && e == Listing(raw, c)
  }

  /** By depth, then pid. */
  ghost predicate StrictlyOrdered(locks: seq<LockEntry>) {
    forall i, j :: 0 <= i < j < |locks| ==> EntryLt(locks[i], locks[j])
  }

  ghost function NonRoots(entries: seq<LockEntry>): set<int> { set e | e in entries && !e.isRoot :: e.pid }

  ghost function SummaryOf(raw: seq<RawLockEntry>, locks: seq<LockEntry>): LockTreeSummary {
    LockTreeSummary(|Roots(EdgesOf(raw))|, |NonRoots(locks)|, if locks == [] then 0 else locks[|locks| - 1].depth)
  }

  // ---- the algorithm

  function Get(m: map<int, seq<int>>, k: int): seq<int> { if k in m then m[k] else [] }

  method IndexRows(raw: seq<RawLockEntry>) returns (byPid: map<int, RawLockEntry>)
    ensures byPid.Keys == Pids(raw)
    ensures forall p :: p in byPid ==> byPid[p] == RowOf(raw, p)
  {
    byPid := map[];
    for i := 0 to |raw|
      invariant byPid.Keys == Pids(raw[..i])
      invariant forall p :: p in byPid ==> byPid[p] == RowOf(raw[..i], p)
    {
      assert raw[..i + 1] == raw[..i] + [raw[i]] && raw[..i + 1][..i] == raw[..i];
      byPid := byPid[raw[i].pid := raw[i]];
    }
    assert raw[..|raw|] == raw;
  }

  /** The two maps hold the blocker and victim lists, and no empty list. */
  ghost predicate Adjacent(es: seq<Edge>, blockedBy: map<int, seq<int>>, blocks: map<int, seq<int>>) {
    && (forall p {:trigger Get(blockedBy, p)} :: Get(blockedBy, p) == BlockerList(es, p))
    && (forall p {:trigger Get(blocks, p)} :: Get(blocks, p) == VictimList(es, p))
    && (forall p :: p in blockedBy ==> blockedBy[p] != [])
    && (forall p :: p in blocks ==> blocks[p] != [])
  }

  lemma ListsAdd(es: seq<Edge>, e: Edge, p: int)
    ensures BlockerList(es + [e], p) == if e.blocked == p then BlockerList(es, p) + [e.blocker] else BlockerList(es, p)
    ensures VictimList(es + [e], p) == if e.blocker == p then VictimList(es, p) + [e.blocked] else VictimList(es, p)
  {
    assert (es + [e])[..|es|] == es;
  }

  lemma AdjacentAdd(es: seq<Edge>, blockedBy: map<int, seq<int>>, blocks: map<int, seq<int>>, e: Edge)
    requires Adjacent(es, blockedBy, blocks)
    ensures Adjacent(es + [e], blockedBy[e.blocked := Get(blockedBy, e.blocked) + [e.blocker]],
                     blocks[e.blocker := Get(blocks, e.blocker) + [e.blocked]])
  {
    var blockedBy' := blockedBy[e.blocked := Get(blockedBy, e.blocked) + [e.blocker]];
    var blocks' := blocks[e.blocker := Get(blocks, e.blocker) + [e.blocked]];
    hide BlockerList, VictimList;
    forall p ensures Get(blockedBy', p) == BlockerList(es + [e], p) && Get(blocks', p) == VictimList(es + [e], p) {
      ListsAdd(es, e, p);
      assert Get(blockedBy, p) == BlockerList(es, p) && Get(blocks, p) == VictimList(es, p);
    }
  }

  lemma SnocSlice(a: seq<Edge>, b: seq<Edge>, j: nat)
    requires j < |b|
    ensures (a + b[..j]) + [b[j]] == a + b[..j + 1]
  {
  }

  method AddEdge(ghost es: seq<Edge>, e: Edge, blockedBy: map<int, seq<int>>, blocks: map<int, seq<int>>)
    returns (blockedBy': map<int, seq<int>>, blocks': map<int, seq<int>>)
    requires Adjacent(es, blockedBy, blocks)
    ensures Adjacent(es + [e], blockedBy', blocks')
  {
    AdjacentAdd(es, blockedBy, blocks, e);
    blockedBy' := blockedBy[e.blocked := Get(blockedBy, e.blocked) + [e.blocker]];
    blocks' := blocks[e.blocker := Get(blocks, e.blocker) + [e.blocked]];
  }

  method AddRow(ghost es: seq<Edge>, row: RawLockEntry, blockedBy: map<int, seq<int>>, blocks: map<int, seq<int>>)
    returns (blockedBy': map<int, seq<int>>, blocks': map<int, seq<int>>)
    requires Adjacent(es, blockedBy, blocks)
    ensures Adjacent(es + RowEdges(row), blockedBy', blocks')
  {
    blockedBy', blocks' := blockedBy, blocks;
    ghost var added, done := RowEdges(row), es;
    for j := 0 to |row.blockingPids|
      invariant done == es + added[..j]
      invariant Adjacent(done, blockedBy', blocks')
    {
      blockedBy', blocks' := AddEdge(done, Edge(row.pid, row.blockingPids[j]), blockedBy', blocks');
      SnocSlice(es, added, j);
      done := done + [added[j]];
    }
    assert added[..|row.blockingPids|] == added;
  }

  method BuildAdjacency(raw: seq<RawLockEntry>) returns (blockedBy: map<int, seq<int>>, blocks: map<int, seq<int>>)
    ensures Adjacent(EdgesOf(raw), blockedBy, blocks)
  {
    blockedBy, blocks := map[], map[];
    for i := 0 to |raw|
      invariant Adjacent(EdgesOf(raw[..i]), blockedBy, blocks)
    {
      blockedBy, blocks := AddRow(EdgesOf(raw[..i]), raw[i], blockedBy, blocks);
      assert raw[..i + 1][..i] == raw[..i];
    }
    assert raw[..|raw|] == raw;
  }

  method FindRoots(ghost es: seq<Edge>, blockedBy: map<int, seq<int>>, blocks: map<int, seq<int>>)
    returns (roots: seq<int>)
    requires Adjacent(es, blockedBy, blocks)
    ensures multiset(roots) == multiset(Roots(es)) && |roots| == |Roots(es)|
    ensures SortedBy(roots, IntLe)
  {
    var involved := blockedBy.Keys + (set p, b | p in blockedBy && b in blockedBy[p] :: b) + blocks.Keys;
    var unblocked := set p | p in involved && |Get(blockedBy, p)| == 0;
    forall p ensures p in unblocked <==> p in Roots(es) {
      hide Adjacent;
      RootsAreUnblocked(es, blockedBy, blocks, p);
    }
    assert unblocked == Roots(es);
    hide Adjacent, Roots, Get;
    var found := Enumerate(unblocked);
    roots := Sort(found, IntLe);
    SamePermutation(roots, found);
  }

  lemma RootsAreUnblocked(es: seq<Edge>, blockedBy: map<int, seq<int>>, blocks: map<int, seq<int>>, p: int)
    requires Adjacent(es, blockedBy, blocks)
    ensures p in Blockers(es) <==> p in blocks
    ensures p in BlockedPids(es) <==> Get(blockedBy, p) != []
    ensures forall q :: q in blockedBy && p in blockedBy[q] ==> p in Blockers(es)
  {
    if p in Blockers(es) {
      var e :| e in es && e.blocker == p;
      ListMembers(es, p, e.blocked);
      assert Get(blocks, p) != [];
    }
    if p in blocks {
      var q := blocks[p][0];
      assert q in Get(blocks, p);
      ListMembers(es, p, q);
      assert Edge(q, p).blocker in Blockers(es);
    }
    if p in BlockedPids(es) {
      var e :| e in es && e.blocked == p;
      ListMembers(es, p, e.blocker);
    }
    if Get(blockedBy, p) != [] {
      var b := Get(blockedBy, p)[0];
      assert b in Get(blockedBy, p);
      ListMembers(es, p, b);
      assert Edge(p, b).blocked in BlockedPids(es);
    }
    forall q | q in blockedBy && p in blockedBy[q] ensures p in Blockers(es) {
      assert p in Get(blockedBy, q);
      ListMembers(es, q, p);
      assert Edge(q, p).blocker in Blockers(es);
    }
  }

  /** The entries written so far list exactly the settled rows, each under its best chain. */
  ghost predicate EntriesInv(raw: seq<RawLockEntry>, chains: map<int, seq<int>>, entries: seq<LockEntry>) {
    && (forall e :: e in entries ==>
          && e.pid in chains && e.pid in Pids(raw)
          && chains[e.pid] != [] && Last(chains[e.pid]) == e.pid && e == Listing(raw, chains[e.pid]))
    && (forall i, j :: 0 <= i < j < |entries| ==> entries[i].pid != entries[j].pid)
    && (forall v :: v in chains && v in Pids(raw) ==> Listed(entries, v))
  }

  ghost predicate DepthInv(entries: seq<LockEntry>, maxDepth: nat) {
    && (forall e :: e in entries ==> e.depth <= maxDepth)
    && (maxDepth > 0 ==> exists e :: e in entries && e.depth == maxDepth)
  }

  lemma EntriesAdd(raw: seq<RawLockEntry>, chains: map<int, seq<int>>, entries: seq<LockEntry>,
                   c: seq<int>, e: LockEntry)
    requires EntriesInv(raw, chains, entries)
    requires c != [] && Last(c) !in chains && Last(c) in Pids(raw) && e == Listing(raw, c)
    ensures EntriesInv(raw, chains[Last(c) := c], entries + [e])
  {
    var chains', entries' := chains[Last(c) := c], entries + [e];
    assert e in entries';
    assert forall i :: 0 <= i < |entries| ==> entries[i] in entries;
    forall v | v in chains' && v in Pids(raw) ensures Listed(entries', v) {
      if v != Last(c) {
        var x :| x in entries && x.pid == v;
        assert x in entries';
      }
    }
  }

  ghost function RootChains(roots: seq<int>): seq<seq<int>> {
    seq(|roots|, i requires 0 <= i < |roots| => [roots[i]])
  }

  ghost predicate RootItems(roots: seq<int>, queue: seq<Item>) {
    |queue| == |roots| && forall i :: 0 <= i < |roots| ==> queue[i] == Item(roots[i], 0, None)
  }

  lemma StartFrontier(es: seq<Edge>, sources: set<int>, open: set<int>, roots: seq<int>, queue: seq<Item>)
    requires multiset(roots) == multiset(sources) && RootItems(roots, queue)
    ensures Frontier(es, sources, open, map[], queue)
  {
    forall it | it in queue ensures Walk(es, sources, open, it.pid, it.depth) {
      var i :| 0 <= i < |queue| && queue[i] == it;
      assert roots[i] in multiset(roots);
    }
    forall v | v in sources ensures Covered(map[], queue, v, 0) {
      assert v in multiset(roots);
      var i :| 0 <= i < |roots| && roots[i] == v;
      assert queue[i] in queue;
    }
  }

  lemma StartChains(es: seq<Edge>, sources: set<int>, open: set<int>, roots: seq<int>, queue: seq<Item>)
    requires multiset(roots) == multiset(sources) && RootItems(roots, queue)
    ensures QueueChains(es, sources, open, queue, RootChains(roots))
    ensures AllQueued(es, sources, open, map[], RootChains(roots))
    ensures ParentsSettled(map[], RootChains(roots))
  {
    var qs := RootChains(roots);
    forall i | 0 <= i < |qs| ensures ItemChain(queue[i], qs[i]) && Chain(es, sources, open, qs[i]) {
      assert roots[i] in multiset(roots);
    }
    forall v | v in sources ensures [v] in qs {
      assert v in multiset(roots);
      var i :| 0 <= i < |roots| && roots[i] == v;
      assert qs[i] == [v];
    }
  }

  lemma StartOrdered(roots: seq<int>)
    requires SortedBy(roots, IntLe)
    ensures ChainsOrdered(RootChains(roots))
  {
    var qs := RootChains(roots);
    forall i, j | 0 <= i < j < |qs| ensures LexLe(qs[i], qs[j]) {
      assert IntLe(roots[i], roots[j]);
      assert qs[i][1..] == [];
    }
  }

  lemma StartSearch(es: seq<Edge>, sources: set<int>, open: set<int>, roots: seq<int>, queue: seq<Item>)
    requires multiset(roots) == multiset(sources) && SortedBy(roots, IntLe) && RootItems(roots, queue)
    ensures TreeInv(es, sources, open, map[], map[], queue, RootChains(roots))
  {
    StartFrontier(es, sources, open, roots, queue);
    StartChains(es, sources, open, roots, queue);
    StartOrdered(roots);
  }

  method QueueRoots(ghost es: seq<Edge>, ghost sources: set<int>, ghost open: set<int>, roots: seq<int>)
    returns (queue: seq<Item>, ghost qs: seq<seq<int>>)
    requires multiset(roots) == multiset(sources) && SortedBy(roots, IntLe)
    ensures TreeInv(es, sources, open, map[], map[], queue, qs)
  {
    queue := [];
    for i := 0 to |roots|
      invariant |queue| == i && forall k :: 0 <= k < i ==> queue[k] == Item(roots[k], 0, None)
    {
      queue := queue + [Item(roots[i], 0, None)];
    }
    StartSearch(es, sources, open, roots, queue);
    qs := RootChains(roots);
  }

  method QueueChildren(ghost es: seq<Edge>, ghost open: set<int>, item: Item, children: seq<int>, visited: set<int>)
    returns (items: seq<Item>)
    requires item.pid in open && SortedBy(children, IntLe)
    requires forall v :: v in children <==> Edge(v, item.pid) in es
    ensures ChildItems(es, open, visited, item, items)
  {
    items := [];
    for i := 0 to |children|
      invariant forall it :: it in items ==>
          it == Item(it.pid, item.depth + 1, Some(item.pid)) && it.pid in children[..i] && it.pid !in visited
      invariant forall a, b :: 0 <= a < b < |items| ==> items[a].pid <= items[b].pid
      invariant forall k :: 0 <= k < i && children[k] !in visited ==>
          Item(children[k], item.depth + 1, Some(item.pid)) in items
    {
      if children[i] !in visited {
        forall a | 0 <= a < |items| ensures items[a].pid <= children[i] {
          assert items[a] in items;
          var k :| 0 <= k < i && children[k] == items[a].pid;
          assert IntLe(children[k], children[i]);
        }
        items := items + [Item(children[i], item.depth + 1, Some(item.pid))];
      }
    }
    forall it | it in items ensures Edge(it.pid, item.pid) in es {
      assert it.pid in children;
    }
    forall v | Edge(v, item.pid) in es && v !in visited ensures Item(v, item.depth + 1, Some(item.pid)) in items {
      assert v in children;
      var k :| 0 <= k < |children| && children[k] == v;
    }
  }

  lemma QueuedInRange(raw: seq<RawLockEntry>, v: int, d: nat)
    requires Walk(EdgesOf(raw), Roots(EdgesOf(raw)), Pids(raw), v, d)
    ensures v in Roots(EdgesOf(raw)) + Pids(raw)
    ensures d > 0 ==> v in Pids(raw)
  {
    if d > 0 {
      WalkEndsBlocked(EdgesOf(raw), Roots(EdgesOf(raw)), Pids(raw), v, d);
      BlockedAreRows(raw);
    }
  }

  lemma DepthAdd(entries: seq<LockEntry>, maxDepth: nat, e: LockEntry)
    requires DepthInv(entries, maxDepth)
    ensures DepthInv(entries + [e], if e.depth > maxDepth then e.depth else maxDepth)
  {
    assert e in entries + [e];
    if e.depth <= maxDepth && maxDepth > 0 {
      var x :| x in entries && x.depth == maxDepth;
      assert x in entries + [e];
    }
  }

  /** A pid without a row adds nothing and leads nowhere. */
  lemma VisitAbsent(raw: seq<RawLockEntry>, chains: map<int, seq<int>>, entries: seq<LockEntry>, item: Item,
                    c: seq<int>, visited: set<int>)
    requires EntriesInv(raw, chains, entries) && item.pid !in Pids(raw) && item.pid !in chains
    ensures EntriesInv(raw, chains[item.pid := c], entries)
    ensures ChildItems(EdgesOf(raw), Pids(raw), visited, item, [])
  {
    hide Listing, EdgesOf;
  }

  /** One visit: list the pid if it is a row, and collect its children for the queue. */
  method Visit(raw: seq<RawLockEntry>, byPid: map<int, RawLockEntry>, blockedBy: map<int, seq<int>>,
               blocks: map<int, seq<int>>, item: Item, visited: set<int>, entries: seq<LockEntry>, maxDepth: nat,
               ghost chains: map<int, seq<int>>, ghost c: seq<int>)
    returns (entries': seq<LockEntry>, maxDepth': nat, children: seq<Item>)
    requires byPid.Keys == Pids(raw) && forall p :: p in byPid ==> byPid[p] == RowOf(raw, p)
    requires Adjacent(EdgesOf(raw), blockedBy, blocks)
    requires ItemChain(item, c) && item.pid !in chains && (item.depth > 0 ==> item.pid in Pids(raw))
    requires EntriesInv(raw, chains, entries) && DepthInv(entries, maxDepth)
    ensures EntriesInv(raw, chains[item.pid := c], entries') && DepthInv(entries', maxDepth')
    ensures ChildItems(EdgesOf(raw), Pids(raw), visited, item, children)
  {
    entries', maxDepth', children := entries, maxDepth, [];
    if item.depth > maxDepth {
      maxDepth' := item.depth;
    }
    hide EntriesInv, ChildItems, EdgesOf;
    if item.pid !in byPid {
      VisitAbsent(raw, chains, entries, item, c, visited);
      return;
    }
    var row := byPid[item.pid];
    var entry := LockEntry(row.pid, item.depth, row.session, |Get(blockedBy, row.pid)|, |Get(blocks, row.pid)|,
                           item.depth == 0, item.parent);
    RowHasPid(raw, item.pid);
    assert entry == Listing(raw, c);
    hide Listing;
    EntriesAdd(raw, chains, entries, c, entry);
    DepthAdd(entries, maxDepth, entry);
    entries' := entries + [entry];
    var sorted := Sort(Get(blocks, item.pid), IntLe);
    SamePermutation(sorted, Get(blocks, item.pid));
    forall v ensures v in sorted <==> Edge(v, item.pid) in EdgesOf(raw) {
      ListMembers(EdgesOf(raw), item.pid, v);
    }
    children := QueueChildren(EdgesOf(raw), Pids(raw), item, sorted, visited);
  }

  /** The variables of the search loop. */
  datatype SearchState = SearchState(queue: seq<Item>, visited: set<int>, entries: seq<LockEntry>, maxDepth: nat)

  /** The proof's view of the search: distances and chains of what is settled, chains of what is queued. */
  datatype Trail = Trail(settled: map<int, nat>, chains: map<int, seq<int>>, qs: seq<seq<int>>)

  ghost predicate SearchInv(raw: seq<RawLockEntry>, st: SearchState, tr: Trail) {
    && st.visited == tr.settled.Keys
    && TreeInv(EdgesOf(raw), Roots(EdgesOf(raw)), Pids(raw), tr.settled, tr.chains, st.queue, tr.qs)
    && EntriesInv(raw, tr.chains, st.entries)
    && DepthInv(st.entries, st.maxDepth)
  }

  /** The pids the search has not visited yet. */
  ghost function Unvisited(raw: seq<RawLockEntry>, visited: set<int>): set<int> {
    Roots(EdgesOf(raw)) + Pids(raw) - visited
  }

  lemma UnvisitedShrinks(raw: seq<RawLockEntry>, visited: set<int>, pid: int)
    requires pid in Unvisited(raw, visited)
    ensures |Unvisited(raw, visited + {pid})| < |Unvisited(raw, visited)|
  {
    assert Unvisited(raw, visited + {pid}) == Unvisited(raw, visited) - {pid};
  }

  lemma SearchDrop(raw: seq<RawLockEntry>, st: SearchState, tr: Trail)
    requires SearchInv(raw, st, tr) && st.queue != [] && st.queue[0].pid in st.visited
    ensures tr.qs != [] && SearchInv(raw, st.(queue := st.queue[1..]), tr.(qs := tr.qs[1..]))
  {
    TreeDrop(EdgesOf(raw), Roots(EdgesOf(raw)), Pids(raw), tr.settled, tr.chains, st.queue, tr.qs);
  }

  lemma SearchHead(raw: seq<RawLockEntry>, st: SearchState, tr: Trail)
    requires SearchInv(raw, st, tr) && st.queue != [] && st.queue[0].pid !in st.visited
    ensures tr.qs != [] && ItemChain(st.queue[0], tr.qs[0]) && st.queue[0].pid !in tr.chains
    ensures st.queue[0].depth > 0 ==> st.queue[0].pid in Pids(raw)
    ensures |Unvisited(raw, st.visited + {st.queue[0].pid})| < |Unvisited(raw, st.visited)|
    ensures EntriesInv(raw, tr.chains, st.entries) && DepthInv(st.entries, st.maxDepth)
  {
    assert st.queue[0] in st.queue;
    QueuedInRange(raw, st.queue[0].pid, st.queue[0].depth);
    UnvisitedShrinks(raw, st.visited, st.queue[0].pid);
  }

  lemma SearchSettle(raw: seq<RawLockEntry>, st: SearchState, tr: Trail, st': SearchState, tr': Trail,
                     children: seq<Item>)
    requires SearchInv(raw, st, tr) && st.queue != [] && tr.qs != [] && st.queue[0].pid !in st.visited
    requires st'.queue == st.queue[1..] + children && st'.visited == st.visited + {st.queue[0].pid}
    requires tr'.settled == tr.settled[st.queue[0].pid := st.queue[0].depth]
    requires tr'.chains == tr.chains[st.queue[0].pid := tr.qs[0]]
    requires tr'.qs == tr.qs[1..] + ChildChains(tr.qs[0], children)
    requires ChildItems(EdgesOf(raw), Pids(raw), st'.visited, st.queue[0], children)
    requires EntriesInv(raw, tr'.chains, st'.entries) && DepthInv(st'.entries, st'.maxDepth)
    ensures SearchInv(raw, st', tr')
  {
    TreeSettle(EdgesOf(raw), Roots(EdgesOf(raw)), Pids(raw), tr.settled, tr.chains, st.queue, tr.qs, children);
  }

  /** One turn of the search loop: drop a pid met before, or visit the head of the queue. */
  method Turn(raw: seq<RawLockEntry>, byPid: map<int, RawLockEntry>, blockedBy: map<int, seq<int>>,
              blocks: map<int, seq<int>>, st: SearchState, ghost tr: Trail)
    returns (st': SearchState, ghost tr': Trail)
    requires byPid.Keys == Pids(raw) && forall p :: p in byPid ==> byPid[p] == RowOf(raw, p)
    requires Adjacent(EdgesOf(raw), blockedBy, blocks)
    requires SearchInv(raw, st, tr) && st.queue != []
    ensures SearchInv(raw, st', tr')
    ensures |Unvisited(raw, st'.visited)| < |Unvisited(raw, st.visited)|
            || (st'.visited == st.visited && |st'.queue| < |st.queue|)
  {
    var item := st.queue[0];
    if item.pid in st.visited {
      SearchDrop(raw, st, tr);
      st', tr' := st.(queue := st.queue[1..]), tr.(qs := tr.qs[1..]);
    } else {
      SearchHead(raw, st, tr);
      var visited := st.visited + {item.pid};
      var entries, maxDepth, children :=
        Visit(raw, byPid, blockedBy, blocks, item, visited, st.entries, st.maxDepth, tr.chains, tr.qs[0]);
      st' := SearchState(st.queue[1..] + children, visited, entries, maxDepth);
      tr' := Trail(tr.settled[item.pid := item.depth], tr.chains[item.pid := tr.qs[0]],
                   tr.qs[1..] + ChildChains(tr.qs[0], children));
      SearchSettle(raw, st, tr, st', tr', children);
    }
  }

  method Search(raw: seq<RawLockEntry>, byPid: map<int, RawLockEntry>, blockedBy: map<int, seq<int>>,
                blocks: map<int, seq<int>>, roots: seq<int>)
    returns (st: SearchState, ghost tr: Trail)
    requires byPid.Keys == Pids(raw) && forall p :: p in byPid ==> byPid[p] == RowOf(raw, p)
    requires Adjacent(EdgesOf(raw), blockedBy, blocks)
    requires multiset(roots) == multiset(Roots(EdgesOf(raw))) && SortedBy(roots, IntLe)
    ensures SearchInv(raw, st, tr) && st.queue == []
  {
    var queue, qs := QueueRoots(EdgesOf(raw), Roots(EdgesOf(raw)), Pids(raw), roots);
    st, tr := SearchState(queue, {}, [], 0), Trail(map[], map[], qs);
    while st.queue != []
      invariant SearchInv(raw, st, tr)
      decreases |Unvisited(raw, st.visited)|, |st.queue|
    {
      st, tr := Turn(raw, byPid, blockedBy, blocks, st, tr);
    }
  }

  lemma {:induction false} RowHasPid(raw: seq<RawLockEntry>, pid: int)
    requires pid in Pids(raw)
    ensures RowOf(raw, pid).pid == pid
  {
    var last := raw[|raw| - 1];
    if last.pid != pid {
      assert raw == raw[..|raw| - 1] + [last];
      RowHasPid(raw[..|raw| - 1], pid);
    }
  }

  predicate EntryLe(a: LockEntry, b: LockEntry) {
    a.depth < b.depth || (a.depth == b.depth && a.pid <= b.pid)
  }

  ghost predicate DistinctPids(entries: seq<LockEntry>) {
    forall i, j :: 0 <= i < j < |entries| ==> entries[i].pid != entries[j].pid
  }

  lemma NonRootsSnoc(entries: seq<LockEntry>, i: nat)
    requires i < |entries| && DistinctPids(entries)
    ensures entries[i].pid !in NonRoots(entries[..i])
    ensures NonRoots(entries[..i + 1]) == NonRoots(entries[..i]) + if entries[i].isRoot then {} else {entries[i].pid}
  {
    assert entries[..i + 1] == entries[..i] + [entries[i]];
  }

  method CountBlocked(entries: seq<LockEntry>) returns (n: nat)
    requires DistinctPids(entries)
    ensures n == |NonRoots(entries)|
  {
    n := 0;
    for i := 0 to |entries|
      invariant n == |NonRoots(entries[..i])|
    {
      NonRootsSnoc(entries, i);
      hide NonRoots, DistinctPids;
      if !entries[i].isRoot {
        n := n + 1;
      }
    }
    assert entries[..|entries|] == entries;
  }

  lemma OccursOnce(a: seq<LockEntry>, x: LockEntry)
    requires DistinctPids(a) && x in a
    ensures multiset(a)[x] == 1
  {
    var k :| 0 <= k < |a| && a[k] == x;
    assert a == a[..k] + [a[k]] + a[k + 1..];
    assert x !in a[..k] && x !in a[k + 1..];
  }

  lemma OccursTwice(b: seq<LockEntry>, i: nat, j: nat)
    requires i < j < |b| && b[i] == b[j]
    ensures multiset(b)[b[i]] >= 2
  {
    var rest := b[..j] + b[j + 1..];
    assert b == b[..j] + [b[j]] + b[j + 1..];
    assert rest[i] == b[i] && b[i] in multiset(rest);
  }

  /** Sorting keeps pids distinct. */
  lemma DistinctPermutation(a: seq<LockEntry>, b: seq<LockEntry>)
    requires multiset(a) == multiset(b) && DistinctPids(a)
    ensures DistinctPids(b)
  {
    SamePermutation(a, b);
    forall i, j | 0 <= i < j < |b| ensures b[i].pid != b[j].pid {
      if b[i].pid == b[j].pid {
        assert b[i] in a && b[j] in a;
        assert b[i] == b[j];
        OccursOnce(a, b[i]);
        OccursTwice(b, i, j);
      }
    }
  }

  // ---- roots that are not rows contribute nothing below themselves

  lemma {:induction false} PresentWalk(es: seq<Edge>, sources: set<int>, open: set<int>, v: int, d: nat)
    requires v in open && Walk(es, sources, open, v, d)
    ensures Walk(es, sources * open, open, v, d)
    decreases d
  {
    if d > 0 {
      var u :| u in open && Edge(v, u) in es && Walk(es, sources, open, u, d - 1);
      PresentWalk(es, sources, open, u, d - 1);
    }
  }

  lemma {:induction false} PresentChain(raw: seq<RawLockEntry>, c: seq<int>)
    requires Chain(EdgesOf(raw), Roots(EdgesOf(raw)), Pids(raw), c) && Last(c) in Pids(raw)
    ensures Chain(EdgesOf(raw), PresentRoots(raw), Pids(raw), c)
  {
    if |c| > 1 { PresentChain(raw, Parent(c)); }
  }

  lemma {:induction false} ChainMonotone(es: seq<Edge>, s1: set<int>, s2: set<int>, open: set<int>, c: seq<int>)
    requires s1 <= s2 && Chain(es, s1, open, c)
    ensures Chain(es, s2, open, c)
  {
    if |c| > 1 { ChainMonotone(es, s1, s2, open, Parent(c)); }
  }

  lemma PresentBest(raw: seq<RawLockEntry>, v: int, c: seq<int>)
    requires v in Pids(raw) && BestChain(EdgesOf(raw), Roots(EdgesOf(raw)), Pids(raw), v, c)
    ensures Best(raw, v, c)
  {
    var es, all, present, open := EdgesOf(raw), Roots(EdgesOf(raw)), PresentRoots(raw), Pids(raw);
    PresentChain(raw, c);
    PresentWalk(es, all, open, v, |c| - 1);
    forall k: nat | k < |c| - 1 ensures !Walk(es, present, open, v, k) {
      if Walk(es, present, open, v, k) { WalkMonotone(es, present, open, all, open, v, k); }
    }
    forall o | Chain(es, present, open, o) && Last(o) == v && |o| == |c| ensures LexLe(c, o) {
      ChainMonotone(es, present, all, open, o);
    }
  }

  lemma PresentReachable(raw: seq<RawLockEntry>, v: int)
    ensures Reachable(EdgesOf(raw), PresentRoots(raw), Pids(raw), v)
            <==> v in Pids(raw) && Reachable(EdgesOf(raw), Roots(EdgesOf(raw)), Pids(raw), v)
  {
    var es, all, present, open := EdgesOf(raw), Roots(EdgesOf(raw)), PresentRoots(raw), Pids(raw);
    if d: nat :| Walk(es, present, open, v, d) {
      WalkMonotone(es, present, open, all, open, v, d);
      if d > 0 { QueuedInRange(raw, v, d); }
    }
    if v in open && Reachable(es, all, open, v) {
      var d: nat :| Walk(es, all, open, v, d);
      PresentWalk(es, all, open, v, d);
    }
  }

  lemma SearchResult(raw: seq<RawLockEntry>, st: SearchState, tr: Trail)
    requires SearchInv(raw, st, tr) && st.queue == []
    ensures forall pid :: Listed(st.entries, pid) <==> Reachable(EdgesOf(raw), PresentRoots(raw), Pids(raw), pid)
    ensures forall e :: e in st.entries ==> IsListed(raw, e)
  {
    FrontierDone(EdgesOf(raw), Roots(EdgesOf(raw)), Pids(raw), tr.settled);
    forall pid ensures Listed(st.entries, pid) <==> Reachable(EdgesOf(raw), PresentRoots(raw), Pids(raw), pid) {
      PresentReachable(raw, pid);
    }
    forall e | e in st.entries ensures IsListed(raw, e) {
      PresentBest(raw, e.pid, tr.chains[e.pid]);
    }
  }

  lemma LastIsDeepest(locks: seq<LockEntry>, maxDepth: nat)
    requires DepthInv(locks, maxDepth) && SortedBy(locks, EntryLe)
    ensures maxDepth == if locks == [] then 0 else locks[|locks| - 1].depth
  {
    if locks != [] {
      var last := locks[|locks| - 1];
      assert last in locks;
      if maxDepth > 0 {
        var e :| e in locks && e.depth == maxDepth;
        var i :| 0 <= i < |locks| && locks[i] == e;
        assert i < |locks| - 1 ==> EntryLe(locks[i], last);
      }
    }
  }

  lemma Assemble(raw: seq<RawLockEntry>, st: SearchState, tr: Trail, r: LockTreeResponse)
    requires SearchInv(raw, st, tr) && st.queue == []
    requires multiset(r.locks) == multiset(st.entries) && SortedBy(r.locks, EntryLe)
    requires r.summary == LockTreeSummary(|Roots(EdgesOf(raw))|, |NonRoots(r.locks)|, st.maxDepth)
    ensures IsLockTree(raw, r)
  {
    hide *;
    SearchResult(raw, st, tr);
    SearchDistinct(raw, st, tr);
    SamePermutation(r.locks, st.entries);
    DistinctPermutation(st.entries, r.locks);
    SortedStrictly(r.locks);
    DepthPermuted(st.entries, r.locks, st.maxDepth);
    LastIsDeepest(r.locks, st.maxDepth);
    SameListing(st.entries, r.locks);
    IsTree(raw, r);
  }

  lemma IsTree(raw: seq<RawLockEntry>, r: LockTreeResponse)
    requires forall pid :: Listed(r.locks, pid) <==> Reachable(EdgesOf(raw), PresentRoots(raw), Pids(raw), pid)
    requires forall e :: e in r.locks ==> IsListed(raw, e)
    requires StrictlyOrdered(r.locks)
    requires r.summary == LockTreeSummary(|Roots(EdgesOf(raw))|, |NonRoots(r.locks)|,
                                          if r.locks == [] then 0 else r.locks[|r.locks| - 1].depth)
    ensures IsLockTree(raw, r)
  {
    hide Reachable, IsListed, StrictlyOrdered, Listed, NonRoots, EdgesOf, PresentRoots, Pids;
  }

  lemma DepthPermuted(a: seq<LockEntry>, b: seq<LockEntry>, maxDepth: nat)
    requires DepthInv(a, maxDepth) && forall e :: e in a <==> e in b
    ensures DepthInv(b, maxDepth)
  {
  }

  lemma SameListing(a: seq<LockEntry>, b: seq<LockEntry>)
    requires forall e :: e in a <==> e in b
    ensures forall pid :: Listed(a, pid) <==> Listed(b, pid)
  {
  }

  lemma SortedStrictly(locks: seq<LockEntry>)
    requires SortedBy(locks, EntryLe) && DistinctPids(locks)
    ensures StrictlyOrdered(locks)
  {
    forall i, j | 0 <= i < j < |locks| ensures EntryLt(locks[i], locks[j]) {
      assert EntryLe(locks[i], locks[j]);
    }
  }

  lemma EntryOrder()
    ensures TotalPreorder(EntryLe)
  {
  }

  lemma SearchDistinct(raw: seq<RawLockEntry>, st: SearchState, tr: Trail)
    requires SearchInv(raw, st, tr)
    ensures DistinctPids(st.entries) && DepthInv(st.entries, st.maxDepth)
  {
  }

  method BuildLockTree(raw: seq<RawLockEntry>) returns (r: LockTreeResponse)
    ensures IsLockTree(raw, r)
  {
    hide *;
    var byPid := IndexRows(raw);
    var blockedBy, blocks := BuildAdjacency(raw);
    var roots := FindRoots(EdgesOf(raw), blockedBy, blocks);
    var st, tr := Search(raw, byPid, blockedBy, blocks, roots);
    EntryOrder();
    var locks := Sort(st.entries, EntryLe);
    SearchDistinct(raw, st, tr);
    DistinctPermutation(st.entries, locks);
    var totalBlocked := CountBlocked(locks);
    r := LockTreeResponse(LockTreeSummary(|roots|, totalBlocked, st.maxDepth), locks);
    Assemble(raw, st, tr, r);
  }

  /** The response is a function of the rows: no map iteration order shows in it. */
  lemma ResponseUnique(raw: seq<RawLockEntry>, a: LockTreeResponse, b: LockTreeResponse)
    requires IsLockTree(raw, a) && IsLockTree(raw, b)
    ensures a == b
  {
    SameEntries(raw, a, b);
    SameEntries(raw, b, a);
    TreeShape(raw, a);
    TreeShape(raw, b);
    hide *;
    StrictOrderUnique(a.locks, b.locks);
  }

  lemma TreeShape(raw: seq<RawLockEntry>, r: LockTreeResponse)
    requires IsLockTree(raw, r)
    ensures StrictlyOrdered(r.locks) && r.summary == SummaryOf(raw, r.locks)
  {
  }

  lemma SameEntries(raw: seq<RawLockEntry>, a: LockTreeResponse, b: LockTreeResponse)
    requires IsLockTree(raw, a) && IsLockTree(raw, b)
    ensures forall e :: e in a.locks ==> e in b.locks
  {
    forall e | e in a.locks ensures e in b.locks {
      var c := ListedChain(raw, a, e);
      assert Listed(a.locks, e.pid);
      assert Listed(b.locks, e.pid);
      var e' :| e' in b.locks && e'.pid == e.pid;
      var c' := ListedChain(raw, b, e');
      hide IsLockTree;
      BestChainUnique(EdgesOf(raw), PresentRoots(raw), Pids(raw), e.pid, c, c');
    }
  }

  lemma {:induction false} StrictOrderUnique(a: seq<LockEntry>, b: seq<LockEntry>)
    requires StrictlyOrdered(a) && StrictlyOrdered(b) && forall e :: e in a <==> e in b
    ensures a == b
  {
    assert b != [] ==> b[0] in b;
    if a != [] {
      assert a[0] in b && b != [] && b[0] in b && b[0] in a;
      assert a[0] == b[0];
      forall e | e in a[1..] ensures e in b[1..] { assert e in a && e != a[0]; }
      forall e | e in b[1..] ensures e in a[1..] { assert e in b && e != b[0]; }
      StrictOrderUnique(a[1..], b[1..]);
      assert a == [a[0]] + a[1..] && b == [b[0]] + b[1..];
    }
  }

  /** In plain terms: a listed pid carries its shortest blocking distance from a root that is a row,
      and its parent is a direct blocker of it that is listed one level higher. */
  lemma ListedFacts(raw: seq<RawLockEntry>, r: LockTreeResponse, e: LockEntry)
    requires IsLockTree(raw, r) && e in r.locks
    ensures Distance(EdgesOf(raw), PresentRoots(raw), Pids(raw), e.pid, e.depth)
    ensures e.isRoot <==> e.depth == 0
    ensures e.depth == 0 ==> e.parentPid == None
    ensures e.depth > 0 ==> exists p :: p in r.locks && ParentOf(raw, p, e)
    ensures e.depth <= r.summary.maxDepth
  {
    var c := ListedChain(raw, r, e);
    TreeShape(raw, r);
    BelowLast(r.locks, e);
    ChainFacts(raw, e, c);
    hide IsLockTree, Listing, Best, Distance, ParentOf;
    if e.depth > 0 { ParentListed(raw, r, e, c); }
  }

  /** The edges that block a pid, and those by which it blocks. */
  ghost function BlockedAt(es: seq<Edge>, p: int): set<nat> { set i: nat | i < |es| && es[i].blocked == p }

  ghost function BlockingAt(es: seq<Edge>, p: int): set<nat> { set i: nat | i < |es| && es[i].blocker == p }

  lemma AtSnoc(es: seq<Edge>, p: int)
    requires es != []
    ensures var n := |es| - 1;
            && n !in BlockedAt(es[..n], p) && n !in BlockingAt(es[..n], p)
            && BlockedAt(es, p) == BlockedAt(es[..n], p) + (if es[n].blocked == p then {n} else {})
            && BlockingAt(es, p) == BlockingAt(es[..n], p) + if es[n].blocker == p then {n} else {}
  {
  }

  /** A list is as long as there are edges for it. */
  lemma {:induction false} ListLengths(es: seq<Edge>, p: int)
    ensures |BlockerList(es, p)| == |BlockedAt(es, p)| && |VictimList(es, p)| == |BlockingAt(es, p)|
  {
    if es == [] {
      assert BlockedAt(es, p) == {} && BlockingAt(es, p) == {};
    } else {
      ListLengths(es[..|es| - 1], p);
      AtSnoc(es, p);
      hide BlockedAt, BlockingAt;
    }
  }

  /** The counts of an entry: how many blockers its rows name, and how often rows name it as one. */
  lemma ListedCounts(raw: seq<RawLockEntry>, r: LockTreeResponse, e: LockEntry)
    requires IsLockTree(raw, r) && e in r.locks
    ensures e.blockedByCount == |BlockedAt(EdgesOf(raw), e.pid)|
    ensures e.blockingCount == |BlockingAt(EdgesOf(raw), e.pid)|
  {
    var c := ListedChain(raw, r, e);
    hide IsLockTree, Best, BlockerList, VictimList, BlockedAt, BlockingAt;
    ListLengths(EdgesOf(raw), e.pid);
  }

  lemma {:induction false} RowIsLast(raw: seq<RawLockEntry>, pid: int)
    requires pid in Pids(raw)
    ensures exists i :: 0 <= i < |raw| && raw[i] == RowOf(raw, pid) && raw[i].pid == pid
              && forall j :: i < j < |raw| ==> raw[j].pid != pid
  {
    var last := raw[|raw| - 1];
    if last.pid != pid {
      assert raw == raw[..|raw| - 1] + [last];
      RowIsLast(raw[..|raw| - 1], pid);
    }
  }

  /** An entry shows the session of the last row of its pid. */
  lemma ListedSession(raw: seq<RawLockEntry>, r: LockTreeResponse, e: LockEntry)
    requires IsLockTree(raw, r) && e in r.locks
    ensures exists i :: 0 <= i < |raw| && raw[i].pid == e.pid && raw[i].session == e.session
              && forall j :: i < j < |raw| ==> raw[j].pid != e.pid
  {
    var c := ListedChain(raw, r, e);
    hide IsLockTree, Best, BlockerList, VictimList, EdgesOf;
    RowIsLast(raw, e.pid);
  }

  lemma ChainFacts(raw: seq<RawLockEntry>, e: LockEntry, c: seq<int>)
    requires Best(raw, e.pid, c) && Last(c) in Pids(raw) && e == Listing(raw, c)
    ensures Distance(EdgesOf(raw), PresentRoots(raw), Pids(raw), e.pid, e.depth) && e.depth == |c| - 1
    ensures (e.isRoot <==> e.depth == 0) && (e.depth == 0 ==> e.parentPid == None)
  {
    hide Distance, EdgesOf;
  }

  lemma ListedChain(raw: seq<RawLockEntry>, r: LockTreeResponse, e: LockEntry) returns (c: seq<int>)
    requires IsLockTree(raw, r) && e in r.locks
    ensures Best(raw, e.pid, c) && Last(c) == e.pid && Last(c) in Pids(raw) && e == Listing(raw, c)
  {
    assert IsListed(raw, e);
    c :| Best(raw, e.pid, c) && Last(c) in Pids(raw) && e == Listing(raw, c);
  }

  lemma BelowLast(locks: seq<LockEntry>, e: LockEntry)
    requires StrictlyOrdered(locks) && e in locks
    ensures e.depth <= locks[|locks| - 1].depth
  {
    var i :| 0 <= i < |locks| && locks[i] == e;
    assert i < |locks| - 1 ==> EntryLt(locks[i], locks[|locks| - 1]);
  }

  ghost predicate ParentOf(raw: seq<RawLockEntry>, p: LockEntry, e: LockEntry) {
    e.parentPid == Some(p.pid) && Edge(e.pid, p.pid) in EdgesOf(raw) && p.depth + 1 == e.depth
  }

  lemma ParentListed(raw: seq<RawLockEntry>, r: LockTreeResponse, e: LockEntry, c: seq<int>)
    requires IsLockTree(raw, r) && |c| > 1 && Best(raw, Last(c), c)
    requires Last(c) in Pids(raw) && e == Listing(raw, c)
    ensures exists p :: p in r.locks && ParentOf(raw, p, e)
  {
    hide *;
    var u := Last(Parent(c));
    BestParent(raw, c);
    var p := ListedEntry(raw, r, u, |c| - 2);
    var c' := ListedChain(raw, r, p);
    BestDepths(raw, c, c');
    ParentShown(raw, c, c');
  }

  lemma ListedEntry(raw: seq<RawLockEntry>, r: LockTreeResponse, u: int, d: nat) returns (p: LockEntry)
    requires IsLockTree(raw, r) && Walk(EdgesOf(raw), PresentRoots(raw), Pids(raw), u, d)
    ensures p in r.locks && p.pid == u
  {
    assert Listed(r.locks, u);
    p :| p in r.locks && p.pid == u;
  }

  lemma BestParent(raw: seq<RawLockEntry>, c: seq<int>)
    requires |c| > 1 && Best(raw, Last(c), c)
    ensures Walk(EdgesOf(raw), PresentRoots(raw), Pids(raw), Last(Parent(c)), |c| - 2)
    ensures Edge(Last(c), Last(Parent(c))) in EdgesOf(raw)
  {
    hide EdgesOf, PresentRoots, Pids;
    ChainIsWalk(EdgesOf(raw), PresentRoots(raw), Pids(raw), Parent(c));
  }

  lemma BestDepths(raw: seq<RawLockEntry>, c: seq<int>, c': seq<int>)
    requires |c| > 1 && Best(raw, Last(c), c) && Best(raw, Last(Parent(c)), c')
    ensures |c'| == |c| - 1
  {
    ParentDepth(EdgesOf(raw), PresentRoots(raw), Pids(raw), c, c');
  }

  lemma ParentShown(raw: seq<RawLockEntry>, c: seq<int>, c': seq<int>)
    requires |c| > 1 && |c'| == |c| - 1 && Last(c) in Pids(raw) && Last(c') in Pids(raw)
    requires Last(c') == Last(Parent(c)) && Edge(Last(c), Last(c')) in EdgesOf(raw)
    ensures ParentOf(raw, Listing(raw, c'), Listing(raw, c))
  {
    hide RowOf, EdgesOf, BlockerList, VictimList;
  }

  /** The best chains to a pid and to its parent differ in length by one. */
  lemma ParentDepth(es: seq<Edge>, sources: set<int>, open: set<int>, c: seq<int>, c': seq<int>)
    requires |c| > 1 && BestChain(es, sources, open, Last(c), c) && BestChain(es, sources, open, Last(Parent(c)), c')
    ensures |c'| == |c| - 1
  {
    ChainIsWalk(es, sources, open, Parent(c));
    ChainIsWalk(es, sources, open, c');
    if |c'| < |c| - 1 { WalkStep(es, sources, open, Last(Parent(c)), Last(c), |c'| - 1); }
  }
}
