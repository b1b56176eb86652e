/** Overlapping calls of `Evaluate` on one evaluator (internal/alert/evaluator.go): the state moves under the
    lock, the event is stored after the lock is released, and other calls may come in between. */
module AlertOverlap {
  import opened Basics
  import opened AlertMachine
  import opened AlertHistory
  import opened AlertKeys
  import opened AlertEvaluator
  import opened AlertRuns

  /** A call that has moved the state and not yet stored the event. */
  datatype Held = Held(call: nat, event: AlertEvent)

  /** `log` lists the events in the order they were stored, `held` those not stored yet, oldest first. */
  datatype Par = Par(state: map<string, StateEntry>, rows: seq<HistoryRow>, log: seq<AlertEvent>, held: seq<Held>)

  const Start := Par(map[], [], [], [])

  datatype Step =
    | Move(call: nat, item: Item, now: int)   // under the lock: one point against one rule
    | Store(call: nat, ok: bool)              // the store call of the event held, which may fail
    | Clean(cutoff: int)
    | Crash(listing: seq<HistoryRow>)         // every call in flight is lost; a fresh process restores its state

  ghost predicate Holds(held: seq<Held>, call: nat) { exists n :: 0 <= n < |held| && held[n].call == call }

  /** Where a call's event stands among the held ones. */
  ghost function IndexOf(held: seq<Held>, call: nat): (n: nat)
    requires Holds(held, call)
    ensures n < |held| && held[n].call == call
  {
    var n :| 0 <= n < |held| && held[n].call == call;
    n
  }

  ghost function Without(held: seq<Held>, n: nat): seq<Held>
    requires n < |held|
  {
    held[..n] + held[n + 1..]
  }

  /** A call stores what it holds before it goes on to the next point. */
  ghost predicate Enabled(s: Par, a: Step) {
    match a
    case Move(call, item, _) => !Holds(s.held, call) && ColonFree(item.rule.id) && item.rule.labels == map[]
    case Store(call, _) => Holds(s.held, call)
    case Clean(_) => true
    case Crash(listing) => IsListing(listing, s.rows)
  }

  ghost function Next(s: Par, a: Step): Par
    requires Enabled(s, a)
  {
    match a
    case Move(call, item, now) =>
      var key := StateKey(item.rule.id, item.pt.instanceId);
      var (entry, ev) := Transition(item.rule, item.pt, EntryAt(s.state, key), now);
      s.(state := s.state[key := entry], held := if ev.Some? then s.held + [Held(call, ev.value)] else s.held)
    case Store(call, ok) =>
      var n := IndexOf(s.held, call);
      var s' := s.(held := Without(s.held, n));
      if ok then s'.(rows := Stored(s.rows, s.held[n].event), log := s.log + [s.held[n].event]) else s'
    case Clean(cutoff) => s.(rows := Cleaned(s.rows, cutoff))
    case Crash(listing) => s.(state := Seeded(map[], listing), held := [])
  }

  ghost function After(s: Par, trace: seq<Step>): Outcome<Par> {
    if trace == [] then Reached(s)
    else
      var p, a := After(s, trace[..|trace| - 1]), trace[|trace| - 1];
      if p.Reached? && Enabled(p.state, a) then Reached(Next(p.state, a)) else Impossible
  }

  ghost predicate Names(ev: AlertEvent, r: string, i: string) { ev.ruleId == r && ev.instanceId == i }

  /** The held events of one pair, oldest first. */
  ghost function HeldFor(held: seq<Held>, r: string, i: string): seq<AlertEvent> {
    if held == [] then []
    else
      var rest, h := HeldFor(held[..|held| - 1], r, i), held[|held| - 1];
      if Names(h.event, r, i) then rest + [h.event] else rest
  }

  lemma {:induction false} HeldConcat(a: seq<Held>, b: seq<Held>, r: string, i: string)
    ensures HeldFor(a + b, r, i) == HeldFor(a, r, i) + HeldFor(b, r, i)
  {
    if b == [] {
      assert a + b == a;
    } else {
      assert (a + b)[..|a + b| - 1] == a + b[..|b| - 1];
      HeldConcat(a, b[..|b| - 1], r, i);
    }
  }

  lemma HeldOne(h: Held, r: string, i: string)
    ensures HeldFor([h], r, i) == if Names(h.event, r, i) then [h.event] else []
  {
    assert [h][..0] == [];
  }

  lemma HeldSnoc(held: seq<Held>, h: Held, r: string, i: string)
    ensures HeldFor(held + [h], r, i) == HeldFor(held, r, i) + if Names(h.event, r, i) then [h.event] else []
  {
    HeldConcat(held, [h], r, i);
    HeldOne(h, r, i);
  }

  /** Taking one event out of the held ones. */
  lemma HeldWithout(held: seq<Held>, n: nat, r: string, i: string)
    requires n < |held|
    ensures var before, after, h := HeldFor(held[..n], r, i), HeldFor(held[n + 1..], r, i), held[n].event;
            && HeldFor(Without(held, n), r, i) == before + after
            && HeldFor(held, r, i) == if Names(h, r, i) then before + ([h] + after) else before + after
  {
    HeldAround(held[..n], held[n], held[n + 1..], r, i);
    hide HeldFor;
    assert held == held[..n] + ([held[n]] + held[n + 1..]);
    HeldConcat(held[..n], held[n + 1..], r, i);
  }

  lemma HeldAround(a: seq<Held>, h: Held, b: seq<Held>, r: string, i: string)
    ensures HeldFor(a + ([h] + b), r, i)
            == if Names(h.event, r, i) then HeldFor(a, r, i) + ([h.event] + HeldFor(b, r, i))
               else HeldFor(a, r, i) + HeldFor(b, r, i)
  {
    hide HeldFor;
    HeldConcat(a, [h] + b, r, i);
    HeldConcat([h], b, r, i);
    HeldOne(h, r, i);
    assert [] + HeldFor(b, r, i) == HeldFor(b, r, i);
  }

  // ---- what storing in order keeps

  /** The open rows are those of the last stored event. */
  ghost predicate RowsFollow(open: seq<HistoryRow>, stored: seq<AlertEvent>) {
    if |stored| % 2 == 1 then |open| == 1 && open[0].firedAt == stored[|stored| - 1].firedAt else open == []
  }

  /** A pair whose stored events followed by its held ones are what its machine raised. */
  ghost predicate InOrder(entry: StateEntry, open: seq<HistoryRow>, stored: seq<AlertEvent>, held: seq<AlertEvent>) {
    WellPaired(stored + held) && OpenFire(stored + held, entry) && RowsFollow(open, stored)
  }

  ghost predicate PairInOrder(s: Par, r: string, i: string) {
    InOrder(EntryAt(s.state, StateKey(r, i)), Open(s.rows, r, i), EventsFor(s.log, r, i), HeldFor(s.held, r, i))
  }

  /** The pair's state, open rows and stored events say the same. */
  ghost predicate Agreed(s: Par, r: string, i: string) {
    Agrees(EntryAt(s.state, StateKey(r, i)), Open(s.rows, r, i), EventsFor(s.log, r, i))
  }

  ghost predicate Quiet(s: Par, r: string, i: string) { HeldFor(s.held, r, i) == [] }

  lemma QuietAgrees(s: Par, r: string, i: string)
    requires PairInOrder(s, r, i) && Quiet(s, r, i)
    ensures Agreed(s, r, i)
  {
    AgreesInOrder(EntryAt(s.state, StateKey(r, i)), Open(s.rows, r, i), EventsFor(s.log, r, i));
  }

  lemma PrefixPaired(a: seq<AlertEvent>, b: seq<AlertEvent>)
    requires WellPaired(a + b)
    ensures WellPaired(a)
  {
    forall n | 0 <= n < |a| ensures a[n].isResolution <==> n % 2 == 1 { assert (a + b)[n] == a[n]; }
    forall n | 0 < n < |a| && n % 2 == 1 ensures a[n].firedAt == a[n - 1].firedAt {
      assert (a + b)[n] == a[n] && (a + b)[n - 1] == a[n - 1];
    }
  }

  /** Resolution events carry a resolution time, fires do not. */
  ghost predicate Plain(ev: AlertEvent) { ev.isResolution <==> ev.resolvedAt.Some? }

  /** Calls in flight are distinct, and every event comes from a transition of a colon-free rule. */
  ghost predicate Sound(s: Par) {
    && (forall m, n :: 0 <= m < n < |s.held| ==> s.held[m].call != s.held[n].call)
    && (forall n :: 0 <= n < |s.held| ==> ColonFree(s.held[n].event.ruleId) && Plain(s.held[n].event))
    && ColonFreeRows(s.rows)
  }

  lemma TransitionPlain(rule: Rule, pt: MetricPoint, e: StateEntry, now: int)
    ensures var ev := Transition(rule, pt, e, now).1;
            ev.Some? ==> Plain(ev.value) && ev.value.ruleId == rule.id && ev.value.instanceId == pt.instanceId
  {
  }

  lemma SoundStep(s: Par, a: Step)
    requires Sound(s) && Enabled(s, a)
    ensures Sound(Next(s, a))
  {
    match a
    case Move(call, item, now) =>
      TransitionPlain(item.rule, item.pt, EntryAt(s.state, StateKey(item.rule.id, item.pt.instanceId)), now);
      hide Transition;
    case Store(call, ok) => StoredColonFree(s.rows, s.held[IndexOf(s.held, call)].event);
    case Clean(cutoff) => CleanedColonFree(s.rows, cutoff);
    case Crash(_) =>
  }

  /** A store of the pair's own event succeeds and takes its oldest held event. */
  ghost predicate Orderly(s: Par, a: Step, r: string, i: string)
    requires Enabled(s, a)
  {
    a.Store? ==>
      var n := IndexOf(s.held, a.call);
      Names(s.held[n].event, r, i) ==> a.ok && HeldFor(s.held[..n], r, i) == []
  }

  lemma MoveOther(s: Par, a: Step, r: string, i: string)
    requires a.Move? && Enabled(s, a) && ColonFree(r) && !(a.item.rule.id == r && a.item.pt.instanceId == i)
    ensures var s' := Next(s, a);
            && EntryAt(s'.state, StateKey(r, i)) == EntryAt(s.state, StateKey(r, i))
            && HeldFor(s'.held, r, i) == HeldFor(s.held, r, i) && s'.rows == s.rows && s'.log == s.log
  {
    var key := StateKey(a.item.rule.id, a.item.pt.instanceId);
    if key == StateKey(r, i) { StateKeyInjective(r, i, a.item.rule.id, a.item.pt.instanceId); }
    hide StateKey, HeldFor;
    var ev := Transition(a.item.rule, a.item.pt, EntryAt(s.state, key), a.now).1;
    TransitionPlain(a.item.rule, a.item.pt, EntryAt(s.state, key), a.now);
    hide Transition;
    if ev.Some? { HeldSnoc(s.held, Held(a.call, ev.value), r, i); }
  }

  lemma MoveOwn(s: Par, a: Step)
    requires a.Move? && Enabled(s, a)
    ensures var s', r, i := Next(s, a), a.item.rule.id, a.item.pt.instanceId;
            var (e', ev) := Transition(a.item.rule, a.item.pt, EntryAt(s.state, StateKey(r, i)), a.now);
            && EntryAt(s'.state, StateKey(r, i)) == e' && s'.rows == s.rows && s'.log == s.log
            && HeldFor(s'.held, r, i) == HeldFor(s.held, r, i) + if ev.Some? then [ev.value] else []
  {
    hide StateKey, HeldFor;
    var key := StateKey(a.item.rule.id, a.item.pt.instanceId);
    var ev := Transition(a.item.rule, a.item.pt, EntryAt(s.state, key), a.now).1;
    TransitionPlain(a.item.rule, a.item.pt, EntryAt(s.state, key), a.now);
    hide Transition;
    if ev.Some? { HeldSnoc(s.held, Held(a.call, ev.value), a.item.rule.id, a.item.pt.instanceId); }
  }

  lemma InOrderMove(entry: StateEntry, open: seq<HistoryRow>, stored: seq<AlertEvent>, held: seq<AlertEvent>,
                    item: Item, now: int)
    requires InOrder(entry, open, stored, held)
    ensures var (e', ev) := Transition(item.rule, item.pt, entry, now);
            InOrder(e', open, stored, held + if ev.Some? then [ev.value] else [])
  {
    var (e', ev) := Transition(item.rule, item.pt, entry, now);
    PairedStep(stored + held, item.rule, item.pt, entry, now);
    hide Transition, WellPaired, OpenFire, RowsFollow;
    var more := if ev.Some? then [ev.value] else [];
    assert (stored + held) + more == stored + (held + more);
  }

  lemma MoveKeeps(s: Par, a: Step, r: string, i: string)
    requires a.Move? && Enabled(s, a) && ColonFree(r) && PairInOrder(s, r, i)
    ensures PairInOrder(Next(s, a), r, i)
  {
    hide InOrder, Next, Transition, StateKey, HeldFor, EventsFor, Open;
    if a.item.rule.id == r && a.item.pt.instanceId == i {
      MoveOwn(s, a);
      InOrderMove(EntryAt(s.state, StateKey(r, i)), Open(s.rows, r, i), EventsFor(s.log, r, i), HeldFor(s.held, r, i),
                  a.item, a.now);
    } else {
      MoveOther(s, a, r, i);
    }
  }

  /** Storing the oldest held event of a pair. */
  lemma StoreOldest(entry: StateEntry, open: seq<HistoryRow>, stored: seq<AlertEvent>, ev: AlertEvent,
                    rest: seq<AlertEvent>, open': seq<HistoryRow>)
    requires InOrder(entry, open, stored, [ev] + rest) && Plain(ev)
    requires open' == if ev.resolvedAt.Some? then [] else open + [RowFor(ev)]
    ensures InOrder(entry, open', stored + [ev], rest)
  {
    assert stored + ([ev] + rest) == (stored + [ev]) + rest;
    assert (stored + ([ev] + rest))[|stored|] == ev;
  }

  /** A successful store, seen from one pair. */
  lemma StoreView(s: Par, call: nat, r: string, i: string)
    requires Enabled(s, Store(call, true))
    ensures var n := IndexOf(s.held, call);
            var s', ev, own := Next(s, Store(call, true)), s.held[n].event, Names(s.held[n].event, r, i);
            && s'.state == s.state
            && EventsFor(s'.log, r, i) == (if own then EventsFor(s.log, r, i) + [ev] else EventsFor(s.log, r, i))
            && Open(s'.rows, r, i) == (if !own then Open(s.rows, r, i) else if ev.resolvedAt.Some? then []
                                       else Open(s.rows, r, i) + [RowFor(ev)])
            && HeldFor(s'.held, r, i) == HeldFor(s.held[..n], r, i) + HeldFor(s.held[n + 1..], r, i)
  {
    var n := IndexOf(s.held, call);
    hide HeldFor, EventsFor, Open, Stored, Without;
    HeldWithout(s.held, n, r, i);
    EventsSnoc(s.log, s.held[n].event, r, i);
    OpenStored(s.rows, s.held[n].event, r, i);
  }

  lemma FailedStoreOther(s: Par, call: nat, r: string, i: string)
    requires Enabled(s, Store(call, false)) && !Names(s.held[IndexOf(s.held, call)].event, r, i)
    ensures var s' := Next(s, Store(call, false));
            s' == s.(held := s'.held) && HeldFor(s'.held, r, i) == HeldFor(s.held, r, i)
  {
    hide HeldFor;
    HeldWithout(s.held, IndexOf(s.held, call), r, i);
  }

  lemma StoreKeeps(s: Par, a: Step, r: string, i: string)
    requires a.Store? && Enabled(s, a) && Sound(s) && PairInOrder(s, r, i) && Orderly(s, a, r, i)
    ensures PairInOrder(Next(s, a), r, i)
  {
    var n := IndexOf(s.held, a.call);
    var ev := s.held[n].event;
    assert Plain(ev);
    hide InOrder, HeldFor, EventsFor, Open, Next, Sound, StateKey;
    HeldWithout(s.held, n, r, i);
    if a.ok {
      StoreView(s, a.call, r, i);
      if Names(ev, r, i) {
        var rest := HeldFor(s.held[n + 1..], r, i);
        assert [] + ([ev] + rest) == [ev] + rest && [] + rest == rest;
        StoreOldest(EntryAt(s.state, StateKey(r, i)), Open(s.rows, r, i), EventsFor(s.log, r, i), ev, rest,
                    Open(Next(s, a).rows, r, i));
      }
    } else {
      FailedStoreOther(s, a.call, r, i);
    }
  }

  /** A crash heals: whatever was held is forgotten, and the state is read back from the rows. */
  lemma CrashKeeps(s: Par, listing: seq<HistoryRow>, r: string, i: string)
    requires ColonFree(r) && Sound(s) && IsListing(listing, s.rows) && PairInOrder(s, r, i)
    ensures PairInOrder(Next(s, Crash(listing)), r, i)
  {
    var stored, key, open := EventsFor(s.log, r, i), StateKey(r, i), Open(s.rows, r, i);
    hide StateKey, EventsFor, Open, Seeded, IsListing, ColonFreeRows, HeldFor;
    var was := Sys(map[key := Remembered(stored)], s.rows, s.log, 0);
    StoredAgree(EntryAt(s.state, key), open, stored, HeldFor(s.held, r, i));
    assert PairAgrees(was, r, i);
    RestartKeeps(was, listing, r, i);
    NoneHeld(r, i);
    AgreesInOrder(EntryAt(Seeded(map[], listing), key), open, stored);
  }

  /** The entry that the stored events describe. */
  ghost function Remembered(stored: seq<AlertEvent>): StateEntry {
    if |stored| % 2 == 1 then FreshEntry.(state := Firing, firedAt := stored[|stored| - 1].firedAt) else FreshEntry
  }

  lemma StoredAgree(entry: StateEntry, open: seq<HistoryRow>, stored: seq<AlertEvent>, held: seq<AlertEvent>)
    requires InOrder(entry, open, stored, held)
    ensures Agrees(Remembered(stored), open, stored)
  {
    PrefixPaired(stored, held);
  }

  lemma AgreesInOrder(entry: StateEntry, open: seq<HistoryRow>, stored: seq<AlertEvent>)
    ensures Agrees(entry, open, stored) <==> InOrder(entry, open, stored, [])
  {
    assert stored + [] == stored;
  }

  lemma NoneHeld(r: string, i: string)
    ensures HeldFor([], r, i) == []
  {
  }

  lemma StepKeeps(s: Par, a: Step, r: string, i: string)
    requires Enabled(s, a) && ColonFree(r) && Sound(s) && PairInOrder(s, r, i) && Orderly(s, a, r, i)
    ensures Sound(Next(s, a)) && PairInOrder(Next(s, a), r, i)
  {
    hide PairInOrder, Sound;
    SoundStep(s, a);
    match a
    case Move(_, _, _) => MoveKeeps(s, a, r, i);
    case Store(_, _) => StoreKeeps(s, a, r, i);
    case Clean(cutoff) => CleanKeeps(s, cutoff, r, i);
    case Crash(listing) => CrashKeeps(s, listing, r, i);
  }

  lemma CleanKeeps(s: Par, cutoff: int, r: string, i: string)
    requires PairInOrder(s, r, i)
    ensures PairInOrder(s.(rows := Cleaned(s.rows, cutoff)), r, i)
  {
    OpenCleaned(s.rows, cutoff, r, i);
  }

  // ---- whole runs

  /** A run in which every store of the pair succeeds and comes in the order of the moves. */
  ghost predicate OrderlyRun(trace: seq<Step>, r: string, i: string) {
    trace == []
    || (var p, a := After(Start, trace[..|trace| - 1]), trace[|trace| - 1];
        && OrderlyRun(trace[..|trace| - 1], r, i)
        && p.Reached? && Enabled(p.state, a) && Orderly(p.state, a, r, i))
  }

  /** However many calls overlap: when the pair's events are stored in the order its machine raised them, stored
      and held events together are that order, and a pair with nothing held agrees with its history. */
  lemma {:induction false} OrderlyAgrees(trace: seq<Step>, r: string, i: string)
    requires OrderlyRun(trace, r, i) && ColonFree(r)
    ensures After(Start, trace).Reached?
    ensures var s := After(Start, trace).state;
            Sound(s) && PairInOrder(s, r, i) && (Quiet(s, r, i) ==> Agreed(s, r, i))
  {
    if trace != [] {
      OrderlyAgrees(trace[..|trace| - 1], r, i);
      hide Sound, PairInOrder, Enabled, Orderly, Next, Quiet, Agreed;
      StepKeeps(After(Start, trace[..|trace| - 1]).state, trace[|trace| - 1], r, i);
    }
    hide Sound, PairInOrder, Quiet, Agreed;
    var s := After(Start, trace).state;
    if Quiet(s, r, i) { QuietAgrees(s, r, i); }
  }

  /** At no moment do two calls hold an event of the pair, and its stores succeed. */
  ghost predicate NeverTwo(trace: seq<Step>, r: string, i: string) {
    && After(Start, trace).Reached? && |HeldFor(After(Start, trace).state.held, r, i)| <= 1
    && (trace == []
        || (var s, a := After(Start, trace[..|trace| - 1]).state, trace[|trace| - 1];
            && NeverTwo(trace[..|trace| - 1], r, i)
            && (a.Store? && Names(s.held[IndexOf(s.held, a.call)].event, r, i) ==> a.ok)))
  }

  lemma SingleOrderly(s: Par, a: Step, r: string, i: string)
    requires Enabled(s, a) && |HeldFor(s.held, r, i)| <= 1
    requires a.Store? && Names(s.held[IndexOf(s.held, a.call)].event, r, i) ==> a.ok
    ensures Orderly(s, a, r, i)
    ensures a.Store? ==> |HeldFor(Next(s, a).held, r, i)| <= 1
  {
    hide HeldFor;
    if a.Store? { HeldWithout(s.held, IndexOf(s.held, a.call), r, i); }
  }

  /** Without overlap on the pair, stores are in order of themselves. */
  lemma {:induction false} NeverTwoAgrees(trace: seq<Step>, r: string, i: string)
    requires NeverTwo(trace, r, i) && ColonFree(r)
    ensures OrderlyRun(trace, r, i)
    ensures Quiet(After(Start, trace).state, r, i) ==> Agreed(After(Start, trace).state, r, i)
  {
    if trace != [] {
      NeverTwoAgrees(trace[..|trace| - 1], r, i);
      hide Enabled, Next, Quiet, Agreed, HeldFor, Orderly;
      SingleOrderly(After(Start, trace[..|trace| - 1]).state, trace[|trace| - 1], r, i);
    }
    hide Quiet, Agreed;
    OrderlyAgrees(trace, r, i);
  }

  // ---- finishing what is in flight

  ghost predicate AllStores(more: seq<Step>) { forall n :: 0 <= n < |more| ==> more[n].Store? && more[n].ok }

  /** A way to finish: successful stores, after which nothing of the pair is held. */
  ghost predicate Finishes(s: Par, more: seq<Step>, r: string, i: string) {
    AllStores(more) && After(s, more).Reached? && Quiet(After(s, more).state, r, i)
  }

  lemma {:induction false} OneHeldFinishes(s: Par, more: seq<Step>, r: string, i: string)
    requires ColonFree(r) && Sound(s) && PairInOrder(s, r, i) && |HeldFor(s.held, r, i)| <= 1
    requires AllStores(more) && After(s, more).Reached?
    ensures var s' := After(s, more).state; Sound(s') && PairInOrder(s', r, i) && |HeldFor(s'.held, r, i)| <= 1
  {
    if more != [] {
      OneHeldFinishes(s, more[..|more| - 1], r, i);
      hide Sound, PairInOrder, Enabled, Orderly, Next, HeldFor;
      var mid, a := After(s, more[..|more| - 1]).state, more[|more| - 1];
      SingleOrderly(mid, a, r, i);
      StepKeeps(mid, a, r, i);
    }
  }

  lemma {:induction false} AfterCons(s: Par, a: Step, more: seq<Step>)
    requires Enabled(s, a)
    ensures After(s, [a] + more) == After(Next(s, a), more)
  {
    hide Enabled, Next;
    if more == [] {
      assert [a] + more == [a] && [a][..0] == [];
      assert After(s, []) == Reached(s);
    } else {
      assert ([a] + more)[..|more|] == [a] + more[..|more| - 1];
      AfterCons(s, a, more[..|more| - 1]);
    }
  }

  /** The oldest held event of a pair. */
  lemma {:induction false} Oldest(held: seq<Held>, r: string, i: string) returns (n: nat)
    requires HeldFor(held, r, i) != []
    ensures n < |held| && Names(held[n].event, r, i) && HeldFor(held[..n], r, i) == []
    ensures HeldFor(held, r, i) == [held[n].event] + HeldFor(held[n + 1..], r, i)
  {
    var init := held[..|held| - 1];
    if HeldFor(init, r, i) == [] {
      n := |held| - 1;
    } else {
      n := Oldest(init, r, i);
      assert held[..n] == init[..n];
    }
    HeldWithout(held, n, r, i);
    assert [] + ([held[n].event] + HeldFor(held[n + 1..], r, i)) == [held[n].event] + HeldFor(held[n + 1..], r, i);
  }

  lemma OwnIndex(s: Par, n: nat)
    requires Sound(s) && n < |s.held|
    ensures Holds(s.held, s.held[n].call) && IndexOf(s.held, s.held[n].call) == n
  {
    assert Holds(s.held, s.held[n].call);
  }

  /** Two events stored the wrong way round leave state and rows opposed. */
  lemma SwappedOppose(entry: StateEntry, open: seq<HistoryRow>, stored: seq<AlertEvent>, first: AlertEvent,
                      second: AlertEvent)
    requires InOrder(entry, open, stored, [first, second]) && Plain(first) && Plain(second)
    ensures var middle := if second.resolvedAt.Some? then [] else open + [RowFor(second)];
            var end := if first.resolvedAt.Some? then [] else middle + [RowFor(first)];
            entry.state.Firing? <==> end == []
  {
    var all := stored + [first, second];
    assert all[|stored|] == first && all[|stored| + 1] == second;
  }

  ghost predicate Opposed(s: Par, r: string, i: string) {
    EntryAt(s.state, StateKey(r, i)).state.Firing? <==> Open(s.rows, r, i) == []
  }

  lemma OpposedDisagrees(s: Par, r: string, i: string)
    requires Opposed(s, r, i)
    ensures !Agreed(s, r, i)
  {
  }

  /** The newer of exactly two held events is stored first. */
  lemma SwapTwo(s: Par, r: string, i: string) returns (more: seq<Step>)
    requires ColonFree(r) && Sound(s) && PairInOrder(s, r, i) && |HeldFor(s.held, r, i)| == 2
    ensures Finishes(s, more, r, i) && Opposed(After(s, more).state, r, i)
  {
    hide Next, HeldFor, EventsFor, Open, StateKey, InOrder, After, Enabled;
    var a, first, second := StoreNewer(s, r, i);
    hide Sound;
    var mid := Next(s, a);
    var b := StoreLast(mid, first, r, i);
    more := [a, b];
    TwoSteps(s, a, b);
    assert AllStores(more);
    SwappedOppose(EntryAt(s.state, StateKey(r, i)), Open(s.rows, r, i), EventsFor(s.log, r, i), first, second);
  }

  lemma StoreNewer(s: Par, r: string, i: string) returns (a: Step, first: AlertEvent, second: AlertEvent)
    requires Sound(s) && |HeldFor(s.held, r, i)| == 2
    ensures a.Store? && a.ok && Enabled(s, a) && HeldFor(s.held, r, i) == [first, second]
    ensures Plain(first) && Plain(second) && Sound(Next(s, a)) && Next(s, a).state == s.state
    ensures HeldFor(Next(s, a).held, r, i) == [first]
    ensures Open(Next(s, a).rows, r, i)
            == if second.resolvedAt.Some? then [] else Open(s.rows, r, i) + [RowFor(second)]
  {
    hide Next, HeldFor, EventsFor, Open, Enabled;
    var m := Oldest(s.held, r, i);
    var k := Oldest(s.held[m + 1..], r, i);
    var n := m + 1 + k;
    first, second := s.held[m].event, s.held[n].event;
    assert Plain(first) && Plain(second);
    OnlyOlderLeft(s, m, n, r, i);
    a := StoreAt(s, n);
    StoreView(s, a.call, r, i);
    SoundStep(s, a);
  }

  lemma StoreLast(s: Par, first: AlertEvent, r: string, i: string) returns (b: Step)
    requires Sound(s) && HeldFor(s.held, r, i) == [first]
    ensures b.Store? && b.ok && Enabled(s, b) && Next(s, b).state == s.state && HeldFor(Next(s, b).held, r, i) == []
    ensures Open(Next(s, b).rows, r, i) == if first.resolvedAt.Some? then [] else Open(s.rows, r, i) + [RowFor(first)]
  {
    hide Next, HeldFor, EventsFor, Open, Enabled;
    var n := Oldest(s.held, r, i);
    assert HeldFor(s.held, r, i)[0] == s.held[n].event;
    b := StoreAt(s, n);
    hide Sound;
    StoreView(s, b.call, r, i);
    OneLeft(s.held, n, r, i);
  }

  lemma StoreAt(s: Par, n: nat) returns (a: Step)
    requires Sound(s) && n < |s.held|
    ensures a == Store(s.held[n].call, true) && Enabled(s, a) && IndexOf(s.held, a.call) == n
  {
    OwnIndex(s, n);
    a := Store(s.held[n].call, true);
  }

  lemma TwoSteps(s: Par, a: Step, b: Step)
    requires Enabled(s, a) && Enabled(Next(s, a), b)
    ensures After(s, [a, b]) == Reached(Next(Next(s, a), b))
  {
    hide Enabled, Next;
    assert [a, b] == [a] + [b] && [b][..0] == [];
    AfterCons(s, a, [b]);
    assert After(Next(s, a), []) == Reached(Next(s, a));
  }

  lemma OneLeft(held: seq<Held>, n: nat, r: string, i: string)
    requires n < |held| && Names(held[n].event, r, i) && |HeldFor(held, r, i)| == 1
    ensures HeldFor(held[..n], r, i) + HeldFor(held[n + 1..], r, i) == []
  {
    hide HeldFor;
    HeldWithout(held, n, r, i);
  }

  /** With two held events, the second one at `n`, taking it out leaves the first. */
  lemma OnlyOlderLeft(s: Par, m: nat, n: nat, r: string, i: string)
    requires m < n < |s.held| && |HeldFor(s.held, r, i)| == 2
    requires Names(s.held[m].event, r, i) && Names(s.held[n].event, r, i)
    requires HeldFor(s.held, r, i) == [s.held[m].event] + HeldFor(s.held[m + 1..], r, i)
    requires HeldFor(s.held[m + 1..], r, i)
             == [s.held[m + 1..][n - m - 1].event] + HeldFor(s.held[m + 1..][n - m..], r, i)
    ensures HeldFor(s.held, r, i) == [s.held[m].event, s.held[n].event]
    ensures HeldFor(s.held[..n], r, i) + HeldFor(s.held[n + 1..], r, i) == [s.held[m].event]
  {
    hide HeldFor;
    var first, second := s.held[m].event, s.held[n].event;
    assert s.held[m + 1..][n - m - 1] == s.held[n];
    assert HeldFor(s.held[m + 1..][n - m..], r, i) == [];
    assert HeldFor(s.held, r, i) == [first, second];
    HeldWithout(s.held, n, r, i);
    var before, after := HeldFor(s.held[..n], r, i), HeldFor(s.held[n + 1..], r, i);
    assert |before| + |after| == 1;
    assert before + ([second] + after) == [first, second];
    HeldPrefixHas(s.held, m, n, r, i);
    assert after == [] && (before + ([second] + after))[0] == before[0];
  }

  lemma HeldPrefixHas(held: seq<Held>, m: nat, n: nat, r: string, i: string)
    requires m < n < |held| && Names(held[m].event, r, i)
    ensures HeldFor(held[..n], r, i) != []
  {
    hide HeldFor;
    HeldWithout(held[..n], m, r, i);
  }

  /** Two events of one pair in flight: some order of the stores ends with a state that fires without an open
      row, or with an open row and a state that does not fire. */
  lemma {:induction false} TwoHeldCanDisagree(s: Par, r: string, i: string) returns (more: seq<Step>)
    requires ColonFree(r) && Sound(s) && PairInOrder(s, r, i) && |HeldFor(s.held, r, i)| >= 2
    ensures Finishes(s, more, r, i) && Opposed(After(s, more).state, r, i)
    decreases |HeldFor(s.held, r, i)|
  {
    hide PairInOrder, Sound, HeldFor, Next, Enabled, Opposed, After, Quiet;
    if |HeldFor(s.held, r, i)| == 2 {
      more := SwapTwo(s, r, i);
    } else {
      var n := Oldest(s.held, r, i);
      var a := StoreAt(s, n);
      assert Orderly(s, a, r, i);
      StepKeeps(s, a, r, i);
      StoreView(s, a.call, r, i);
      assert [] + HeldFor(s.held[n + 1..], r, i) == HeldFor(s.held[n + 1..], r, i);
      var rest := TwoHeldCanDisagree(Next(s, a), r, i);
      AfterCons(s, a, rest);
      more := [a] + rest;
    }
  }

  /** After any run that has kept the pair in order, every way of finishing what is in flight ends in agreement
      exactly when no two calls hold an event of the pair. */
  lemma AgreementIff(trace: seq<Step>, r: string, i: string)
    requires OrderlyRun(trace, r, i) && ColonFree(r)
    ensures After(Start, trace).Reached?
    ensures var s := After(Start, trace).state;
            (forall more :: Finishes(s, more, r, i) ==> Agreed(After(s, more).state, r, i))
            <==> |HeldFor(s.held, r, i)| <= 1
  {
    hide OrderlyRun, After, HeldFor, Agreed, Quiet, PairInOrder, Sound, AllStores, Opposed;
    OrderlyAgrees(trace, r, i);
    var s := After(Start, trace).state;
    if |HeldFor(s.held, r, i)| <= 1 {
      forall more | Finishes(s, more, r, i) ensures Agreed(After(s, more).state, r, i) {
        OneHeldFinishes(s, more, r, i);
        QuietAgrees(After(s, more).state, r, i);
      }
    } else {
      var more := TwoHeldCanDisagree(s, r, i);
      OpposedDisagrees(After(s, more).state, r, i);
    }
  }

  /** A call stores what it holds, if anything. */
  ghost function Settle(s: Par, call: nat, ok: bool): Par {
    if Holds(s.held, call) then Next(s, Store(call, ok)) else s
  }

  /** One call alone is the sequential evaluation of its item: the state moves, then the event is stored. */
  lemma AloneIsItemStep(s: Par, call: nat, item: Item, now: int, fails: nat -> bool, calls: nat)
    requires s.held == [] && Enabled(s, Move(call, item, now))
    ensures var end := Settle(Next(s, Move(call, item, now)), call, !fails(calls));
            var serial := ItemStep(Sys(s.state, s.rows, s.log, calls), item, now, fails);
            end == Par(serial.state, serial.rows, serial.log, [])
  {
    LabelFreeKey(item.rule.id, item.pt.instanceId);
    hide KeyOf, StateKey, Stored, Transition;
    var moved := Next(s, Move(call, item, now));
    var t := Transition(item.rule, item.pt, EntryAt(s.state, StateKey(item.rule.id, item.pt.instanceId)), now);
    if t.1.Some? {
      assert moved.held == [Held(call, t.1.value)] && moved.held[0].call == call;
      assert Without(moved.held, 0) == [];
    } else {
      assert moved.held == [];
    }
  }

  /** A breach and a recovery evaluated by two calls, the recovery stored first: the state is back to OK and the
      history keeps an open row for it. */
  lemma FailingInterleaving(r: string, i: string)
    requires ColonFree(r)
    ensures var rule := Rule(r, "", "m", Greater, 0.0, "warning", map[], 1, []);
            var high, low := MetricPoint(i, "m", 1.0, map[], 1), MetricPoint(i, "m", 0.0, map[], 2);
            var end := After(Start, [Move(0, Item(rule, high), 1), Move(1, Item(rule, low), 2), Store(1, true),
                                     Store(0, true)]);
            && end.Reached? && end.state.held == []
            && EntryAt(end.state.state, StateKey(r, i)).state.Ok? && |Open(end.state.rows, r, i)| == 1
            && !Agreed(end.state, r, i)
  {
    var rule := Rule(r, "", "m", Greater, 0.0, "warning", map[], 1, []);
    var high, low := MetricPoint(i, "m", 1.0, map[], 1), MetricPoint(i, "m", 0.0, map[], 2);
    var a, b, c, d := Move(0, Item(rule, high), 1), Move(1, Item(rule, low), 2), Store(1, true), Store(0, true);
    hide StateKey, ColonFree;
    var s1 := Next(Start, a);
    var fired, resolved := EventFor(rule, high, 1, None), EventFor(rule, low, 1, Some(2));
    assert s1.held == [Held(0, fired)] && s1.state[StateKey(r, i)].state.Firing?;
    assert !Holds(s1.held, 1);
    var s2 := Next(s1, b);
    assert s2.held == [Held(0, fired), Held(1, resolved)] && s2.state[StateKey(r, i)].state.Ok?;
    assert Holds(s2.held, 1) by { assert s2.held[1].call == 1; }
    var s3 := Next(s2, c);
    assert s3.held == [Held(0, fired)] && s3.rows == [];
    assert Holds(s3.held, 0) by { assert s3.held[0].call == 0; }
    var s4 := Next(s3, d);
    assert s4.held == [] && s4.rows == [RowFor(fired)];
    FourSteps(Start, a, b, c, d);
    OpenSnoc([], RowFor(fired), r, i);
    assert [] + [RowFor(fired)] == [RowFor(fired)];
  }

  lemma FourSteps(s: Par, a: Step, b: Step, c: Step, d: Step)
    requires Enabled(s, a) && Enabled(Next(s, a), b) && Enabled(Next(Next(s, a), b), c)
    requires Enabled(Next(Next(Next(s, a), b), c), d)
    ensures After(s, [a, b, c, d]) == Reached(Next(Next(Next(Next(s, a), b), c), d))
  {
    hide Enabled, Next, After;
    assert [a, b, c, d] == [a] + ([b] + [c, d]);
    AfterCons(s, a, [b] + [c, d]);
    AfterCons(Next(s, a), b, [c, d]);
    TwoSteps(Next(Next(s, a), b), c, d);
  }
}
