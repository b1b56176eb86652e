/** The alert dispatcher (internal/alert/dispatcher.go): a bounded queue, one worker, and cooldowns. */
module Dispatcher {
  import opened Basics
  import opened AlertMachine
  import opened AlertKeys

  const BUFFER: nat := 100
  const MINUTE: int := 60_000_000_000

  function CooldownKey(ev: AlertEvent): string { ev.ruleId + ":" + ev.instanceId + ":" + ev.severity }

  /** Notified under this key less than a cooldown ago. */
  predicate CoolingDown(cooldowns: map<string, int>, ev: AlertEvent, now: int, cooldownMinutes: int) {
    CooldownKey(ev) in cooldowns && now - cooldowns[CooldownKey(ev)] < cooldownMinutes * MINUTE
  }

  predicate Suppressed(cooldowns: map<string, int>, ev: AlertEvent, now: int, cooldownMinutes: int) {
    !ev.isResolution && CoolingDown(cooldowns, ev, now, cooldownMinutes)
  }

  function Noted(cooldowns: map<string, int>, ev: AlertEvent, now: int): map<string, int> {
    if ev.isResolution then cooldowns else cooldowns[CooldownKey(ev) := now]
  }

  datatype Verdict = WasSuppressed | NoChannels | Delivered

  datatype Delivery = Delivery(channel: string, sent: bool)

  /** The channels that have a notifier, in order. */
  ghost function WithNotifier(channels: seq<string>, registered: set<string>): seq<string> {
    if channels == [] then []
    else
      var rest, c := WithNotifier(channels[..|channels| - 1], registered), channels[|channels| - 1];
      if c in registered then rest + [c] else rest
  }

  /** One delivery per channel, successful exactly when one of the allowed attempts is. */
  ghost predicate DeliveredTo(ds: seq<Delivery>, channels: seq<string>, limit: nat, succeeds: (string, nat) -> bool) {
    |ds| == |channels|
    && forall i :: 0 <= i < |ds| ==>
         ds[i].channel == channels[i] && (ds[i].sent <==> exists n: nat :: n < limit && succeeds(channels[i], n))
  }

  lemma NoneDelivered(channels: seq<string>, registered: set<string>, limit: nat, succeeds: (string, nat) -> bool)
    requires channels == []
    ensures DeliveredTo([], WithNotifier(channels, registered), limit, succeeds)
  {
  }

  lemma NotifierSnoc(channels: seq<string>, i: nat, registered: set<string>)
    requires i < |channels|
    ensures WithNotifier(channels[..i + 1], registered)
            == if channels[i] in registered then WithNotifier(channels[..i], registered) + [channels[i]]
               else WithNotifier(channels[..i], registered)
  {
    assert channels[..i + 1][..i] == channels[..i];
  }

  lemma DeliveredSnoc(ds: seq<Delivery>, channels: seq<string>, limit: nat, succeeds: (string, nat) -> bool,
                      d: Delivery)
    requires DeliveredTo(ds, channels, limit, succeeds)
    requires d.sent <==> exists n: nat :: n < limit && succeeds(d.channel, n)
    ensures DeliveredTo(ds + [d], channels + [d.channel], limit, succeeds)
  {
  }

  class Worker {
    const cooldownMinutes: int
    const defaultChannels: seq<string>
    const retries: nat  // the number of retry delays configured
    var cooldowns: map<string, int>

    constructor (defaultChannels: seq<string>, cooldownMinutes: int, retries: nat)
      ensures cooldowns == map[] && this.cooldownMinutes == cooldownMinutes
      ensures this.defaultChannels == defaultChannels && this.retries == retries
    {
      this.defaultChannels, this.cooldownMinutes, this.retries := defaultChannels, cooldownMinutes, retries;
      cooldowns := map[];
    }

    function Channels(ev: AlertEvent): seq<string> { if |ev.channels| > 0 then ev.channels else defaultChannels }

    function Limit(): nat { if retries == 0 then 1 else retries }

    /** Tries until a send succeeds, at most as often as there are delays (once if there is none). */
    method SendWithRetry(channel: string, succeeds: (string, nat) -> bool) returns (sent: bool, attempts: nat)
      ensures 1 <= attempts <= Limit()
              && (sent <==> exists i: nat :: i < Limit() && succeeds(channel, i))
              && (sent ==> succeeds(channel, attempts - 1))
              && (forall i: nat :: i < attempts - 1 ==> !succeeds(channel, i))
    {
      var maxAttempts := retries;
      if maxAttempts == 0 {
        maxAttempts := 1;
      }
      var attempt := 0;
      while attempt < maxAttempts
        invariant attempt <= maxAttempts && forall i: nat :: i < attempt ==> !succeeds(channel, i)
      {
        if succeeds(channel, attempt) {
          return true, attempt + 1;
        }
        attempt := attempt + 1;
      }
      return false, maxAttempts;
    }

    /** A channel without a registered notifier is passed over. */
    method SendToAll(channels: seq<string>, registered: set<string>, succeeds: (string, nat) -> bool)
      returns (ds: seq<Delivery>)
      ensures DeliveredTo(ds, WithNotifier(channels, registered), Limit(), succeeds)
    {
      ds := [];
      hide DeliveredTo, WithNotifier;
      NoneDelivered(channels[..0], registered, Limit(), succeeds);
      for i := 0 to |channels|
        invariant DeliveredTo(ds, WithNotifier(channels[..i], registered), Limit(), succeeds)
      {
        NotifierSnoc(channels, i, registered);
        if channels[i] in registered {
          var sent, _ := SendWithRetry(channels[i], succeeds);
          DeliveredSnoc(ds, WithNotifier(channels[..i], registered), Limit(), succeeds, Delivery(channels[i], sent));
          ds := ds + [Delivery(channels[i], sent)];
        }
      }
      assert channels[..|channels|] == channels;
    }

    /** `now` is read when the cooldown is checked, `later` when it is recorded, which happens even if
        nothing could be sent. */
    method ProcessEvent(ev: AlertEvent, now: int, later: int, registered: set<string>,
                        succeeds: (string, nat) -> bool) returns (v: Verdict, ds: seq<Delivery>)
      modifies this
      ensures if v.Delivered? then DeliveredTo(ds, WithNotifier(Channels(ev), registered), Limit(), succeeds)
              else ds == []
      ensures v.WasSuppressed? <==> Suppressed(old(cooldowns), ev, now, cooldownMinutes)
      ensures !v.WasSuppressed? ==> (v.NoChannels? <==> Channels(ev) == [])
      ensures v.Delivered? && ev.channels != [] ==>
                DeliveredTo(ds, WithNotifier(ev.channels, registered), Limit(), succeeds)
      ensures v.Delivered? && ev.channels == [] ==>
                DeliveredTo(ds, WithNotifier(defaultChannels, registered), Limit(), succeeds)
      ensures v.NoChannels? ==> ev.channels == [] && defaultChannels == []
      ensures cooldowns == if v.Delivered? then Noted(old(cooldowns), ev, later) else old(cooldowns)
    {
      if !ev.isResolution {
        var key := ev.ruleId + ":" + ev.instanceId + ":" + ev.severity;
        if key in cooldowns && now - cooldowns[key] < cooldownMinutes * MINUTE {
          return WasSuppressed, [];
        }
      }
      var channels := Channels(ev);
      if |channels| == 0 {
        return NoChannels, [];
      }
      ds := SendToAll(channels, registered, succeeds);
      if !ev.isResolution {
        cooldowns := cooldowns[CooldownKey(ev) := later];
      }
      v := Delivered;
    }
  }

  // ---- dispatching goroutines and the worker, interleaved

  datatype Busy = Idle | Working(event: AlertEvent, checkedAt: int)

  datatype Note = Note(key: string, at: int)

  datatype State = State(
    queue: seq<AlertEvent>, closed: bool, worker: Busy, cooldowns: map<string, int>, clock: int,
    accepted: seq<AlertEvent>, processed: seq<AlertEvent>, suppressed: seq<AlertEvent>, notes: seq<Note>)

  datatype Action =
    | Dispatch(event: AlertEvent)              // non-blocking: dropped when the buffer is full
    | Close                                    // Stop closes the channel, then waits
    | Take(now: int)                           // the worker receives an event and checks its cooldown
    | Finish(now: int, delivered: bool)        // the worker is done with an event that was not suppressed

  ghost function Init(clock: int): State { State([], false, Idle, map[], clock, [], [], [], []) }

  ghost predicate Enabled(s: State, a: Action) {
    match a
    case Dispatch(_) => !s.closed
    case Close => !s.closed
    case Take(now) => s.worker.Idle? && s.queue != [] && now >= s.clock
    case Finish(now, _) => s.worker.Working? && now >= s.clock
  }

  ghost function Next(s: State, a: Action, cooldown: int): State
    requires Enabled(s, a)
  {
    match a
    case Dispatch(ev) =>
      if |s.queue| < BUFFER then s.(queue := s.queue + [ev], accepted := s.accepted + [ev]) else s
    case Close => s.(closed := true)
    case Take(now) =>
      var ev := s.queue[0];
      var s' := s.(queue := s.queue[1..], clock := now);
      if Suppressed(s.cooldowns, ev, now, cooldown)
      then s'.(processed := s.processed + [ev], suppressed := s.suppressed + [ev])
      else s'.(worker := Working(ev, now))
    case Finish(now, delivered) =>
      var ev := s.worker.event;
      var s' := s.(worker := Idle, clock := now, processed := s.processed + [ev]);
      if delivered && !ev.isResolution
      then s'.(cooldowns := Noted(s.cooldowns, ev, now), notes := s.notes + [Note(CooldownKey(ev), now)])
      else s'
  }

  ghost function After(start: int, trace: seq<Action>, cooldown: int): Outcome<State> {
    if trace == [] then Reached(Init(start))
    else
      var p, a := After(start, trace[..|trace| - 1], cooldown), trace[|trace| - 1];
      if p.Reached? && Enabled(p.state, a) then Reached(Next(p.state, a, cooldown)) else Impossible
  }

  /** The worker object does what the steps say: taking the head of the queue and, unless it is suppressed,
      finishing it leave the cooldowns that `ProcessEvent` leaves, and the verdict is the step taken. */
  method Serve(worker: Worker, ghost s: State, ev: AlertEvent, now: int, later: int, registered: set<string>,
               succeeds: (string, nat) -> bool)
    returns (v: Verdict, ds: seq<Delivery>, ghost s': State)
    requires Enabled(s, Take(now)) && s.queue[0] == ev && now <= later && worker.cooldowns == s.cooldowns
    modifies worker
    ensures var taken := Next(s, Take(now), worker.cooldownMinutes);
            && (v.WasSuppressed? <==> taken.worker.Idle?)
            && s' == if v.WasSuppressed? then taken
                     else Next(taken, Finish(later, v.Delivered?), worker.cooldownMinutes)
    ensures worker.cooldowns == s'.cooldowns && s'.worker.Idle? && s'.processed == s.processed + [ev]
    ensures v.Delivered? ==>
              DeliveredTo(ds, WithNotifier(worker.Channels(ev), registered), worker.Limit(), succeeds)
  {
    v, ds := worker.ProcessEvent(ev, now, later, registered, succeeds);
    s' := Next(s, Take(now), worker.cooldownMinutes);
    if !v.WasSuppressed? {
      s' := Next(s', Finish(later, v.Delivered?), worker.cooldownMinutes);
    }
  }

  ghost function InHand(s: State): seq<AlertEvent> { if s.worker.Working? then [s.worker.event] else [] }

  /** Accepted events are processed, in hand or queued, in that order; the buffer bound holds. */
  ghost predicate Conserved(s: State) {
    s.accepted == s.processed + InHand(s) + s.queue && |s.queue| <= BUFFER
  }

  /** The cooldown map remembers the last note of each key, and notes of one key are a cooldown apart. */
  ghost predicate Spaced(s: State, cooldown: int) {
    && (forall i :: 0 <= i < |s.notes| ==> s.notes[i].at <= s.clock)
    && (forall i :: 0 <= i < |s.notes| ==>
          s.notes[i].key in s.cooldowns && s.notes[i].at <= s.cooldowns[s.notes[i].key] <= s.clock)
    && (forall i, j :: 0 <= i < j < |s.notes| && s.notes[i].key == s.notes[j].key ==>
          s.notes[j].at - s.notes[i].at >= cooldown * MINUTE)
    && (s.worker.Working? ==>
          && s.worker.checkedAt <= s.clock
          && !Suppressed(s.cooldowns, s.worker.event, s.worker.checkedAt, cooldown))
  }

  ghost predicate OnlyFiresSuppressed(s: State) {
    forall i :: 0 <= i < |s.suppressed| ==> !s.suppressed[i].isResolution
  }

  lemma ConservedStep(s: State, a: Action, cooldown: int)
    requires Enabled(s, a) && Conserved(s)
    ensures Conserved(Next(s, a, cooldown))
  {
    match a
    case Dispatch(ev) =>
      var before := s.processed + InHand(s);
      assert (before + s.queue) + [ev] == before + (s.queue + [ev]);
    case Close =>
    case Take(_) => assert s.queue == [s.queue[0]] + s.queue[1..];
    case Finish(_, _) =>
  }

  lemma SpacedStep(s: State, a: Action, cooldown: int)
    requires Enabled(s, a) && Spaced(s, cooldown)
    ensures Spaced(Next(s, a, cooldown), cooldown)
  {
  }

  /** In every interleaving: nothing accepted is lost, duplicated or reordered, the buffer never exceeds its
      size, resolutions are never suppressed, and notifications of one key are a cooldown apart. */
  lemma {:induction false} DispatcherInvariant(start: int, trace: seq<Action>, cooldown: int)
    requires After(start, trace, cooldown).Reached?
    ensures var s := After(start, trace, cooldown).state;
            Conserved(s) && Spaced(s, cooldown) && OnlyFiresSuppressed(s)
  {
    if trace != [] {
      var p, a := After(start, trace[..|trace| - 1], cooldown).state, trace[|trace| - 1];
      DispatcherInvariant(start, trace[..|trace| - 1], cooldown);
      ConservedStep(p, a, cooldown);
      SpacedStep(p, a, cooldown);
      assert OnlyFiresSuppressed(Next(p, a, cooldown));
    }
  }

  /** Work left for the worker. */
  ghost function Left(s: State): nat { 2 * |s.queue| + if s.worker.Working? then 1 else 0 }

  /** After Stop: as long as work is left the worker can act, whatever it does leaves less, and when none
      is left every accepted event has been processed, in order. */
  lemma StopDrains(start: int, trace: seq<Action>, cooldown: int)
    requires After(start, trace, cooldown).Reached? && After(start, trace, cooldown).state.closed
    ensures var s := After(start, trace, cooldown).state;
            && (Left(s) > 0 ==> Enabled(s, Take(s.clock)) || Enabled(s, Finish(s.clock, true)))
            && (forall a :: Enabled(s, a) ==> Left(Next(s, a, cooldown)) < Left(s) && Next(s, a, cooldown).closed)
            && (Left(s) == 0 ==> s.processed == s.accepted)
  {
    DispatcherInvariant(start, trace, cooldown);
  }

  // ---- who is let through

  /** A cooldown on record is that of a notification that went out. */
  ghost predicate FromNotes(s: State) {
    forall key :: key in s.cooldowns ==> exists i :: 0 <= i < |s.notes| && s.notes[i] == Note(key, s.cooldowns[key])
  }

  lemma FromNotesStep(s: State, a: Action, cooldown: int)
    requires Enabled(s, a) && FromNotes(s)
    ensures FromNotes(Next(s, a, cooldown))
  {
    var t := Next(s, a, cooldown);
    forall key | key in t.cooldowns
      ensures exists i :: 0 <= i < |t.notes| && t.notes[i] == Note(key, t.cooldowns[key])
    {
      if t.notes != s.notes && key == t.notes[|t.notes| - 1].key {
        assert t.notes[|t.notes| - 1] == Note(key, t.cooldowns[key]);
      } else {
        var i :| 0 <= i < |s.notes| && s.notes[i] == Note(key, s.cooldowns[key]);
        assert t.notes[i] == s.notes[i];
      }
    }
  }

  lemma {:induction false} NotesTell(start: int, trace: seq<Action>, cooldown: int)
    requires After(start, trace, cooldown).Reached?
    ensures FromNotes(After(start, trace, cooldown).state)
  {
    if trace != [] {
      NotesTell(start, trace[..|trace| - 1], cooldown);
      hide FromNotes, Next, Enabled;
      FromNotesStep(After(start, trace[..|trace| - 1], cooldown).state, trace[|trace| - 1], cooldown);
    }
  }

  /** The worker passes over an event exactly when it is a fire and one with its key was notified less than
      the cooldown ago; everything else it goes on to deliver. */
  lemma SuppressedIff(start: int, trace: seq<Action>, cooldown: int, now: int)
    requires After(start, trace, cooldown).Reached? && Enabled(After(start, trace, cooldown).state, Take(now))
    ensures var s := After(start, trace, cooldown).state;
            var t, ev := Next(s, Take(now), cooldown), s.queue[0];
            && (t.worker.Idle? <==> !ev.isResolution
                                    && exists i :: 0 <= i < |s.notes| && s.notes[i].key == CooldownKey(ev)
                                         && now - s.notes[i].at < cooldown * 60_000_000_000)
            && (t.worker.Idle? ==> t.suppressed == s.suppressed + [ev])
            && (!t.worker.Idle? ==> t.worker.event == ev && t.suppressed == s.suppressed)
  {
    DispatcherInvariant(start, trace, cooldown);
    NotesTell(start, trace, cooldown);
    hide After, Conserved;
  }

  /** A delivered fire is noted at the time it was finished; nothing else is. */
  lemma NotedWhenDelivered(s: State, now: int, delivered: bool, cooldown: int)
    requires Enabled(s, Finish(now, delivered))
    ensures var t, ev := Next(s, Finish(now, delivered), cooldown), s.worker.event;
            && t.worker.Idle?
            && t.notes == s.notes + if delivered && !ev.isResolution then [Note(CooldownKey(ev), now)] else []
  {
  }

  /** Dispatching never blocks: the event is taken while fewer than a hundred wait, and dropped otherwise. */
  lemma DispatchIff(s: State, ev: AlertEvent, cooldown: int)
    requires Enabled(s, Dispatch(ev))
    ensures var t := Next(s, Dispatch(ev), cooldown);
            if |s.queue| < 100 then t.queue == s.queue + [ev] && t.accepted == s.accepted + [ev] else t == s
  {
  }

  /** Rule, instance and severity have their own cooldown. */
  lemma CooldownKeyInjective(a: AlertEvent, b: AlertEvent)
    requires ColonFree(a.ruleId) && ColonFree(b.ruleId) && ColonFree(a.severity) && ColonFree(b.severity)
    requires CooldownKey(a) == CooldownKey(b)
    ensures a.ruleId == b.ruleId && a.instanceId == b.instanceId && a.severity == b.severity
  {
    var x, y := a.instanceId + ":" + a.severity, b.instanceId + ":" + b.severity;
    assert CooldownKey(a) == a.ruleId + ":" + x && CooldownKey(b) == b.ruleId + ":" + y;
    hide CooldownKey;
    SplitAtColon(a.ruleId, b.ruleId, x, y);
    SplitAtLastColon(a.instanceId, b.instanceId, a.severity, b.severity);
  }
}
