/** The sliding-window login limiter (internal/auth/ratelimit.go). Times are in nanoseconds; every clock
    reading is a parameter. */
module RateLimiter {
  import opened Basics

  datatype Failure = Failure(ip: string, at: int)

  ghost predicate Ordered(ts: seq<int>) { forall i, j :: 0 <= i < j < |ts| ==> ts[i] <= ts[j] }

  /** The failures of one address, oldest first. */
  ghost function TimesOf(history: seq<Failure>, ip: string): seq<int> {
    if history == [] then []
    else
      var rest, f := TimesOf(history[..|history| - 1], ip), history[|history| - 1];
      if f.ip == ip then rest + [f.at] else rest
  }

  /** How many of the times are at or after the cutoff. */
  ghost function CountFrom(ts: seq<int>, cutoff: int): nat {
    if ts == [] then 0 else CountFrom(ts[..|ts| - 1], cutoff) + if ts[|ts| - 1] >= cutoff then 1 else 0
  }

  lemma {:induction false} CountSplit(a: seq<int>, b: seq<int>, cutoff: int)
    ensures CountFrom(a + b, cutoff) == CountFrom(a, cutoff) + CountFrom(b, cutoff)
  {
    if b == [] {
      assert a + b == a;
    } else {
      assert (a + b)[..|a + b| - 1] == a + b[..|b| - 1];
      CountSplit(a, b[..|b| - 1], cutoff);
    }
  }

  lemma {:induction false} CountNone(ts: seq<int>, cutoff: int)
    requires forall i :: 0 <= i < |ts| ==> ts[i] < cutoff
    ensures CountFrom(ts, cutoff) == 0
  {
    if ts != [] { CountNone(ts[..|ts| - 1], cutoff); }
  }

  lemma {:induction false} CountAll(ts: seq<int>, cutoff: int)
    requires forall i :: 0 <= i < |ts| ==> ts[i] >= cutoff
    ensures CountFrom(ts, cutoff) == |ts|
  {
    if ts != [] { CountAll(ts[..|ts| - 1], cutoff); }
  }

  /** `kept` is what is left of `all` after dropping a prefix of times before `cutoff`. */
  ghost predicate Pruned(all: seq<int>, kept: seq<int>, cutoff: int) {
    |kept| <= |all| && kept == all[|all| - |kept|..] && forall i :: 0 <= i < |all| - |kept| ==> all[i] < cutoff
  }

  lemma PrunedCount(all: seq<int>, kept: seq<int>, old_: int, cutoff: int)
    requires Pruned(all, kept, old_) && old_ <= cutoff
    ensures CountFrom(all, cutoff) == CountFrom(kept, cutoff)
  {
    var dropped := all[..|all| - |kept|];
    assert all == dropped + kept;
    CountSplit(dropped, kept, cutoff);
    CountNone(dropped, cutoff);
  }

  lemma PrunedAgain(all: seq<int>, kept: seq<int>, old_: int, i: nat, cutoff: int)
    requires Ordered(all) && Pruned(all, kept, old_) && old_ <= cutoff && i <= |kept|
    requires forall k :: 0 <= k < i ==> kept[k] < cutoff
    ensures Pruned(all, kept[i..], cutoff)
  {
    var d := |all| - |kept|;
    forall k | 0 <= k < d + i ensures all[k] < cutoff {
      if k >= d { assert all[k] == kept[k - d]; }
    }
  }

  /** Recorded in clock order, none later than `clock`. */
  ghost predicate InClockOrder(history: seq<Failure>, clock: int) {
    && (forall i, j :: 0 <= i < j < |history| ==> history[i].at <= history[j].at)
    && (forall i :: 0 <= i < |history| ==> history[i].at <= clock)
  }

  lemma {:induction false} TimesOrdered(history: seq<Failure>, ip: string, clock: int)
    requires InClockOrder(history, clock)
    ensures Ordered(TimesOf(history, ip))
    ensures forall i :: 0 <= i < |TimesOf(history, ip)| ==> TimesOf(history, ip)[i] <= clock
  {
    if history != [] {
      var last := history[|history| - 1];
      TimesOrdered(history[..|history| - 1], ip, last.at);
    }
  }

  function Get(attempts: map<string, seq<int>>, ip: string): seq<int> {
    if ip in attempts then attempts[ip] else []
  }

  /** Every stored list is the address's whole history minus a prefix of expired failures. */
  ghost predicate Tracks(attempts: map<string, seq<int>>, history: seq<Failure>, cutoff: int) {
    forall ip {:trigger Get(attempts, ip)} :: Pruned(TimesOf(history, ip), Get(attempts, ip), cutoff)
  }

  lemma TracksLater(attempts: map<string, seq<int>>, history: seq<Failure>, old_: int, cutoff: int)
    requires Tracks(attempts, history, old_) && old_ <= cutoff
    ensures Tracks(attempts, history, cutoff)
  {
    forall p ensures Pruned(TimesOf(history, p), Get(attempts, p), cutoff) {
      assert Pruned(TimesOf(history, p), Get(attempts, p), old_);
    }
  }

  lemma TracksSet(attempts: map<string, seq<int>>, attempts': map<string, seq<int>>, history: seq<Failure>,
                  ip: string, cutoff: int)
    requires Tracks(attempts, history, cutoff) && forall p :: p != ip ==> Get(attempts', p) == Get(attempts, p)
    requires Pruned(TimesOf(history, ip), Get(attempts', ip), cutoff)
    ensures Tracks(attempts', history, cutoff)
  {
    forall p ensures Pruned(TimesOf(history, p), Get(attempts', p), cutoff) {
      assert p != ip ==> Pruned(TimesOf(history, p), Get(attempts, p), cutoff);
    }
  }

  lemma TracksRecord(attempts: map<string, seq<int>>, history: seq<Failure>, f: Failure, cutoff: int)
    requires Tracks(attempts, history, cutoff)
    ensures Tracks(attempts[f.ip := Get(attempts, f.ip) + [f.at]], history + [f], cutoff)
  {
    assert (history + [f])[..|history|] == history;
    forall p ensures Pruned(TimesOf(history + [f], p), Get(attempts[f.ip := Get(attempts, f.ip) + [f.at]], p), cutoff) {
      PrunedSnoc(TimesOf(history, p), Get(attempts, p), f.at, cutoff);
    }
  }

  lemma PrunedSnoc(all: seq<int>, kept: seq<int>, t: int, cutoff: int)
    requires Pruned(all, kept, cutoff)
    ensures Pruned(all + [t], kept + [t], cutoff)
  {
  }

  /** Skips the expired prefix. */
  method DropExpired(ghost all: seq<int>, entries: seq<int>, ghost old_: int, cutoff: int) returns (kept: seq<int>)
    requires Ordered(all) && Pruned(all, entries, old_) && old_ <= cutoff
    ensures Pruned(all, kept, cutoff) && |kept| == CountFrom(all, cutoff)
    ensures forall k :: 0 <= k < |kept| ==> kept[k] >= cutoff
  {
    var i := 0;
    while i < |entries| && entries[i] < cutoff
      invariant 0 <= i <= |entries| && forall k :: 0 <= k < i ==> entries[k] < cutoff
    {
      i := i + 1;
    }
    kept := entries[i..];
    PrunedAgain(all, entries, old_, i, cutoff);
    FirstKept(all, entries, old_, i, cutoff);
    PrunedCount(all, kept, cutoff, cutoff);
    CountAll(kept, cutoff);
  }

  lemma FirstKept(all: seq<int>, entries: seq<int>, old_: int, i: nat, cutoff: int)
    requires Ordered(all) && Pruned(all, entries, old_) && i <= |entries| && (i < |entries| ==> entries[i] >= cutoff)
    ensures forall k :: 0 <= k < |entries[i..]| ==> entries[i..][k] >= cutoff
  {
    var d := |all| - |entries|;
    forall k | 0 <= k < |entries[i..]| ensures entries[i..][k] >= cutoff {
      assert entries[i..][k] == all[d + i + k] && entries[i] == all[d + i];
    }
  }

  lemma StoredFor(attempts: map<string, seq<int>>, history: seq<Failure>, clock: int, ip: string, cutoff: int)
    requires InClockOrder(history, clock) && Tracks(attempts, history, cutoff)
    ensures Ordered(TimesOf(history, ip)) && Pruned(TimesOf(history, ip), Get(attempts, ip), cutoff)
  {
    hide TimesOf, Pruned, InClockOrder;
    TimesOrdered(history, ip, clock);
  }

  /** The map after dropping the expired prefix of one address; an emptied list is deleted. */
  method WithoutExpired(attempts: map<string, seq<int>>, ghost history: seq<Failure>, ghost clock: int, ip: string,
                        window: int, now: int) returns (attempts': map<string, seq<int>>)
    requires InClockOrder(history, clock) && Tracks(attempts, history, clock - window) && clock <= now
    ensures Tracks(attempts', history, now - window)
    ensures Pruned(TimesOf(history, ip), Get(attempts', ip), now - window)
    ensures |Get(attempts', ip)| == CountFrom(TimesOf(history, ip), now - window)
  {
    hide TimesOf, CountFrom, Pruned, Tracks, InClockOrder, Ordered;
    var cutoff := now - window;
    StoredFor(attempts, history, clock, ip, clock - window);
    var kept := DropExpired(TimesOf(history, ip), Get(attempts, ip), clock - window, cutoff);
    TracksLater(attempts, history, clock - window, cutoff);
    if |kept| == 0 {
      attempts' := attempts - {ip};
    } else {
      attempts' := attempts[ip := kept];
    }
    assert Get(attempts', ip) == kept && forall p :: p != ip ==> Get(attempts', p) == Get(attempts, p);
    hide Get;
    TracksSet(attempts, attempts', history, ip, cutoff);
  }

  class Limiter {
    const maxAttempts: int
    const window: int
    var attempts: map<string, seq<int>>
    ghost var history: seq<Failure>  // every failure ever recorded
    ghost var clock: int             // the latest clock reading

    ghost predicate Valid()
      reads this
    {
      InClockOrder(history, clock) && Tracks(attempts, history, clock - window)
    }

    constructor (maxAttempts: int, window: int, ghost now: int)
      ensures Valid() && history == [] && clock == now && this.maxAttempts == maxAttempts && this.window == window
    {
      this.maxAttempts, this.window := maxAttempts, window;
      attempts, history, clock := map[], [], now;
    }

    /** Drops the expired prefix; with ordered times that is every expired entry. */
    method PruneExpired(ip: string, now: int)
      requires Valid() && now >= clock
      modifies this`attempts, this`clock
      ensures Valid() && clock == now && history == old(history)
      ensures Pruned(TimesOf(history, ip), Get(attempts, ip), now - window)
      ensures |Get(attempts, ip)| == CountFrom(TimesOf(history, ip), now - window)
    {
      hide TimesOf, CountFrom, Pruned, Tracks, InClockOrder;
      LaterClock(history, clock, now);
      attempts := WithoutExpired(attempts, history, clock, ip, window, now);
      clock := now;
    }

    /** The stored list answers as counting the whole history would. */
    method Allow(ip: string, now: int) returns (ok: bool)
      requires Valid() && now >= clock
      modifies this`attempts, this`clock
      ensures Valid() && clock == now && history == old(history)
      ensures ok <==> CountFrom(TimesOf(history, ip), now - window) < maxAttempts
    {
      hide TimesOf, CountFrom, Pruned, Tracks, InClockOrder;
      PruneExpired(ip, now);
      ok := |Get(attempts, ip)| < maxAttempts;
    }

    method RecordFailure(ip: string, now: int)
      requires Valid() && now >= clock
      modifies this
      ensures Valid() && clock == now && history == old(history) + [Failure(ip, now)]
    {
      hide TimesOf, Pruned, Tracks, InClockOrder;
      TracksLater(attempts, history, clock - window, now - window);
      TracksRecord(attempts, history, Failure(ip, now), now - window);
      OrderRecord(history, clock, Failure(ip, now));
      attempts := attempts[ip := Get(attempts, ip) + [now]];
      history := history + [Failure(ip, now)];
      clock := now;
    }

    /** `now2` is the second clock reading of the call. The source indexes the first entry when the limit is
        reached, so a limit of 0 needs one. */
    method RetryAfter(ip: string, now: int, now2: int) returns (seconds: int)
      requires Valid() && clock <= now <= now2
      requires maxAttempts >= 1 || CountFrom(TimesOf(history, ip), now - window) > 0
      modifies this`attempts, this`clock
      ensures Valid() && clock == now2 && history == old(history)
      ensures seconds == WaitFor(Get(attempts, ip), maxAttempts, window, now2)
      ensures |Get(attempts, ip)| == CountFrom(TimesOf(history, ip), now - window)
      ensures Pruned(TimesOf(history, ip), Get(attempts, ip), now - window)
    {
      hide TimesOf, CountFrom, Pruned, Tracks, InClockOrder;
      PruneExpired(ip, now);
      TracksLater(attempts, history, now - window, now2 - window);
      LaterClock(history, now, now2);
      clock := now2;
      var entries := Get(attempts, ip);
      if |entries| < maxAttempts {
        return 0;
      }
      var remaining := window - (now2 - entries[0]);
      if remaining <= 0 {
        return 0;
      }
      seconds := remaining / SECOND + 1;
    }
  }

  /** A wait is promised exactly when the address is limited and its oldest entry is still inside the window at
      the second clock reading; it then ends after that entry has left, by at most a second. */
  lemma WaitPositiveIff(entries: seq<int>, maxAttempts: int, window: int, now: int)
    ensures var wait := WaitFor(entries, maxAttempts, window, now);
            && wait >= 0
            && (wait > 0 <==> |entries| >= maxAttempts && entries != [] && entries[0] > now - window)
            && (wait > 0 ==> entries[0] + window < now + wait * SECOND <= entries[0] + window + SECOND)
  {
  }

  lemma OrderRecord(history: seq<Failure>, clock: int, f: Failure)
    requires InClockOrder(history, clock) && f.at >= clock
    ensures InClockOrder(history + [f], f.at)
  {
  }

  lemma LaterClock(history: seq<Failure>, a: int, b: int)
    requires InClockOrder(history, a) && a <= b
    ensures InClockOrder(history, b)
  {
  }

  function WaitFor(entries: seq<int>, maxAttempts: int, window: int, now: int): int {
    if |entries| < maxAttempts || entries == [] then 0
    else
      var remaining := window - (now - entries[0]);
      if remaining <= 0 then 0 else remaining / SECOND + 1
  }

  /** With ordered times, fewer than n lie in the window exactly when the n-th newest has left it. */
  lemma FewerIff(ts: seq<int>, n: nat, cutoff: int)
    requires Ordered(ts) && 1 <= n <= |ts|
    ensures CountFrom(ts, cutoff) < n <==> ts[|ts| - n] < cutoff
  {
    var k := |ts| - n;
    hide CountFrom;
    if ts[k] < cutoff {
      assert ts == ts[..k + 1] + ts[k + 1..];
      CountSplit(ts[..k + 1], ts[k + 1..], cutoff);
      CountAtMost(ts[k + 1..], cutoff);
      assert forall i :: 0 <= i <= k ==> ts[i] < cutoff;
      CountNone(ts[..k + 1], cutoff);
    } else {
      assert ts == ts[..k] + ts[k..];
      CountSplit(ts[..k], ts[k..], cutoff);
      assert forall i :: k <= i < |ts| ==> ts[i] >= cutoff;
      CountAll(ts[k..], cutoff);
    }
  }

  lemma {:induction false} CountAtMost(ts: seq<int>, cutoff: int)
    ensures CountFrom(ts, cutoff) <= |ts|
  {
    if ts != [] { CountAtMost(ts[..|ts| - 1], cutoff); }
  }

  /** The entry that must leave the window is less far behind the oldest one than the wait is rounded up. */
  ghost predicate LeavesInTime(entries: seq<int>, maxAttempts: nat, window: int, now: int)
    requires 1 <= maxAttempts <= |entries|
  {
    var remaining := window - (now - entries[0]);
    entries[|entries| - maxAttempts] - entries[0] < SECOND - remaining % SECOND
  }

  /** Waiting as long as told, with no new failure, is enough exactly then; with no more than the allowed number
      of entries it always is. */
  lemma RetryAfterIff(entries: seq<int>, maxAttempts: nat, window: int, now: int)
    requires Ordered(entries) && maxAttempts >= 1 && WaitFor(entries, maxAttempts, window, now) > 0
    ensures var later := now + WaitFor(entries, maxAttempts, window, now) * SECOND;
            && (CountFrom(entries, later - window) < maxAttempts <==> LeavesInTime(entries, maxAttempts, window, now))
            && (|entries| == maxAttempts ==> CountFrom(entries, later - window) < maxAttempts)
  {
    var wait := WaitFor(entries, maxAttempts, window, now);
    var remaining := window - (now - entries[0]);
    assert wait * SECOND == remaining - remaining % SECOND + SECOND;
    FewerIff(entries, maxAttempts, now + wait * SECOND - window);
  }

  /** The same for the limiter: after `RetryAfter` answered at `now2`, an `Allow` that many seconds later
      with no new failure. */
  lemma RetryThenAllow(history: seq<Failure>, ip: string, entries: seq<int>, maxAttempts: nat, window: int,
                       now: int, now2: int, later: int)
    requires InClockOrder(history, now2) && now <= now2 && maxAttempts >= 1
    requires Pruned(TimesOf(history, ip), entries, now - window)
    requires WaitFor(entries, maxAttempts, window, now2) > 0
    requires later == now2 + WaitFor(entries, maxAttempts, window, now2) * SECOND
    ensures CountFrom(TimesOf(history, ip), later - window) < maxAttempts
            <==> LeavesInTime(entries, maxAttempts, window, now2)
    ensures |entries| == maxAttempts ==> CountFrom(TimesOf(history, ip), later - window) < maxAttempts
  {
    hide TimesOf, CountFrom, Pruned, InClockOrder, Ordered;
    WaitPositiveIff(entries, maxAttempts, window, now2);
    hide LeavesInTime;
    TimesOrdered(history, ip, now2);
    SuffixOrdered(TimesOf(history, ip), entries, now - window);
    PrunedCount(TimesOf(history, ip), entries, now - window, later - window);
    RetryAfterIff(entries, maxAttempts, window, now2);
  }

  lemma SuffixOrdered(all: seq<int>, kept: seq<int>, cutoff: int)
    requires Ordered(all) && Pruned(all, kept, cutoff)
    ensures Ordered(kept)
  {
    var d := |all| - |kept|;
    forall i, j | 0 <= i < j < |kept| ensures kept[i] <= kept[j] {
      assert kept[i] == all[d + i] && kept[j] == all[d + j];
    }
  }

  /** More failures than the limit can be in the window, and then the promised wait is too short: a limiter of
      one attempt in 15 seconds, failures at 0 and 10 seconds, asked at once and tried after the wait. */
  method OverfullWaitTooShort(ip: string) returns (wait: int, allowed: bool)
    ensures wait == 6 && !allowed
  {
    hide TimesOf, CountFrom, Pruned, Tracks, InClockOrder;
    var limiter := new Limiter(1, 15 * SECOND, 0);
    limiter.RecordFailure(ip, 0);
    limiter.RecordFailure(ip, 10 * SECOND);
    ghost var history := [Failure(ip, 0), Failure(ip, 10 * SECOND)];
    assert limiter.history == history;
    TwoFailures(ip, 0, 10 * SECOND);
    wait := limiter.RetryAfter(ip, 10 * SECOND, 10 * SECOND);
    AllKept(TimesOf(history, ip), Get(limiter.attempts, ip), -5 * SECOND);
    allowed := limiter.Allow(ip, 16 * SECOND);
  }

  lemma TwoFailures(ip: string, s: int, t: int)
    ensures TimesOf([Failure(ip, s), Failure(ip, t)], ip) == [s, t]
    ensures forall cutoff :: CountFrom([s, t], cutoff)
                             == (if s >= cutoff then 1 else 0) + (if t >= cutoff then 1 else 0)
  {
    var one, two := [Failure(ip, s)], [Failure(ip, s), Failure(ip, t)];
    assert two[..1] == one && one[..0] == [] && [s, t][..1] == [s] && [s][..0] == [];
    assert TimesOf(one, ip) == [] + [s];
    forall cutoff ensures CountFrom([s, t], cutoff)
                          == (if s >= cutoff then 1 else 0) + (if t >= cutoff then 1 else 0)
    {
      assert CountFrom([s], cutoff) == if s >= cutoff then 1 else 0;
    }
  }

  lemma AllKept(all: seq<int>, kept: seq<int>, cutoff: int)
    requires Pruned(all, kept, cutoff) && |kept| == CountFrom(all, cutoff) && CountFrom(all, cutoff) == |all|
    ensures kept == all
  {
    hide CountFrom;
  }
}
