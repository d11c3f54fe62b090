/** The request statistics behind the operator dashboard. */
module RequestStatistics {
  const WINDOW_MS := 60000

  datatype Stats = Stats(total: nat, errors: nat, active: nat, recent: seq<int>, latency: int, finished: nat,
                         counts: map<string, nat>)

  const EMPTY := Stats(0, 0, 0, [], 0, 0, map[])

  /** Drops entries at the head only. */
  function Prune(queue: seq<int>, cutoff: int): seq<int> {
    if queue != [] && queue[0] < cutoff then Prune(queue[1..], cutoff) else queue
  }

  function RecordRequest(s: Stats, now: int): Stats {
    s.(total := s.total + 1, active := s.active + 1, recent := Prune(s.recent + [now], now - WINDOW_MS))
  }

  function RecordCommand(s: Stats, name: string): Stats {
    s.(counts := s.counts[name := (if name in s.counts then s.counts[name] else 0) + 1])
  }

  function RecordResponse(s: Stats, success: bool, durationMs: int): Stats {
    s.(active := if s.active > 0 then s.active - 1 else s.active,
       errors := if success then s.errors else s.errors + 1,
       latency := s.latency + durationMs,
       finished := s.finished + 1)
  }

  function ErrorRatePercent(s: Stats): int {
    if s.total > 0 then s.errors * 100 / s.total else 0
  }

  // ---------- Whole router runs ----------

  /** One dispatched request: when it came, its command, whether a handler was found, how long it took. */
  datatype Served = Served(at: int, name: string, success: bool, durationMs: int)

  function Counted(s: Stats, x: Served): Stats {
    RecordResponse(RecordCommand(RecordRequest(s, x.at), x.name), x.success, x.durationMs)
  }

  function Replay(s: Stats, log: seq<Served>): Stats {
    if log == [] then s else Counted(Replay(s, log[..|log| - 1]), log[|log| - 1])
  }

  function StatsOf(log: seq<Served>): Stats {
    Replay(EMPTY, log)
  }

  /** Counting on from what a history left is counting the longer history. */
  lemma {:induction false} ReplayContinues(log: seq<Served>, more: seq<Served>)
    ensures Replay(StatsOf(log), more) == StatsOf(log + more)
  {
    hide Counted;
    if more == [] {
      assert log + more == log;
    } else {
      var n := |more| - 1;
      ReplayContinues(log, more[..n]);
      assert (log + more)[..|log + more| - 1] == log + more[..n];
    }
  }

  /** The times at or after the cutoff, in order. */
  function Since(log: seq<Served>, cutoff: int): seq<int> {
    if log == [] then []
    else Since(log[..|log| - 1], cutoff) + if log[|log| - 1].at >= cutoff then [log[|log| - 1].at] else []
  }

  function Failures(log: seq<Served>): nat {
    if log == [] then 0 else Failures(log[..|log| - 1]) + if log[|log| - 1].success then 0 else 1
  }

  function Named(log: seq<Served>, name: string): nat {
    if log == [] then 0 else Named(log[..|log| - 1], name) + if log[|log| - 1].name == name then 1 else 0
  }

  function Durations(log: seq<Served>): int {
    if log == [] then 0 else Durations(log[..|log| - 1]) + log[|log| - 1].durationMs
  }

  ghost predicate ClockMonotone(log: seq<Served>) {
    forall i, j :: 0 <= i <= j < |log| ==> log[i].at <= log[j].at
  }

  ghost predicate Ascending(q: seq<int>) {
    forall i, j :: 0 <= i <= j < |q| ==> q[i] <= q[j]
  }

  ghost predicate AtMost(q: seq<int>, t: int) {
    forall i :: 0 <= i < |q| ==> q[i] <= t
  }

  /** Every request is counted once as a request, once under its command and once as finished, with the time it
      took; errors are the unserved ones, never more than the requests, so the rate stays a percentage. */
  lemma {:induction false} CountersOfRun(log: seq<Served>)
    ensures var s := StatsOf(log);
      && s.total == s.finished == |log| && s.active == 0 && s.latency == Durations(log)
      && s.errors == Failures(log) <= s.total
      && 0 <= ErrorRatePercent(s) <= 100
      && (forall name :: (if name in s.counts then s.counts[name] else 0) == Named(log, name))
  {
    if log != [] {
      CountersOfRun(log[..|log| - 1]);
      Percentage(StatsOf(log).errors, StatsOf(log).total);
    }
  }

  /** Between the arrival of a request and its end exactly one is active. */
  lemma OneIsActive(log: seq<Served>, now: int, name: string)
    ensures RecordCommand(RecordRequest(StatsOf(log), now), name).active == 1
  {
    CountersOfRun(log);
  }

  lemma Percentage(part: nat, whole: nat)
    requires part <= whole && whole > 0
    ensures 0 <= part * 100 / whole <= 100
  {
    var q := part * 100 / whole;
    assert q * whole <= part * 100 <= 100 * whole;
    if q > 100 {
      MulMono(101, q, whole);
    }
  }

  lemma RoundedDown(part: nat, whole: nat)
    requires whole > 0
    ensures 0 <= part / whole && (part / whole) * whole <= part < (part / whole + 1) * whole
  {
    assert part == whole * (part / whole) + part % whole;
  }

  lemma MulMono(a: nat, b: nat, c: nat)
    requires a <= b
    ensures a * c <= b * c
  {
  }

  lemma {:induction false} SinceBounds(log: seq<Served>, cutoff: int)
    requires ClockMonotone(log)
    ensures Ascending(Since(log, cutoff))
    ensures forall i :: 0 <= i < |Since(log, cutoff)| ==>
              log != [] && cutoff <= Since(log, cutoff)[i] <= log[|log| - 1].at
  {
    if log != [] {
      var init := log[..|log| - 1];
      SinceBounds(init, cutoff);
      forall i | 0 <= i < |Since(init, cutoff)| ensures Since(init, cutoff)[i] <= log[|log| - 1].at {
        assert log[|init| - 1].at <= log[|log| - 1].at;
      }
    }
  }

  /** On an ascending queue, dropping at the head is dropping everything that is too old. */
  lemma {:induction false} PruneIsFilter(log: seq<Served>, low: int, cutoff: int)
    requires ClockMonotone(log) && low <= cutoff
    ensures Prune(Since(log, low), cutoff) == Since(log, cutoff)
  {
    if log != [] {
      var init, t := log[..|log| - 1], log[|log| - 1].at;
      var a, b := Since(init, low), Since(init, cutoff);
      PruneIsFilter(init, low, cutoff);
      if t >= low {
        SinceBounds(init, low);
        BelowLast(log, low);
        PruneAppend(a, t, cutoff);
        assert Since(log, low) == a + [t];
      } else {
        assert Since(log, low) == a + [] == a;
      }
      assert Since(log, cutoff) == b + if t >= cutoff then [t] else [];
    }
  }

  lemma BelowLast(log: seq<Served>, cutoff: int)
    requires ClockMonotone(log) && log != []
    ensures AtMost(Since(log[..|log| - 1], cutoff), log[|log| - 1].at)
  {
    SinceBounds(log[..|log| - 1], cutoff);
  }

  lemma {:induction false} PruneAppend(q: seq<int>, t: int, cutoff: int)
    requires AtMost(q, t)
    ensures Prune(q + [t], cutoff) == Prune(q, cutoff) + if t >= cutoff then [t] else []
  {
    if q != [] {
      assert (q + [t])[1..] == q[1..] + [t];
      if q[0] < cutoff {
        PruneAppend(q[1..], t, cutoff);
      }
    } else {
      assert Prune([t], cutoff) == if t < cutoff then Prune([], cutoff) else [t];
    }
  }

  /** With a clock that never goes back, the queue is exactly the requests of the last minute. */
  lemma {:induction false} WindowOfRun(log: seq<Served>)
    requires ClockMonotone(log) && log != []
    ensures StatsOf(log).recent == Since(log, log[|log| - 1].at - 60000)
  {
    var init, now := log[..|log| - 1], log[|log| - 1].at;
    var cutoff := now - WINDOW_MS;
    if init == [] {
      assert StatsOf(init) == EMPTY;
      assert Prune([] + [now], cutoff) == [now];
      assert Since(log, cutoff) == Since(init, cutoff) + [now];
    } else {
      var low := init[|init| - 1].at - WINDOW_MS;
      WindowOfRun(init);
      PruneIsFilter(init, low, cutoff);
      BelowLast(log, low);
      PruneAppend(Since(init, low), now, cutoff);
    }
  }

  // ---------- Any clock at all ----------

  function From(q: seq<int>, cutoff: int): seq<int> {
    if q == [] then [] else (if q[0] >= cutoff then [q[0]] else []) + From(q[1..], cutoff)
  }

  ghost predicate NothingStaleBehind(q: seq<int>, cutoff: int) {
    forall i, j :: 0 <= i < j < |q| && q[i] >= cutoff ==> q[j] >= cutoff
  }

  lemma {:induction false} FromLength(q: seq<int>, cutoff: int)
    ensures |From(q, cutoff)| <= |q|
    ensures (forall i :: 0 <= i < |q| ==> q[i] >= cutoff) <==> From(q, cutoff) == q
  {
    if q != [] {
      FromLength(q[1..], cutoff);
      assert q == [q[0]] + q[1..];
      assert forall i :: 1 <= i < |q| ==> q[i] == q[1..][i - 1];
      if From(q, cutoff) == q {
        assert |From(q, cutoff)| == |q|;
      }
    }
  }

  lemma StaleTail(q: seq<int>, cutoff: int)
    requires q != [] && q[0] < cutoff
    ensures NothingStaleBehind(q, cutoff) <==> NothingStaleBehind(q[1..], cutoff)
  {
    var rest := q[1..];
    assert forall i :: 1 <= i < |q| ==> q[i] == rest[i - 1];
    if NothingStaleBehind(q, cutoff) {
      forall i, j | 0 <= i < j < |rest| && rest[i] >= cutoff ensures rest[j] >= cutoff {
        assert q[i + 1] == rest[i] && q[j + 1] == rest[j];
      }
    }
  }

  lemma FreshHead(q: seq<int>, cutoff: int)
    requires q != [] && q[0] >= cutoff
    ensures NothingStaleBehind(q, cutoff) <==> forall i :: 0 <= i < |q| ==> q[i] >= cutoff
  {
  }

  /** Dropping at the head drops everything too old, and nothing else, exactly if no entry that is too old stands
      behind one that is not. */
  lemma {:induction false} PruneExact(q: seq<int>, cutoff: int)
    ensures Prune(q, cutoff) == From(q, cutoff) <==> NothingStaleBehind(q, cutoff)
  {
    if q != [] {
      hide NothingStaleBehind;
      if q[0] < cutoff {
        PruneExact(q[1..], cutoff);
        StaleTail(q, cutoff);
      } else {
        FromLength(q, cutoff);
        FreshHead(q, cutoff);
      }
    }
  }

  lemma SameBeforeLast(a: seq<int>, b: seq<int>, t: int)
    ensures a + [t] == b + [t] <==> a == b
  {
    if a + [t] == b + [t] {
      assert a == (a + [t])[..|a|] && b == (b + [t])[..|b|];
    }
  }

  lemma {:induction false} FromAppend(q: seq<int>, t: int, cutoff: int)
    ensures From(q + [t], cutoff) == From(q, cutoff) + if t >= cutoff then [t] else []
  {
    if q == [] {
      assert [t][1..] == [];
    } else {
      var head, tail := if q[0] >= cutoff then [q[0]] else [], if t >= cutoff then [t] else [];
      assert (q + [t])[1..] == q[1..] + [t] && (q + [t])[0] == q[0];
      FromAppend(q[1..], t, cutoff);
      assert From(q + [t], cutoff) == head + From(q[1..] + [t], cutoff);
      assert head + (From(q[1..], cutoff) + tail) == (head + From(q[1..], cutoff)) + tail;
    }
  }

  lemma {:induction false} FromSince(log: seq<Served>, low: int, cutoff: int)
    requires low <= cutoff
    ensures From(Since(log, low), cutoff) == Since(log, cutoff)
  {
    if log != [] {
      var init, t := log[..|log| - 1], log[|log| - 1].at;
      FromSince(init, low, cutoff);
      FromAppend(Since(init, low), t, cutoff);
      assert Since(init, low) + [] == Since(init, low) && Since(init, cutoff) + [] == Since(init, cutoff);
    }
  }

  lemma {:induction false} SinceAtLeast(log: seq<Served>, cutoff: int)
    ensures forall i :: 0 <= i < |Since(log, cutoff)| ==> Since(log, cutoff)[i] >= cutoff
  {
    if log != [] {
      SinceAtLeast(log[..|log| - 1], cutoff);
    }
  }

  /** Two cutoffs show the same entries exactly if no logged time lies between them. */
  lemma {:induction false} SinceGap(log: seq<Served>, cutoff: int, low: int)
    requires cutoff <= low
    ensures |Since(log, low)| <= |Since(log, cutoff)|
    ensures Since(log, low) == Since(log, cutoff) <==> forall k :: 0 <= k < |log| ==> !(cutoff <= log[k].at < low)
    ensures |Since(log, low)| == |Since(log, cutoff)| ==> Since(log, low) == Since(log, cutoff)
  {
    if log != [] {
      var init, t := log[..|log| - 1], log[|log| - 1].at;
      SinceGap(init, cutoff, low);
      var a, b := Since(init, low), Since(init, cutoff);
      assert Since(log, low) == a + if t >= low then [t] else [];
      assert Since(log, cutoff) == b + if t >= cutoff then [t] else [];
      assert forall k :: 0 <= k < |init| ==> init[k] == log[k];
      assert log[|init|].at == t;
      SameBeforeLast(a, b, t);
    }
  }

  /** What the next time must be for the queue to stay the last minute: coming forward, no entry too old for it
      stands behind one that is not; going back, no request lies between the two windows' starts. */
  ghost predicate InStep(log: seq<Served>, t: int)
    requires log != []
  {
    var last := log[|log| - 1].at;
    if t >= last then NothingStaleBehind(Since(log, last - WINDOW_MS), t - WINDOW_MS)
    else forall k :: 0 <= k < |log| ==> !(t - WINDOW_MS <= log[k].at < last - WINDOW_MS)
  }

  lemma ForwardStep(q: seq<int>, t: int, cutoff: int)
    requires cutoff <= t
    ensures Prune(q + [t], cutoff) == From(q, cutoff) + [t] <==> NothingStaleBehind(q, cutoff)
  {
    var queue := q + [t];
    PruneExact(queue, cutoff);
    FromAppend(q, t, cutoff);
    assert forall i :: 0 <= i < |q| ==> queue[i] == q[i];
    assert queue[|q|] == t;
  }

  lemma BackwardStep(q: seq<int>, t: int, cutoff: int)
    requires cutoff <= t && forall i :: 0 <= i < |q| ==> q[i] >= cutoff
    ensures Prune(q + [t], cutoff) == q + [t]
  {
    assert (q + [t])[0] >= cutoff;
  }

  /** From a queue that is the last minute of the history, the next request leaves it so exactly if its time is in
      step. */
  lemma WindowStep(s: Stats, log: seq<Served>, x: Served)
    requires log != [] && s.recent == Since(log, log[|log| - 1].at - WINDOW_MS)
    ensures RecordRequest(s, x.at).recent == Since(log + [x], x.at - WINDOW_MS) <==> InStep(log, x.at)
  {
    hide Prune, From, Since, NothingStaleBehind;
    var low, cutoff := log[|log| - 1].at - WINDOW_MS, x.at - WINDOW_MS;
    var q := s.recent;
    SinceNext(log, x, cutoff);
    if cutoff >= low {
      FromSince(log, low, cutoff);
      ForwardStep(q, x.at, cutoff);
    } else {
      SinceAtLeast(log, low);
      BackwardStep(q, x.at, cutoff);
      SinceGap(log, cutoff, low);
      SameBeforeLast(q, Since(log, cutoff), x.at);
    }
  }

  lemma SinceNext(log: seq<Served>, x: Served, cutoff: int)
    ensures Since(log + [x], cutoff) == Since(log, cutoff) + if x.at >= cutoff then [x.at] else []
  {
    assert (log + [x])[..|log|] == log;
  }

  ghost predicate ClockInStep(log: seq<Served>) {
    log != [] ==>
      var init := log[..|log| - 1];
      ClockInStep(init) && (init == [] || InStep(init, log[|log| - 1].at))
  }

  ghost predicate WindowAllAlong(log: seq<Served>) {
    log != [] ==> WindowAllAlong(log[..|log| - 1]) && StatsOf(log).recent == Since(log, log[|log| - 1].at - WINDOW_MS)
  }

  lemma RecentNext(log: seq<Served>, x: Served)
    ensures StatsOf(log + [x]).recent == RecordRequest(StatsOf(log), x.at).recent
  {
    assert (log + [x])[..|log|] == log;
  }

  lemma FirstRequest(x: Served)
    ensures StatsOf([x]).recent == Since([x], x.at - WINDOW_MS)
  {
    WindowOfRun([x]);
  }

  /** For any clock: the queue is the last minute of the history all along exactly if every time was in step. */
  lemma {:induction false} WindowThroughout(log: seq<Served>)
    ensures WindowAllAlong(log) <==> ClockInStep(log)
  {
    hide Since, Prune, StatsOf, RecordRequest, InStep, Counted;
    if log != [] {
      var init, x := log[..|log| - 1], log[|log| - 1];
      WindowThroughout(init);
      assert init + [x] == log;
      if init == [] {
        FirstRequest(x);
        assert log == [x];
      } else if WindowAllAlong(init) {
        RecentNext(init, x);
        WindowStep(StatsOf(init), init, x);
      }
    }
  }

  /** A clock that goes back can leave an entry older than the window behind a younger head. */
  lemma BackwardClockKeepsStaleEntries()
    ensures var s := RecordRequest(RecordRequest(RecordRequest(EMPTY, 100000), 0), 70000);
      0 in s.recent && 0 < 70000 - WINDOW_MS
  {
    var s1 := RecordRequest(EMPTY, 100000);
    assert s1.recent == [100000];
    var s2 := RecordRequest(s1, 0);
    assert s2.recent == [100000, 0];
    assert RecordRequest(s2, 70000).recent == [100000, 0, 70000];
  }

  /** Or it can have dropped an entry that is within the window again. */
  lemma BackwardClockMissesRequests()
    ensures var s := RecordRequest(RecordRequest(RecordRequest(EMPTY, 0), 70000), 30000);
      0 !in s.recent && 0 >= 30000 - WINDOW_MS
  {
    var s1 := RecordRequest(EMPTY, 0);
    assert s1.recent == [0];
    var s2 := RecordRequest(s1, 70000);
    assert [0] + [70000] == [0, 70000] && [0, 70000][1..] == [70000];
    assert Prune([70000], 10000) == [70000];
    assert s2.recent == [70000];
    assert RecordRequest(s2, 30000).recent == [70000, 30000];
  }

  class RequestStats {
    var totalRequests: nat
    var totalErrors: nat
    var activeRequests: nat
    var recentRequestTimes: seq<int>
    var totalLatencyMs: int
    var latencyCount: nat
    var commandCounts: map<string, nat>

    ghost function View(): Stats
      reads this
    {
      Stats(totalRequests, totalErrors, activeRequests, recentRequestTimes, totalLatencyMs, latencyCount, commandCounts)
    }

    constructor ()
      ensures View() == EMPTY
    {
      totalRequests, totalErrors, activeRequests, recentRequestTimes := 0, 0, 0, [];
      totalLatencyMs, latencyCount, commandCounts := 0, 0, map[];
    }

    method Request(now: int)
      modifies this
      ensures View() == RecordRequest(old(View()), now)
    {
      totalRequests, activeRequests := totalRequests + 1, activeRequests + 1;
      recentRequestTimes := recentRequestTimes + [now];
      var cutoff := now - WINDOW_MS;
      while recentRequestTimes != [] && recentRequestTimes[0] < cutoff
        invariant Prune(recentRequestTimes, cutoff) == Prune(old(recentRequestTimes) + [now], cutoff)
        invariant View() == old(View()).(total := old(totalRequests) + 1, active := old(activeRequests) + 1,
                                         recent := recentRequestTimes)
        decreases |recentRequestTimes|
      {
        recentRequestTimes := recentRequestTimes[1..];
      }
    }

    method Command(name: string)
      modifies this`commandCounts
      ensures View() == RecordCommand(old(View()), name)
    {
      commandCounts := commandCounts[name := (if name in commandCounts then commandCounts[name] else 0) + 1];
    }

    method Response(success: bool, durationMs: int)
      modifies this
      ensures View() == RecordResponse(old(View()), success, durationMs)
    {
      if activeRequests > 0 { activeRequests := activeRequests - 1; }
      if !success { totalErrors := totalErrors + 1; }
      totalLatencyMs := totalLatencyMs + durationMs;
      latencyCount := latencyCount + 1;
    }

    method ErrorRate() returns (percent: int)
      ensures percent >= 0
      ensures totalRequests == 0 ==> percent == 0
      ensures totalRequests > 0 ==> percent * totalRequests <= 100 * totalErrors < (percent + 1) * totalRequests
      ensures percent == ErrorRatePercent(View())
    {
      percent := if totalRequests > 0 then totalErrors * 100 / totalRequests else 0;
      if totalRequests > 0 {
        RoundedDown(totalErrors * 100, totalRequests);
      }
    }
  }
}
