/** The restart limiter of the watchdog: a pruned list of timestamps per subsystem. */
module Watchdog {

  const RESTART_WINDOW: real := 3600.0
  const MAX_RESTARTS: nat := 3

  /** The timestamps less than a window before now. */
  function Recent(ts: seq<real>, now: real): (r: seq<real>)
    ensures |r| <= |ts|
  {
    if ts == [] then []
    else
      var t := ts[|ts| - 1];
      Recent(ts[..|ts| - 1], now) + if now - t < RESTART_WINDOW then [t] else []
  }

  function Stored(counts: map<string, seq<real>>, name: string): seq<real> {
    if name in counts then counts[name] else []
  }

  /** Whether an attempt recorded now is within the limit. */
  predicate Grants(counts: map<string, seq<real>>, name: string, now: real) {
    |Recent(Stored(counts, name), now)| < MAX_RESTARTS
  }

  function Record(counts: map<string, seq<real>>, name: string, now: real): map<string, seq<real>> {
    var kept := Recent(Stored(counts, name), now);
    counts[name := if Grants(counts, name, now) then kept + [now] else kept]
  }

  // ---------- Runs ----------

  datatype Call = Call(name: string, now: real)

  function Run(calls: seq<Call>): map<string, seq<real>> {
    if calls == [] then map[]
    else
      var c := calls[|calls| - 1];
      Record(Run(calls[..|calls| - 1]), c.name, c.now)
  }

  /** The times at which restarts of one subsystem were really attempted; nothing is ever pruned here. */
  function Attempts(calls: seq<Call>, name: string): seq<real> {
    if calls == [] then []
    else
      var front, c := calls[..|calls| - 1], calls[|calls| - 1];
      Attempts(front, name) + if c.name == name && Grants(Run(front), name, c.now) then [c.now] else []
  }

  /** No call for this subsystem reads a time more than d before an earlier one; what the clock shows to
      other subsystems does not matter. */
  predicate BackAtMost(calls: seq<Call>, name: string, d: real) {
    forall i, j :: 0 <= i < j < |calls| && calls[i].name == name && calls[j].name == name ==>
      calls[i].now <= calls[j].now + d
  }

  predicate ClockNeverGoesBack(calls: seq<Call>, name: string) {
    BackAtMost(calls, name, 0.0)
  }

  /** Pruning these attempts at a reading drops one that is recent now. */
  predicate Loses(past: seq<real>, reading: real, now: real) {
    exists t :: t in past && now - t < RESTART_WINDOW <= reading - t
  }

  /** Some call for this subsystem read the clock a window or more past an attempt that is recent now. */
  predicate Skipped(calls: seq<Call>, name: string, now: real) {
    calls != [] &&
    var front, c := calls[..|calls| - 1], calls[|calls| - 1];
    Skipped(front, name, now) || (c.name == name && Loses(Attempts(front, name), c.now, now))
  }

  /** The attempts in the half-open window of one hour from w on. */
  function InWindow(ts: seq<real>, w: real): seq<real> {
    if ts == [] then []
    else
      var t := ts[|ts| - 1];
      InWindow(ts[..|ts| - 1], w) + if w <= t < w + RESTART_WINDOW then [t] else []
  }

  lemma RecentSnoc(ts: seq<real>, t: real, now: real)
    ensures Recent(ts + [t], now) == if now - t < RESTART_WINDOW then Recent(ts, now) + [t] else Recent(ts, now)
  {
    assert (ts + [t])[..|ts|] == ts;
  }

  lemma RunOne(front: seq<Call>, c: Call, name: string)
    ensures Run(front + [c]) == Record(Run(front), c.name, c.now)
    ensures c.name == name ==>
      var kept := Recent(Stored(Run(front), name), c.now);
      Stored(Run(front + [c]), name) == if |kept| < MAX_RESTARTS then kept + [c.now] else kept
    ensures c.name != name ==> Stored(Run(front + [c]), name) == Stored(Run(front), name)
    ensures Attempts(front + [c], name)
      == if c.name == name && Grants(Run(front), name, c.now) then Attempts(front, name) + [c.now]
         else Attempts(front, name)
  {
    hide Recent;
    assert (front + [c])[..|front|] == front;
  }

  lemma {:induction false} RecentMembers(ts: seq<real>, now: real)
    ensures forall t :: t in Recent(ts, now) <==> t in ts && now - t < RESTART_WINDOW
  {
    if ts == [] {
    } else {
      var front, t := ts[..|ts| - 1], ts[|ts| - 1];
      RecentMembers(front, now);
      hide Recent;
      assert ts == front + [t];
      RecentSnoc(front, t, now);
    }
  }

  lemma RecentOfNone(now: real)
    ensures Recent([], now) == []
  {}

  lemma {:induction false} RecentKeepsAll(ts: seq<real>, now: real)
    ensures Recent(ts, now) == ts <==> forall t :: t in ts ==> now - t < RESTART_WINDOW
  {
    hide Recent;
    RecentMembers(ts, now);
    if ts == [] {
      RecentOfNone(now);
    } else if forall t :: t in ts ==> now - t < RESTART_WINDOW {
      var front, t := ts[..|ts| - 1], ts[|ts| - 1];
      assert forall x :: x in front ==> x in ts;
      RecentKeepsAll(front, now);
      assert t in ts && ts == front + [t];
      RecentSnoc(front, t, now);
    }
  }

  // The order in which two prunings happen does not matter
  lemma {:induction false} RecentCommutes(ts: seq<real>, x: real, y: real)
    ensures Recent(Recent(ts, x), y) == Recent(Recent(ts, y), x)
  {
    if ts == [] {
    } else {
      var front, t := ts[..|ts| - 1], ts[|ts| - 1];
      hide Recent;
      RecentCommutes(front, x, y);
      assert ts == front + [t];
      RecentSnoc(front, t, x);
      RecentSnoc(front, t, y);
      RecentSnoc(Recent(front, x), t, y);
      RecentSnoc(Recent(front, y), t, x);
    }
  }

  lemma SkippedSnoc(front: seq<Call>, c: Call, name: string, now: real)
    ensures Skipped(front + [c], name, now)
      == (Skipped(front, name, now) || (c.name == name && Loses(Attempts(front, name), c.now, now)))
  {
    hide Attempts, Loses;
    assert (front + [c])[..|front|] == front;
  }

  // Pruning a list at one more reading: skipped says whether the list had lost something before
  lemma PruneOnceMore(stored: seq<real>, past: seq<real>, reading: real, now: real, skipped: bool)
    requires Recent(stored, now) == Recent(past, now) <==> !skipped
    requires skipped ==> |Recent(stored, now)| < |Recent(past, now)|
    ensures var loses := Loses(past, reading, now);
      var pruned := Recent(stored, reading);
      && (Recent(pruned, now) == Recent(past, now) <==> !skipped && !loses)
      && (skipped || loses ==> |Recent(pruned, now)| < |Recent(past, now)|)
  {
    hide Recent;
    RecentCommutes(stored, reading, now);
    if !skipped {
      RecentMembers(past, now);
      RecentKeepsAll(Recent(past, now), reading);
      ShorterIfChanged(Recent(past, now), reading);
    }
  }

  lemma {:induction false} ShorterIfChanged(ts: seq<real>, now: real)
    ensures Recent(ts, now) != ts ==> |Recent(ts, now)| < |ts|
  {
    if ts == [] {
    } else {
      ShorterIfChanged(ts[..|ts| - 1], now);
      assert ts == ts[..|ts| - 1] + [ts[|ts| - 1]];
    }
  }

  /** Whatever the clock does, the pruned list and the full history agree on what is recent exactly when no
      call skipped ahead; otherwise the list knows of fewer recent attempts. */
  lemma {:induction false} PrunedListIsFaithful(calls: seq<Call>, name: string, now: real)
    ensures Recent(Stored(Run(calls), name), now) == Recent(Attempts(calls, name), now)
      <==> !Skipped(calls, name, now)
    ensures Skipped(calls, name, now) ==>
      |Recent(Stored(Run(calls), name), now)| < |Recent(Attempts(calls, name), now)|
  {
    if calls == [] {
      assert Stored(Run([]), name) == [] && Attempts([], name) == [];
      assert !Skipped([], name, now);
    } else {
      var front, c := calls[..|calls| - 1], calls[|calls| - 1];
      hide Recent, Run, Attempts, Skipped, Record, Stored, Loses;
      PrunedListIsFaithful(front, name, now);
      assert calls == front + [c];
      RunOne(front, c, name);
      SkippedSnoc(front, c, name, now);
      if c.name == name {
        var stored, past := Stored(Run(front), name), Attempts(front, name);
        PruneOnceMore(stored, past, c.now, now, Skipped(front, name, now));
        RecentSnoc(Recent(stored, c.now), c.now, now);
        RecentSnoc(past, c.now, now);
      }
    }
  }

  // A clock that never goes back cannot have skipped anything that is still recent
  lemma {:induction false} NothingSkipped(calls: seq<Call>, name: string, now: real)
    requires forall c :: c in calls && c.name == name ==> c.now <= now
    ensures !Skipped(calls, name, now)
  {
    if calls == [] {
    } else {
      NothingSkipped(calls[..|calls| - 1], name, now);
      assert calls[|calls| - 1] in calls;
    }
  }

  lemma ReadingsBefore(calls: seq<Call>, c: Call)
    requires ClockNeverGoesBack(calls + [c], c.name)
    ensures forall b :: b in calls && b.name == c.name ==> b.now <= c.now
    ensures ClockNeverGoesBack(calls, c.name)
  {
    var all := calls + [c];
    assert all[|calls|] == c;
    assert forall i :: 0 <= i < |calls| ==> all[i] == calls[i];
  }

  /** Whatever the clock does, an attempt is refused only when as many attempts as allowed really lie
      within the last window; and exactly then if no call skipped ahead. */
  lemma RefusedOnlyWhenFull(calls: seq<Call>, name: string, now: real)
    ensures !Grants(Run(calls), name, now) ==> |Recent(Attempts(calls, name), now)| >= MAX_RESTARTS
    ensures !Skipped(calls, name, now) ==>
      (Grants(Run(calls), name, now) <==> |Recent(Attempts(calls, name), now)| < MAX_RESTARTS)
      && |Recent(Attempts(calls, name), now)| <= MAX_RESTARTS
  {
    PrunedListIsFaithful(calls, name, now);
    StoredWithinLimit(calls, name);
  }

  lemma {:induction false} StoredWithinLimit(calls: seq<Call>, name: string)
    ensures |Stored(Run(calls), name)| <= MAX_RESTARTS
  {
    if calls == [] {
    } else {
      StoredWithinLimit(calls[..|calls| - 1], name);
    }
  }

  lemma WindowSnoc(ts: seq<real>, t: real, w: real)
    ensures InWindow(ts + [t], w) == if w <= t < w + RESTART_WINDOW then InWindow(ts, w) + [t] else InWindow(ts, w)
  {
    assert (ts + [t])[..|ts|] == ts;
  }

  // Whatever shares a window with now is recent at now
  lemma {:induction false} WindowIsRecent(ts: seq<real>, w: real, now: real)
    requires now < w + RESTART_WINDOW
    ensures |InWindow(ts, w)| <= |Recent(ts, now)|
  {
    if ts == [] {
    } else {
      WindowIsRecent(ts[..|ts| - 1], w, now);
    }
  }

  /** No granted attempt of this subsystem was skipped ahead of at its own reading. */
  predicate NoGrantSkipped(calls: seq<Call>, name: string) {
    calls != [] ==>
      var front, c := calls[..|calls| - 1], calls[|calls| - 1];
      && NoGrantSkipped(front, name)
      && (c.name == name && Grants(Run(front), name, c.now) ==> !Skipped(front, name, c.now))
  }

  /** Over any run and whatever the clock does, in every window of one hour no subsystem is restarted more
      than three times, unless a granted attempt was skipped ahead of. */
  lemma {:induction false} EveryWindowIsBounded(calls: seq<Call>, name: string, w: real)
    requires NoGrantSkipped(calls, name)
    ensures |InWindow(Attempts(calls, name), w)| <= MAX_RESTARTS
  {
    if calls == [] {
    } else {
      var front, c := calls[..|calls| - 1], calls[|calls| - 1];
      EveryWindowIsBounded(front, name, w);
      hide Run, Attempts, Recent, InWindow, Skipped;
      assert calls == front + [c];
      RunOne(front, c, name);
      if c.name == name && Grants(Run(front), name, c.now) {
        var ts := Attempts(front, name);
        WindowSnoc(ts, c.now, w);
        if w <= c.now < w + RESTART_WINDOW {
          PrunedListIsFaithful(front, name, c.now);
          WindowIsRecent(ts, w, c.now);
        }
      }
    }
  }

  /** A subsystem whose own readings never go back is never skipped ahead of. */
  lemma {:induction false} SteadyClockSkipsNothing(calls: seq<Call>, name: string)
    requires ClockNeverGoesBack(calls, name)
    ensures NoGrantSkipped(calls, name)
  {
    if calls == [] {
    } else {
      var front, c := calls[..|calls| - 1], calls[|calls| - 1];
      hide Run, Grants, Skipped;
      SteadyClockSkipsNothing(front, name);
      assert calls == front + [c];
      if c.name == name {
        ReadingsBefore(front, c);
        NothingSkipped(front, name, c.now);
      }
    }
  }

  // ---------- The bound without windows ----------

  predicate Ascending(ts: seq<real>) {
    forall i, j :: 0 <= i < j < |ts| ==> ts[i] <= ts[j]
  }

  lemma {:induction false} AttemptsAreCalls(calls: seq<Call>, name: string, t: real)
    requires t in Attempts(calls, name)
    ensures exists c :: c in calls && c.name == name && c.now == t
  {
    if calls == [] {
    } else {
      var front, c := calls[..|calls| - 1], calls[|calls| - 1];
      if t in Attempts(front, name) {
        AttemptsAreCalls(front, name, t);
        var b :| b in front && b.name == name && b.now == t;
        assert b in calls;
      } else {
        assert c in calls;
      }
    }
  }

  lemma {:induction false} AttemptsAscend(calls: seq<Call>, name: string)
    requires ClockNeverGoesBack(calls, name)
    ensures Ascending(Attempts(calls, name))
  {
    if calls == [] {
    } else {
      var front, c := calls[..|calls| - 1], calls[|calls| - 1];
      hide Run, Grants, Recent, Record, Stored;
      AttemptsAscend(front, name);
      if c.name == name {
        assert calls == front + [c];
        hide Attempts, BackAtMost;
        ReadingsBefore(front, c);
        forall t | t in Attempts(front, name)
          ensures t <= c.now
        {
          AttemptsAreCalls(front, name, t);
        }
        OneLater(Attempts(front, name), c.now);
        RunOne(front, c, name);
      }
    }
  }

  lemma OneLater(ts: seq<real>, now: real)
    requires Ascending(ts) && forall t :: t in ts ==> t <= now
    ensures Ascending(ts + [now])
  {
    var all := ts + [now];
    forall i, j | 0 <= i < j < |all|
      ensures all[i] <= all[j]
    {
      assert all[i] == ts[i] && ts[i] in ts;
    }
  }

  lemma EmptyWindow(w: real)
    ensures InWindow([], w) == []
  {}

  lemma {:induction false} WindowAppend(x: seq<real>, y: seq<real>, w: real)
    ensures InWindow(x + y, w) == InWindow(x, w) + InWindow(y, w)
  {
    hide InWindow;
    if y == [] {
      EmptyWindow(w);
      assert x + y == x;
    } else {
      var front, t := y[..|y| - 1], y[|y| - 1];
      WindowAppend(x, front, w);
      assert x + y == (x + front) + [t] && y == front + [t];
      WindowSnoc(x + front, t, w);
      WindowSnoc(front, t, w);
    }
  }

  lemma FourInOneWindow(ts: seq<real>, i: nat)
    requires Ascending(ts) && i + 3 < |ts| && ts[i + 3] - ts[i] < RESTART_WINDOW
    ensures |InWindow(ts, ts[i])| >= 4
  {
    var before, four, after := ts[..i], ts[i..i + 4], ts[i + 4..];
    var w := ts[i];
    assert ts == (before + four) + after;
    WindowAppend(before, four, w);
    WindowAppend(before + four, after, w);
    assert four == [ts[i], ts[i + 1], ts[i + 2], ts[i + 3]];
    WindowMembers(four, w);
  }

  /** While a subsystem's readings never go back, any four of its attempts in a row span at least 3600 seconds. */
  lemma FourAttemptsSpanAnHour(calls: seq<Call>, name: string, i: nat)
    requires ClockNeverGoesBack(calls, name) && i + 3 < |Attempts(calls, name)|
    ensures Attempts(calls, name)[i + 3] - Attempts(calls, name)[i] >= 3600.0
  {
    hide Attempts, InWindow, NoGrantSkipped, Ascending, BackAtMost;
    var ts := Attempts(calls, name);
    AttemptsAscend(calls, name);
    SteadyClockSkipsNothing(calls, name);
    EveryWindowIsBounded(calls, name, ts[i]);
    if ts[i + 3] - ts[i] < RESTART_WINDOW {
      FourInOneWindow(ts, i);
    }
  }

  // ---------- What a clock that goes back does ----------

  // One call on a known list and history
  lemma KnownStep(front: seq<Call>, c: Call, stored: seq<real>, past: seq<real>)
    requires Stored(Run(front), c.name) == stored && Attempts(front, c.name) == past
    ensures var kept, calls := Recent(stored, c.now), front + [c];
      |kept| < MAX_RESTARTS ==> Stored(Run(calls), c.name) == kept + [c.now] && Attempts(calls, c.name) == past + [c.now]
  {
    hide Run, Attempts, Recent;
    RunOne(front, c, c.name);
  }

  const ZEROS: seq<real> := [0.0, 0.0, 0.0]

  lemma ThreeRestartsAtOnce(name: string)
    ensures var calls := [Call(name, 0.0), Call(name, 0.0), Call(name, 0.0)];
      Stored(Run(calls), name) == ZEROS && Attempts(calls, name) == ZEROS
  {
    var a := Call(name, 0.0);
    assert [] + [a] == [a] && [a] + [a] == [a, a] && [a, a] + [a] == [a, a, a];
    assert [] + [0.0] == [0.0] && [0.0] + [0.0] == [0.0, 0.0] && [0.0, 0.0] + [0.0] == ZEROS;
    RecentKeepsAll([], 0.0);
    RecentKeepsAll([0.0], 0.0);
    RecentKeepsAll([0.0, 0.0], 0.0);
    assert Stored(Run([]), name) == [] && Attempts([], name) == [];
    hide Run, Attempts, Recent;
    KnownStep([], a, [], []);
    KnownStep([a], a, [0.0], [0.0]);
    KnownStep([a, a], a, [0.0, 0.0], [0.0, 0.0]);
  }

  /** Three restarts at once and, a window later, a fourth. */
  function FourRestarts(name: string): seq<Call> {
    [Call(name, 0.0), Call(name, 0.0), Call(name, 0.0)] + [Call(name, RESTART_WINDOW)]
  }

  lemma OldZerosPruned()
    ensures Recent(ZEROS, RESTART_WINDOW) == []
  {
    assert Recent([], RESTART_WINDOW) == [];
    hide Recent;
    RecentSnoc([], 0.0, RESTART_WINDOW);
    RecentSnoc([0.0], 0.0, RESTART_WINDOW);
    RecentSnoc([0.0, 0.0], 0.0, RESTART_WINDOW);
    assert [] + [0.0] == [0.0] && [0.0] + [0.0] == [0.0, 0.0] && [0.0, 0.0] + [0.0] == ZEROS;
  }

  lemma ThenOneWindowLater(name: string)
    ensures Stored(Run(FourRestarts(name)), name) == [RESTART_WINDOW]
    ensures Attempts(FourRestarts(name), name) == ZEROS + [RESTART_WINDOW]
  {
    hide Run, Attempts, Recent;
    ThreeRestartsAtOnce(name);
    OldZerosPruned();
    KnownStep([Call(name, 0.0), Call(name, 0.0), Call(name, 0.0)], Call(name, RESTART_WINDOW), ZEROS, ZEROS);
  }

  /** However little the clock goes back after that, the fourth restart has pruned three that are recent
      again: one more is granted although the window holds all it may, and then it holds four. */
  lemma ClockGoingBackBreaksBound(name: string, e: real)
    requires 0.0 < e <= RESTART_WINDOW
    ensures var calls, now := FourRestarts(name), RESTART_WINDOW - e;
      && BackAtMost(calls + [Call(name, now)], name, e)
      && Grants(Run(calls), name, now) && |Recent(Attempts(calls, name), now)| >= MAX_RESTARTS
      && |InWindow(Attempts(calls + [Call(name, now)], name), 0.0)| == 4
  {
    hide Run, Attempts, Recent, InWindow;
    var calls, now := FourRestarts(name), RESTART_WINDOW - e;
    ThenOneWindowLater(name);
    RecentKeepsAll([RESTART_WINDOW], now);
    RecentKeepsAll(ZEROS, now);
    RecentSnoc(ZEROS, RESTART_WINDOW, now);
    KnownStep(calls, Call(name, now), [RESTART_WINDOW], ZEROS + [RESTART_WINDOW]);
    WindowMembers(ZEROS, 0.0);
    WindowSnoc(ZEROS, RESTART_WINDOW, 0.0);
    WindowSnoc(ZEROS + [RESTART_WINDOW], now, 0.0);
  }

  lemma {:induction false} WindowMembers(ts: seq<real>, w: real)
    ensures (forall t :: t in ts ==> w <= t < w + RESTART_WINDOW) ==> InWindow(ts, w) == ts
  {
    if ts == [] {
    } else {
      var front, t := ts[..|ts| - 1], ts[|ts| - 1];
      WindowMembers(front, w);
      assert forall x :: x in front ==> x in ts;
      hide InWindow;
      assert t in ts && ts == front + [t];
      WindowSnoc(front, t, w);
    }
  }

  /** The hourly bound holds in every run whose clock goes back by at most d if and only if d is 0. */
  lemma WindowsBoundedIffClockNeverGoesBack(d: real)
    requires d >= 0.0
    ensures (forall calls, name, w ::
               BackAtMost(calls, name, d) ==> |InWindow(Attempts(calls, name), w)| <= MAX_RESTARTS)
      <==> d == 0.0
  {
    hide Attempts, InWindow, Run;
    if d == 0.0 {
      forall calls, name, w | BackAtMost(calls, name, d)
        ensures |InWindow(Attempts(calls, name), w)| <= MAX_RESTARTS
      {
        SteadyClockSkipsNothing(calls, name);
        EveryWindowIsBounded(calls, name, w);
      }
    } else {
      var e := if d < 1.0 then d else 1.0;
      ClockGoingBackBreaksBound("", e);
      assert BackAtMost(FourRestarts("") + [Call("", RESTART_WINDOW - e)], "", d);
    }
  }

  /** Attempts are refused exactly when the window is full, in every run whose clock goes back by at most d,
      if and only if d is 0. */
  lemma RefusalsExactIffClockNeverGoesBack(d: real)
    requires d >= 0.0
    ensures (forall calls, name, now :: BackAtMost(calls + [Call(name, now)], name, d) ==>
               (Grants(Run(calls), name, now) <==> |Recent(Attempts(calls, name), now)| < MAX_RESTARTS))
      <==> d == 0.0
  {
    hide Attempts, InWindow, Run, Recent, Grants;
    if d == 0.0 {
      forall calls, name, now | BackAtMost(calls + [Call(name, now)], name, d)
        ensures Grants(Run(calls), name, now) <==> |Recent(Attempts(calls, name), now)| < MAX_RESTARTS
      {
        ReadingsBefore(calls, Call(name, now));
        NothingSkipped(calls, name, now);
        RefusedOnlyWhenFull(calls, name, now);
      }
    } else {
      var e := if d < 1.0 then d else 1.0;
      ClockGoingBackBreaksBound("", e);
      assert BackAtMost(FourRestarts("") + [Call("", RESTART_WINDOW - e)], "", d);
    }
  }

  // ---------- The imperative code ----------

  /** What one look at a subsystem finds; now is the clock if the restart has to be recorded. */
  datatype Probe = Probe(name: string, running: bool, foundByPattern: bool, now: real)

  function Crashed(probes: seq<Probe>): seq<Call> {
    if probes == [] then []
    else
      var p := probes[|probes| - 1];
      Crashed(probes[..|probes| - 1]) + if !p.running && !p.foundByPattern then [Call(p.name, p.now)] else []
  }

  /** A restart is asked for exactly for the subsystems that are neither running nor found by pattern. */
  lemma {:induction false} CrashedExactly(probes: seq<Probe>, c: Call)
    ensures c in Crashed(probes)
      <==> exists p :: p in probes && !p.running && !p.foundByPattern && c == Call(p.name, p.now)
  {
    if probes == [] {
    } else {
      var front, last := probes[..|probes| - 1], probes[|probes| - 1];
      CrashedExactly(front, c);
      CrashedNext(front, last);
      assert probes == front + [last];
      hide Crashed;
      assert forall p :: p in probes <==> p in front || p == last;
    }
  }

  /** One for each look, in the order of the looks. */
  lemma CrashedNext(probes: seq<Probe>, p: Probe)
    ensures Crashed([]) == []
    ensures p.running || p.foundByPattern ==> Crashed(probes + [p]) == Crashed(probes)
    ensures !p.running && !p.foundByPattern ==> Crashed(probes + [p]) == Crashed(probes) + [Call(p.name, p.now)]
  {
    assert (probes + [p])[..|probes|] == probes;
  }

  class Watchdog {
    var restartCounts: map<string, seq<real>>
    ghost var calls: seq<Call>

    ghost predicate Valid()
      reads this
    {
      restartCounts == Run(calls)
    }

    constructor ()
      ensures Valid() && calls == []
    {
      restartCounts := map[];
      calls := [];
    }

    method RecordRestart(name: string, now: real) returns (ok: bool)
      requires Valid()
      modifies this
      ensures Valid() && calls == old(calls) + [Call(name, now)]
      ensures ok <==> Attempts(calls, name) == Attempts(old(calls), name) + [now]
      ensures !ok ==> Attempts(calls, name) == Attempts(old(calls), name)
    {
      hide Run, Attempts, Recent;
      RunOne(calls, Call(name, now), name);
      calls := calls + [Call(name, now)];
      if name !in restartCounts {
        restartCounts := restartCounts[name := []];
      }
      restartCounts := restartCounts[name := Recent(restartCounts[name], now)];
      if |restartCounts[name]| >= MAX_RESTARTS {
        return false;
      }
      restartCounts := restartCounts[name := restartCounts[name] + [now]];
      return true;
    }

    /** One round over all subsystems: exactly the granted restarts are started. */
    method CheckAndRestart(probes: seq<Probe>) returns (started: seq<Call>)
      requires Valid()
      modifies this
      ensures Valid() && calls == old(calls) + Crashed(probes)
      ensures forall name :: Attempts(calls, name) == Attempts(old(calls), name) + Times(started, name)
    {
      hide Run, Attempts, Times;
      started := [];
      NoTimes();
      for i := 0 to |probes|
        invariant Valid() && calls == old(calls) + Crashed(probes[..i])
        invariant forall name :: Attempts(calls, name) == Attempts(old(calls), name) + Times(started, name)
      {
        var p := probes[i];
        assert probes[..i + 1][..i] == probes[..i];
        if p.running {
          continue;
        }
        if p.foundByPattern {
          continue;
        }
        ghost var before := calls;
        var ok := RecordRestart(p.name, p.now);
        OthersUntouched(before, Call(p.name, p.now));
        if ok {
          TimesSnoc(started, Call(p.name, p.now));
          started := started + [Call(p.name, p.now)];
        }
      }
      assert probes[..|probes|] == probes;
    }
  }

  /** The times of the calls for one subsystem. */
  function Times(cs: seq<Call>, name: string): seq<real> {
    if cs == [] then []
    else
      var c := cs[|cs| - 1];
      Times(cs[..|cs| - 1], name) + if c.name == name then [c.now] else []
  }

  lemma NoTimes()
    ensures forall name :: Times([], name) == []
  {}

  lemma TimesSnoc(cs: seq<Call>, c: Call)
    ensures forall name :: Times(cs + [c], name) == if c.name == name then Times(cs, name) + [c.now] else Times(cs, name)
  {
    assert (cs + [c])[..|cs|] == cs;
  }

  lemma OthersUntouched(calls: seq<Call>, c: Call)
    ensures forall name :: name != c.name ==> Attempts(calls + [c], name) == Attempts(calls, name)
  {
    forall name | name != c.name
      ensures Attempts(calls + [c], name) == Attempts(calls, name)
    {
      RunOne(calls, c, name);
    }
  }
}
