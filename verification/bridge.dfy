/** The bridge: one event queue, one DEFCON aggregator, and the exported calls on them. */
module Bridge {
  import opened Bytes
  import opened RingBuffer

  const QUEUE_CAPACITY: u32 := 8192

  /** The fields of an event the parser writes; addresses and ports are kept as the raw wire bytes. */
  datatype IpcEvent = IpcEvent(
    eventType: u32, sourceIp: seq<byte>, destIp: seq<byte>, sourcePort: seq<byte>, destPort: seq<byte>,
    protocol: byte, direction: byte, layerId: byte, tierResult: byte,
    payloadLength: u32, ruleId: u32, severity: u32, timestamp: u64)

  const ZERO_IPC: IpcEvent := IpcEvent(0, [], [], [], [], 0, 0, 0, 0, 0, 0, 0, 0)

  // ---------- The DEFCON level ----------

  datatype Counters = Counters(critical: u32, blocked: u32, kernel: u32, total: u32)

  const NO_COUNTS: Counters := Counters(0, 0, 0, 0)

  function Level(c: Counters): (level: byte)
    ensures 1 <= level <= 5
  {
    if c.kernel > 0 || c.critical >= 10 || c.blocked >= 5 then 1
    else if c.critical >= 5 || c.blocked >= 3 then 2
    else if c.total >= 5 || c.critical >= 1 then 3
    else if c.total >= 1 then 4
    else 5
  }

  predicate AtMost(c: Counters, d: Counters) {
    c.critical <= d.critical && c.blocked <= d.blocked && c.kernel <= d.kernel && c.total <= d.total
  }

  /** More of anything never makes the situation look safer. */
  lemma LevelMonotone(c: Counters, d: Counters)
    requires AtMost(c, d)
    ensures Level(d) <= Level(c)
  {}

  /** Level 4 is for one to four alerts with nothing else to go by, though it is described as "1-5 alerts". */
  lemma LevelFourExactly(c: Counters)
    ensures Level(c) == 4 <==> c.kernel == 0 && c.critical == 0 && c.blocked < 3 && 1 <= c.total <= 4
  {}

  /** The other four levels, each with its own condition. */
  lemma OtherLevelsExactly(c: Counters)
    ensures Level(c) == 1 <==> c.kernel > 0 || c.critical >= 10 || c.blocked >= 5
    ensures Level(c) == 2 <==> c.kernel == 0 && c.critical < 10 && c.blocked < 5 && (c.critical >= 5 || c.blocked >= 3)
    ensures Level(c) == 3 <==>
      c.kernel == 0 && c.critical < 5 && c.blocked < 3 && (c.critical >= 1 || c.total >= 5)
    ensures Level(c) == 5 <==> c == Counters(0, c.blocked, 0, 0) && c.blocked < 3
  {}

  /** Five alerts alone give level 3. */
  lemma FiveAlertsGiveThree()
    ensures Level(Counters(0, 0, 0, 5)) == 3 && Level(Counters(0, 0, 0, 4)) == 4
  {}

  class DefconAggregator {
    var currentLevel: byte
    var criticalCount: u32
    var blockedIpCount: u32
    var kernelThreatCount: u32
    var totalAlerts: u32

    function Counts(): Counters
      reads this
    {
      Counters(criticalCount, blockedIpCount, kernelThreatCount, totalAlerts)
    }

    constructor ()
      ensures Counts() == NO_COUNTS && currentLevel == 5
    {
      currentLevel := 5;
      criticalCount, blockedIpCount, kernelThreatCount, totalAlerts := 0, 0, 0, 0;
    }

    method Calculate() returns (level: byte)
      modifies this`currentLevel
      ensures level == currentLevel == Level(Counts())
    {
      if kernelThreatCount > 0 || criticalCount >= 10 || blockedIpCount >= 5 {
        currentLevel := 1;
      } else if criticalCount >= 5 || blockedIpCount >= 3 {
        currentLevel := 2;
      } else if totalAlerts >= 5 || criticalCount >= 1 {
        currentLevel := 3;
      } else if totalAlerts >= 1 {
        currentLevel := 4;
      } else {
        currentLevel := 5;
      }
      return currentLevel;
    }

    method SetCounts(critical: u32, blocked: u32, kernel: u32, total: u32)
      modifies this`criticalCount, this`blockedIpCount, this`kernelThreatCount, this`totalAlerts
      ensures Counts() == Counters(critical, blocked, kernel, total)
    {
      criticalCount, blockedIpCount, kernelThreatCount, totalAlerts := critical, blocked, kernel, total;
    }
  }

  // ---------- The exported calls, as steps on values ----------

  /** queue and dropped mean something only while initialized. */
  datatype State = State(initialized: bool, queue: seq<IpcEvent>, dropped: u32, counts: Counters, level: byte)

  const START: State := State(false, [], 0, NO_COUNTS, 5)

  datatype Op =
    | Init
    | Shutdown
    | Push(ev: IpcEvent)
    | Pop
    | Update(given: Counters)
    | GetDefcon

  function Plus(n: u32, more: bool): u32 {
    if more then (n + 1) as int % TWO_32 else n
  }

  predicate IsCritical(ev: IpcEvent) { ev.severity >= 3 }

  predicate AnyEvent(ev: IpcEvent) { true }

  predicate IsKernel(ev: IpcEvent) { ev.tierResult == 3 }

  function CountEvent(c: Counters, ev: IpcEvent): Counters {
    Counters(Plus(c.critical, IsCritical(ev)), c.blocked, Plus(c.kernel, IsKernel(ev)), Plus(c.total, true))
  }

  predicate Accepts(s: State) {
    s.initialized && |s.queue| < QUEUE_CAPACITY
  }

  function Step(s: State, op: Op): State {
    match op
    case Init => if s.initialized then s else State(true, [], 0, NO_COUNTS, s.level)
    case Shutdown => if s.initialized then s.(initialized := false, queue := [], dropped := 0) else s
    case Push(ev) =>
      if !s.initialized then s
      else if |s.queue| >= QUEUE_CAPACITY then s.(dropped := Plus(s.dropped, true))
      else
        var c := CountEvent(s.counts, ev);
        s.(queue := s.queue + [ev], counts := c, level := Level(c))
    case Pop => if s.initialized && s.queue != [] then s.(queue := s.queue[1..]) else s
    case Update(given) => if s.initialized then s.(counts := given, level := Level(given)) else s
    case GetDefcon => if s.initialized then s.(level := Level(s.counts)) else s
  }

  function Run(ops: seq<Op>): State {
    if ops == [] then START else Step(Run(ops[..|ops| - 1]), ops[|ops| - 1])
  }

  class Bridge {
    var queue: SharedRingBuffer<IpcEvent>
    var defcon: DefconAggregator
    var initialized: bool

    ghost predicate Valid()
      reads this, queue, queue.buffer, defcon
    {
      && queue.Valid()
      && (initialized ==> queue.buffer != null && queue.capacity == QUEUE_CAPACITY)
    }

    ghost function Value(): State
      requires Valid()
      reads this, queue, queue.buffer, defcon
    {
      State(initialized, if initialized then queue.Contents() else [], if initialized then queue.dropped else 0,
            defcon.Counts(), defcon.currentLevel)
    }

    constructor ()
      ensures Valid() && Value() == START
      ensures fresh(queue) && fresh(defcon)
    {
      queue := new SharedRingBuffer<IpcEvent>();
      defcon := new DefconAggregator();
      initialized := false;
    }

    method Init() returns (rc: int)
      requires Valid()
      modifies this`initialized, queue, defcon
      ensures Valid() && Value() == Step(old(Value()), Op.Init) && rc == 0
    {
      if initialized {
        return 0;
      }
      queue.Initialize(QUEUE_CAPACITY);
      defcon.SetCounts(0, 0, 0, 0);
      initialized := true;
      return 0;
    }

    method Shutdown() returns (rc: int)
      requires Valid()
      modifies this`initialized, queue
      ensures Valid() && Value() == Step(old(Value()), Op.Shutdown) && rc == 0
    {
      if !initialized {
        return 0;
      }
      queue.Destroy();
      initialized := false;
      return 0;
    }

    method PushEvent(ev: IpcEvent) returns (rc: int)
      requires Valid()
      modifies queue, queue.buffer, defcon
      ensures Valid() && Value() == Step(old(Value()), Push(ev))
      ensures rc == if !initialized then -1 else if Accepts(old(Value())) then 0 else -2
    {
      if !initialized {
        return -1;
      }
      var ok := queue.Push(ev);
      if !ok {
        return -2;
      }
      var total := (defcon.totalAlerts as int + 1) % TWO_32;
      var critical := (defcon.criticalCount as int + if ev.severity >= 3 then 1 else 0) % TWO_32;
      var kernel := (defcon.kernelThreatCount as int + if ev.tierResult == 3 then 1 else 0) % TWO_32;
      var blocked := defcon.blockedIpCount;
      defcon.SetCounts(critical, blocked, kernel, total);
      var _ := defcon.Calculate();
      return 0;
    }

    method PopEvent(into: IpcEvent) returns (rc: int, ev: IpcEvent)
      requires Valid()
      modifies queue
      ensures Valid() && Value() == Step(old(Value()), Op.Pop)
      ensures rc == if !initialized then -1 else if old(Value()).queue == [] then -2 else 0
      ensures ev == if rc == 0 then old(Value()).queue[0] else into
    {
      if !initialized {
        return -1, into;
      }
      var ok;
      ok, ev := queue.Pop(into);
      return if ok then 0 else -2, ev;
    }

    method UpdateDefcon(critical: u32, blocked: u32, kernel: u32, total: u32)
      requires Valid()
      modifies defcon
      ensures Valid() && Value() == Step(old(Value()), Update(Counters(critical, blocked, kernel, total)))
    {
      if !initialized {
        return;
      }
      defcon.SetCounts(critical, blocked, kernel, total);
      var _ := defcon.Calculate();
    }

    method GetDefcon() returns (level: byte)
      requires Valid()
      modifies defcon
      ensures Valid() && Value() == Step(old(Value()), Op.GetDefcon)
      ensures level == if initialized then Level(Value().counts) else 5
    {
      if !initialized {
        return 5;
      }
      level := defcon.Calculate();
    }
  }

  // ---------- Every interleaving of pushes and pops is a FIFO ----------

  /** What happened to events since the queue was last set up: accepted, handed out by pops, refused. */
  datatype Traffic = Traffic(accepted: seq<IpcEvent>, popped: seq<IpcEvent>, refused: nat)

  function NextTraffic(t: Traffic, s: State, op: Op): Traffic {
    match op
    case Init => if s.initialized then t else Traffic([], [], 0)
    case Push(ev) =>
      if Accepts(s) then t.(accepted := t.accepted + [ev])
      else if s.initialized then t.(refused := t.refused + 1)
      else t
    case Pop => if s.initialized && s.queue != [] then t.(popped := t.popped + [s.queue[0]]) else t
    case _ => t
  }

  function TrafficOf(ops: seq<Op>): Traffic {
    if ops == [] then Traffic([], [], 0)
    else NextTraffic(TrafficOf(ops[..|ops| - 1]), Run(ops[..|ops| - 1]), ops[|ops| - 1])
  }

  /** While the bridge is up, what was accepted is what was popped and then what is still queued. */
  predicate Fifo(t: Traffic, s: State) {
    s.initialized ==>
      && t.accepted == t.popped + s.queue
      && |s.queue| <= QUEUE_CAPACITY
      && s.dropped == t.refused % TWO_32
  }

  lemma FifoKept(t: Traffic, s: State, op: Op)
    requires Fifo(t, s)
    ensures Fifo(NextTraffic(t, s, op), Step(s, op))
  {
    hide CountEvent, Level;
    if s.initialized && op.Push? {
      assert t.popped + (s.queue + [op.ev]) == t.popped + s.queue + [op.ev];
    } else if s.initialized && op.Pop? && s.queue != [] {
      assert t.popped + s.queue == t.popped + [s.queue[0]] + s.queue[1..];
    }
  }

  /** Over every interleaving of calls the queue loses nothing, reorders nothing and is never overfull,
      and refusals are counted modulo 2^32. */
  lemma {:induction false} QueueIsFifo(ops: seq<Op>)
    ensures Fifo(TrafficOf(ops), Run(ops))
  {
    hide Fifo, NextTraffic, Step;
    if ops == [] {
      FifoAtStart();
    } else {
      QueueIsFifo(ops[..|ops| - 1]);
      FifoKept(TrafficOf(ops[..|ops| - 1]), Run(ops[..|ops| - 1]), ops[|ops| - 1]);
    }
  }

  lemma FifoAtStart()
    ensures Fifo(Traffic([], [], 0), START)
  {}

  // ---------- The counters are a recount of history ----------

  /** Call i set the counters outright. */
  predicate Sets(ops: seq<Op>, i: nat)
    requires i < |ops|
  {
    var live := Run(ops[..i]).initialized;
    (ops[i].Init? && !live) || (ops[i].Update? && live)
  }

  /** How many calls there are up to and including the last one that set the counters; 0 if none did. */
  function LastSet(ops: seq<Op>): (n: nat)
    ensures n <= |ops|
  {
    if ops == [] then 0
    else if Sets(ops, |ops| - 1) then |ops|
    else LastSet(ops[..|ops| - 1])
  }

  /** The values the counters were last set to. */
  function Base(ops: seq<Op>): Counters {
    var n := LastSet(ops);
    if n > 0 && ops[n - 1].Update? then ops[n - 1].given else NO_COUNTS
  }

  /** Accepted pushes from call n on whose event satisfies p. */
  function CountFrom(ops: seq<Op>, n: nat, p: IpcEvent -> bool): nat
    requires n <= |ops|
  {
    if |ops| == n then 0
    else
      var front, op := ops[..|ops| - 1], ops[|ops| - 1];
      CountFrom(front, n, p) + if op.Push? && Accepts(Run(front)) && p(op.ev) then 1 else 0
  }

  /** At every point of every run each counter is what it was last set to plus the accepted events
      since then that it counts, modulo 2^32. */
  lemma {:induction false} CountersAreRecount(ops: seq<Op>)
    ensures var s, n := Run(ops), LastSet(ops);
      && s.counts.critical == (Base(ops).critical + CountFrom(ops, n, IsCritical)) as int % TWO_32
      && s.counts.kernel == (Base(ops).kernel + CountFrom(ops, n, IsKernel)) as int % TWO_32
      && s.counts.total == (Base(ops).total + CountFrom(ops, n, AnyEvent)) as int % TWO_32
      && s.counts.blocked == Base(ops).blocked
  {
    hide Step, Plus, CountFrom, LastSet, Base, Sets;
    if ops == [] {
      NothingCounted();
    } else {
      var front, op := ops[..|ops| - 1], ops[|ops| - 1];
      CountersAreRecount(front);
      if Sets(ops, |ops| - 1) {
        JustSet(ops);
      } else {
        NotSet(ops);
        CountOne(ops, LastSet(ops), IsCritical);
        CountOne(ops, LastSet(ops), IsKernel);
        CountOne(ops, LastSet(ops), AnyEvent);
        NextCounts(Run(front), op);
        var b, n, counted := Base(ops), LastSet(ops), op.Push? && Accepts(Run(front));
        PlusModulo(b.critical + CountFrom(front, n, IsCritical), counted && IsCritical(op.ev));
        PlusModulo(b.kernel + CountFrom(front, n, IsKernel), counted && IsKernel(op.ev));
        PlusModulo(b.total + CountFrom(front, n, AnyEvent), counted);
      }
    }
  }

  lemma NothingCounted()
    ensures LastSet([]) == 0 && Base([]) == NO_COUNTS
    ensures forall p :: CountFrom([], 0, p) == 0
  {}

  lemma JustSet(ops: seq<Op>)
    requires ops != [] && Sets(ops, |ops| - 1)
    ensures LastSet(ops) == |ops| && Run(ops).counts == Base(ops)
    ensures forall p :: CountFrom(ops, |ops|, p) == 0
  {}

  lemma NotSet(ops: seq<Op>)
    requires ops != [] && !Sets(ops, |ops| - 1)
    ensures var front, op := ops[..|ops| - 1], ops[|ops| - 1];
      && LastSet(ops) == LastSet(front) < |ops| && Base(ops) == Base(front)
      && !(op.Init? && !Run(front).initialized) && !(op.Update? && Run(front).initialized)
      && Run(ops) == Step(Run(front), op)
  {
    hide Step;
  }

  lemma PlusModulo(k: nat, more: bool)
    ensures Plus(k % TWO_32, more) == (k + if more then 1 else 0) % TWO_32
  {}

  lemma CountOne(ops: seq<Op>, n: nat, p: IpcEvent -> bool)
    requires n < |ops|
    ensures var front, op := ops[..|ops| - 1], ops[|ops| - 1];
      CountFrom(ops, n, p)
      == CountFrom(front, n, p) + if op.Push? && Accepts(Run(front)) && p(op.ev) then 1 else 0
  {}

  lemma NextCounts(s: State, op: Op)
    requires !(op.Init? && !s.initialized) && !(op.Update? && s.initialized)
    ensures var counted := op.Push? && Accepts(s);
      && Step(s, op).counts.critical == Plus(s.counts.critical, counted && IsCritical(op.ev))
      && Step(s, op).counts.kernel == Plus(s.counts.kernel, counted && IsKernel(op.ev))
      && Step(s, op).counts.total == Plus(s.counts.total, counted)
      && Step(s, op).counts.blocked == s.counts.blocked
  {}

  // ---------- When the level shown is the level of the counters ----------

  /** Call i sets the bridge up or computes the level anew. */
  predicate Refreshes(ops: seq<Op>, i: nat)
    requires i < |ops|
  {
    var s := Run(ops[..i]);
    match ops[i]
    case Init => !s.initialized
    case Push(_) => Accepts(s)
    case Update(_) => s.initialized
    case GetDefcon => s.initialized
    case _ => false
  }

  /** The last such call was a set-up while another level than 5 was shown. */
  predicate Stale(ops: seq<Op>) {
    if ops == [] then false
    else
      var last := |ops| - 1;
      if Refreshes(ops, last) then ops[last].Init? && Run(ops[..last]).level != 5 else Stale(ops[..last])
  }

  /** Over every run the level shown is that of the counters exactly when it is not stale; while it is
      stale all counters are zero. */
  lemma {:induction false} LevelIsCurrentIffNotStale(ops: seq<Op>)
    ensures Run(ops).level == Level(Run(ops).counts) <==> !Stale(ops)
    ensures Stale(ops) ==> Run(ops).counts == NO_COUNTS
  {
    hide Level, CountEvent, Run;
    if ops == [] {
      EmptyRun();
    } else {
      var last := |ops| - 1;
      LevelIsCurrentIffNotStale(ops[..last]);
      LastStep(ops);
      NoCountsLevel();
    }
  }

  lemma EmptyRun()
    ensures Run([]) == START && Level(NO_COUNTS) == 5
  {}

  lemma NoCountsLevel()
    ensures Level(NO_COUNTS) == 5
  {}

  lemma LastStep(ops: seq<Op>)
    requires ops != []
    ensures Run(ops) == Step(Run(ops[..|ops| - 1]), ops[|ops| - 1])
  {
    hide Step;
  }

  /** A level can stay behind: after a shutdown at level 1 and a new set-up, 1 is still shown with all
      counters zero, and the next harmless event raises it to 4. */
  lemma StaleLevelRises()
    ensures var ops := [Op.Init, Update(Counters(10, 0, 0, 10)), Op.Shutdown, Op.Init];
      && !Run(ops[..3]).initialized && Run(ops[..3]).level == 1
      && Stale(ops) && Run(ops).level == 1 && Accepts(Run(ops))
      && Step(Run(ops), Push(ZERO_IPC)).level == 4
      && Step(Run(ops), Push(ZERO_IPC)).counts == Counters(0, 0, 0, 1)
  {
    var up := [Op.Init];
    var high := up + [Update(Counters(10, 0, 0, 10))];
    var down := high + [Op.Shutdown];
    var again := down + [Op.Init];
    EmptyRun();
    assert up[..0] == [] && high[..1] == up && down[..2] == high && again[..3] == down;
    hide Run;
    LastStep(up);
    LastStep(high);
    LastStep(down);
    LastStep(again);
    assert again == [Op.Init, Update(Counters(10, 0, 0, 10)), Op.Shutdown, Op.Init];
    assert Run(down) == State(false, [], 0, Counters(10, 0, 0, 10), 1);
    assert Run(again) == State(true, [], 0, NO_COUNTS, 1);
    assert Refreshes(again, 3);
  }

  // ---------- Pushes and the level ----------

  /** The accepted event wraps the counter that held the level, and nothing else holds it. */
  predicate WrapsToSafer(c: Counters, ev: IpcEvent) {
    var d := CountEvent(c, ev);
    || (IsKernel(ev) && c.kernel == TWO_32 - 1 && c.blocked < 5 && d.critical < 10)
    || (c.kernel == 0 && !IsKernel(ev) && IsCritical(ev) && c.critical == TWO_32 - 1 && c.blocked < 5)
    || (c.kernel == 0 && !IsKernel(ev) && !IsCritical(ev) && c.critical == 0
        && c.total == TWO_32 - 1 && c.blocked < 3)
  }

  /** Counting one more event makes the level safer exactly when it wraps such a counter. */
  lemma CountingRaisesExactlyByWrapping(c: Counters, ev: IpcEvent)
    ensures Level(CountEvent(c, ev)) > Level(c) <==> WrapsToSafer(c, ev)
  {}

  /** The level that a first event alone gives. */
  function FirstLevel(ev: IpcEvent): (level: byte)
    ensures level == Level(CountEvent(NO_COUNTS, ev))
  {
    if IsKernel(ev) then 1 else if IsCritical(ev) then 3 else 4
  }

  /** After any run, one push raises the level number exactly when it is accepted and either the level
      shown was stale and below that of a first event, or a counter that held it wraps. */
  lemma PushRaisesLevelExactly(ops: seq<Op>, ev: IpcEvent)
    ensures var s := Run(ops);
      Step(s, Push(ev)).level > s.level
      <==> Accepts(s) && if Stale(ops) then s.level < FirstLevel(ev) else WrapsToSafer(s.counts, ev)
  {
    hide Level, CountEvent, WrapsToSafer, Run, Stale, FirstLevel;
    LevelIsCurrentIffNotStale(ops);
    CountingRaisesExactlyByWrapping(Run(ops).counts, ev);
  }

  function PushAll(s: State, evs: seq<IpcEvent>): State {
    if evs == [] then s else Step(PushAll(s, evs[..|evs| - 1]), Push(evs[|evs| - 1]))
  }

  /** No counter can wrap within n more events. */
  predicate Headroom(c: Counters, n: nat) {
    c.critical + n < TWO_32 && c.kernel + n < TWO_32 && c.total + n < TWO_32
  }

  /** d is c with at most n more in each counter. */
  predicate Within(c: Counters, d: Counters, n: nat) {
    AtMost(c, d) && AtMostMore(c.critical, d.critical, n) && AtMostMore(c.kernel, d.kernel, n)
    && AtMostMore(c.total, d.total, n)
  }

  predicate AtMostMore(x: u32, y: u32, n: nat) {
    y as int <= x + n
  }

  /** Nothing was counted and the level stands, or something was and the level is that of the counters. */
  predicate Pushed(s: State, t: State) {
    || (t.counts == s.counts && t.level == s.level)
    || (t.counts.total > s.counts.total && t.level == Level(t.counts))
  }

  lemma PushStaysWithin(s: State, t: State, ev: IpcEvent, n: nat)
    requires Within(s.counts, t.counts, n) && Headroom(s.counts, n + 1) && Pushed(s, t)
    ensures var u := Step(t, Push(ev));
      Within(s.counts, u.counts, n + 1) && Pushed(s, u)
  {
    hide Level;
  }

  lemma {:induction false} PushesStayWithin(s: State, evs: seq<IpcEvent>)
    requires Headroom(s.counts, |evs|)
    ensures Within(s.counts, PushAll(s, evs).counts, |evs|) && Pushed(s, PushAll(s, evs))
    ensures !Accepts(s) ==> PushAll(s, evs).level == s.level && !Accepts(PushAll(s, evs))
  {
    hide Level, CountEvent;
    if evs == [] {
    } else {
      var front := evs[..|evs| - 1];
      PushesStayWithin(s, front);
      PushStaysWithin(s, PushAll(s, front), evs[|evs| - 1], |front|);
    }
  }

  /** From a state whose level is current, pushes alone never raise the level number while no counter wraps. */
  lemma PushesKeepCurrentLevelLow(s: State, evs: seq<IpcEvent>)
    requires Headroom(s.counts, |evs|) && s.level == Level(s.counts)
    ensures PushAll(s, evs).level == Level(PushAll(s, evs).counts) <= s.level
  {
    hide Level;
    PushesStayWithin(s, evs);
    LevelMonotone(s.counts, PushAll(s, evs).counts);
  }

  /** After any run and with room in the counters, pushes alone never raise the level number if and only if
      none is accepted, or the level shown is not stale, or it is at least 4 already. */
  lemma PushesNeverRaiseLevel(ops: seq<Op>, n: nat)
    requires n > 0 && Headroom(Run(ops).counts, n)
    ensures var s := Run(ops);
      (forall evs: seq<IpcEvent> :: |evs| <= n ==> PushAll(s, evs).level <= s.level)
      <==> !Accepts(s) || !Stale(ops) || s.level >= 4
  {
    hide Run, Stale, PushAll, Step, Level;
    var s := Run(ops);
    LevelIsCurrentIffNotStale(ops);
    if !Accepts(s) || !Stale(ops) || s.level >= 4 {
      forall evs: seq<IpcEvent> | |evs| <= n
        ensures PushAll(s, evs).level <= s.level
      {
        PushesStayWithin(s, evs);
        if Accepts(s) && !Stale(ops) {
          PushesKeepCurrentLevelLow(s, evs);
        } else if Accepts(s) {
          SomethingCounted(PushAll(s, evs).counts);
        }
      }
    } else {
      HarmlessPush(s);
      assert |[ZERO_IPC]| <= n;
    }
  }

  lemma SomethingCounted(c: Counters)
    ensures c.total > 0 ==> Level(c) <= 4
  {}

  lemma HarmlessPush(s: State)
    requires Accepts(s) && s.counts == NO_COUNTS
    ensures PushAll(s, [ZERO_IPC]).level == 4
  {
    assert [ZERO_IPC][..0] == [];
    assert PushAll(s, []) == s;
  }

  /** An accepted push keeps every counter from falling exactly when no counter it adds to is at its top. */
  lemma CountersFallOnlyByWrapping(c: Counters, ev: IpcEvent)
    ensures AtMost(c, CountEvent(c, ev)) <==>
      && c.total < TWO_32 - 1
      && (IsCritical(ev) ==> c.critical < TWO_32 - 1)
      && (IsKernel(ev) ==> c.kernel < TWO_32 - 1)
  {}

  /** A counter that wraps can make the level safer: one more critical event takes it from 1 to 4. */
  lemma WrappingCanRaiseLevel()
    ensures var c, ev := Counters(0xFFFF_FFFF, 0, 0, 0), ZERO_IPC.(severity := 3);
      Level(c) == 1 && Level(CountEvent(c, ev)) == 4
  {}

  /** Setting the bridge up again clears the counters but not the level shown: it is the level of the
      cleared counters only if it was 5 before, until the next call that computes it. */
  lemma InitKeepsShownLevel(s: State)
    requires !s.initialized
    ensures var t := Step(s, Init);
      && t.counts == NO_COUNTS && t.level == s.level
      && (t.level == Level(t.counts) <==> s.level == 5)
      && Step(t, GetDefcon).level == 5
  {}
}
