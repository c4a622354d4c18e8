/** The live capture loop and the observe-only injection, on top of the frame writer. */
module Capture {
  import opened Bytes
  import opened Canonical
  import opened Options
  import opened PipeWriter
  import opened Signatures
  import Fnv

  // ---------- One packet, one event ----------

  /** Addresses are network byte strings: 4 bytes for IPv4, 16 for IPv6, anything else if undecodable. */
  datatype Network = Ip(source: seq<byte>, dest: seq<byte>, protocol: byte)

  datatype Transport = Tcp(source: u16, dest: u16) | Udp(source: u16, dest: u16) | OtherTransport

  datatype Packet = Packet(network: Option<Network>, transport: Option<Transport>, payload: Option<seq<byte>>)

  /** The first four bytes, big-endian; 0 when there are fewer. */
  function Address(ip: seq<byte>): u32 {
    if |ip| < 4 then 0
    else ip[0] as int * 0x100_0000 + ip[1] as int * 0x1_0000 + ip[2] as int * 0x100 + ip[3] as int
  }

  function WithNetwork(e: Event, network: Option<Network>): Event {
    match network
    case None => e
    case Some(n) => e.(sourceIp := Address(n.source), destIp := Address(n.dest), protocol := n.protocol)
  }

  function WithTransport(e: Event, transport: Option<Transport>): Event {
    match transport
    case Some(Tcp(s, d)) => e.(sourcePort := s, destPort := d, protocol := 6)
    case Some(Udp(s, d)) => e.(sourcePort := s, destPort := d, protocol := 17)
    case _ => e
  }

  function PayloadHash(payload: seq<byte>): u64 {
    Fnv.ParamsInvertible();
    Fnv.HashBelow(Fnv.FNV64, Fnv.OFFSET64, payload);
    Fnv.Hash(Fnv.FNV64, Fnv.OFFSET64, payload)
  }

  function WithPayload(e: Event, payload: Option<seq<byte>>): Event {
    match payload
    case None => e
    case Some(p) => e.(payloadLength := |p| % TWO_32, payloadHash := PayloadHash(p))
  }

  /** The event of a packet: whatever the packet holds, the writer can serialise it. */
  function EventFromPacket(id: u64, wallMs: u64, monotonicNs: u64, packet: Packet): (e: Event)
    ensures Sendable(e) && e.eventId == id
  {
    var e := ZERO_EVENT.(eventId := id, timestampMs := wallMs, monotonicNs := monotonicNs,
                         source := 9, eventType := 2, policyAction := 5, defconImpact := 5);
    WithPayload(WithTransport(WithNetwork(e, packet.network), packet.transport), packet.payload)
  }

  /** Big-endian: the first of the four bytes counts most. */
  predicate IsAddress(a: u32, ip: seq<byte>) {
    if |ip| < 4 then a == 0
    else a as int == ((ip[0] as int * 256 + ip[1]) * 256 + ip[2]) * 256 + ip[3]
  }

  /** What an event says of the packet: its addresses, ports, protocol and payload; clocks and id as given; and
      otherwise that of a neutral, log-only observation. */
  predicate Observes(e: Event, id: int, wallMs: u64, monotonicNs: u64, packet: Packet) {
    && e.eventId == id && e.timestampMs == wallMs && e.monotonicNs == monotonicNs
    && e.source == 9 && e.policyAction == 5 && e.defconImpact == 5 && e.enforcementStatus == 0
    && (packet.network.None? ==> e.sourceIp == 0 && e.destIp == 0)
    && (packet.network.Some? ==>
          IsAddress(e.sourceIp, packet.network.value.source) && IsAddress(e.destIp, packet.network.value.dest))
    && (packet.transport.Some? && packet.transport.value.Tcp? ==>
          && e.sourcePort == packet.transport.value.source && e.destPort == packet.transport.value.dest
          && e.protocol == 6)
    && (packet.transport.Some? && packet.transport.value.Udp? ==>
          && e.sourcePort == packet.transport.value.source && e.destPort == packet.transport.value.dest
          && e.protocol == 17)
    && (packet.transport.None? || packet.transport.value.OtherTransport? ==>
          && e.sourcePort == 0 && e.destPort == 0
          && e.protocol == if packet.network.Some? then packet.network.value.protocol else 0)
    && (packet.payload.None? ==> e.payloadLength == 0 && e.payloadHash == 0)
    && (packet.payload.Some? ==>
          && e.payloadLength == |packet.payload.value| % TWO_32
          && e.payloadHash == Fnv.Hash(Fnv.FNV64, Fnv.OFFSET64, packet.payload.value))
  }

  /** What the rules make of it: with a first rule whose pattern occurs in the payload, type 1 with that rule's
      hash and severity; without one, type 2 with no rule and severity 0. */
  ghost predicate Judged(e: Event, packet: Packet, rules: seq<Rule>) {
    var found := packet.payload.Some? && exists k: nat :: FirstMatch(rules, packet.payload.value, k);
    && (!found ==> e.eventType == 2 && e.ruleId == 0 && e.severity == 0)
    && (packet.payload.Some? ==>
          forall k: nat :: FirstMatch(rules, packet.payload.value, k) ==>
            && e.eventType == 1
            && e.ruleId == Fnv.Hash(Fnv.FNV32, Fnv.OFFSET32, rules[k].ruleId)
            && e.severity == SeverityOrdinal(rules[k].severity))
  }

  lemma AddressBytes(ip: seq<byte>)
    ensures IsAddress(Address(ip), ip)
  {}

  lemma EventObserves(id: u64, wallMs: u64, monotonicNs: u64, packet: Packet)
    ensures var e := EventFromPacket(id, wallMs, monotonicNs, packet);
      Observes(e, id, wallMs, monotonicNs, packet) && e.eventType == 2 && e.ruleId == 0 && e.severity == 0
  {
    hide Address, IsAddress, PayloadHash, Sendable;
    if packet.network.Some? {
      AddressBytes(packet.network.value.source);
      AddressBytes(packet.network.value.dest);
    }
    if packet.payload.Some? {
      PayloadHashMeans(packet.payload.value);
    }
  }

  lemma PayloadHashMeans(payload: seq<byte>)
    ensures PayloadHash(payload) == Fnv.Hash(Fnv.FNV64, Fnv.OFFSET64, payload)
  {}

  /** The event the loop sends for a packet. */
  lemma SentEvent(id: u64, wallMs: u64, monotonicNs: u64, packet: Packet, rules: seq<Rule>)
    ensures var e := Classified(EventFromPacket(id, wallMs, monotonicNs, packet), packet.payload, rules);
      Observes(e, id, wallMs, monotonicNs, packet) && Judged(e, packet, rules)
  {
    var before := EventFromPacket(id, wallMs, monotonicNs, packet);
    EventObserves(id, wallMs, monotonicNs, packet);
    ClassifiedMeans(before, packet.payload, rules);
    hide Classified, EventFromPacket, FirstMatch, IsAddress, SeverityOrdinal, Sendable;
    if packet.payload.Some? && exists k: nat :: FirstMatch(rules, packet.payload.value, k) {
      var k: nat :| FirstMatch(rules, packet.payload.value, k);
    }
  }

  // ---------- Identifiers ----------

  predicate Increasing(ids: seq<nat>) {
    forall i, j :: 0 <= i < j < |ids| ==> ids[i] < ids[j]
  }

  function Ids(es: seq<Event>): (ids: seq<nat>)
    ensures |ids| == |es|
  {
    seq(|es|, i requires 0 <= i < |es| => es[i].eventId)
  }

  // If the calls carry increasing ids, so do the deliveries, and none exceeds the last call's id
  lemma {:induction false} DeliveredIncrease(calls: seq<Call>)
    requires forall i, j :: 0 <= i < j < |calls| ==> calls[i].e.eventId < calls[j].e.eventId
    ensures Increasing(Ids(Delivered(calls)))
    ensures forall e :: e in Delivered(calls) ==> e.eventId <= calls[|calls| - 1].e.eventId
  {
    if calls == [] {
    } else {
      var front := calls[..|calls| - 1];
      DeliveredIncrease(front);
      assert forall e :: e in Delivered(front) ==> e.eventId < calls[|calls| - 1].e.eventId;
      var es, ds := Delivered(front), Delivered(calls);
      forall i, j | 0 <= i < j < |ds|
        ensures ds[i].eventId < ds[j].eventId
      {
        if j < |es| {
          assert Ids(es)[i] < Ids(es)[j];
        } else {
          assert ds[i] in es;
        }
      }
    }
  }

  // ---------- The capture loop ----------

  /** What one read of the capture handle gives. */
  datatype Read = Timeout | Failure | Got(packet: Packet, wallMs: u64, monotonicNs: u64)

  /** The packets among these reads, up to the first read that failed. */
  function Taken(input: seq<Read>): (taken: seq<Read>)
    ensures forall r :: r in taken ==> r.Got?
  {
    if input == [] || input[0].Failure? then []
    else (if input[0].Got? then [input[0]] else []) + Taken(input[1..])
  }

  /** Call i was made for packet i: its event observes and judges that packet, under the i-th next id. */
  ghost predicate SentFor(calls: seq<Call>, taken: seq<Read>, start: u64, rules: seq<Rule>) {
    && |calls| == |taken|
    && forall i :: 0 <= i < |calls| ==> taken[i].Got? && SentAt(calls[i], taken[i], (start as int + i + 1) % TWO_64, rules)
  }

  ghost predicate SentAt(call: Call, read: Read, id: int, rules: seq<Rule>)
    requires read.Got?
  {
    Observes(call.e, id, read.wallMs, read.monotonicNs, read.packet) && Judged(call.e, read.packet, rules)
  }

  /** One more call, for this packet. */
  ghost predicate OneMoreSent(before: seq<Call>, after: seq<Call>, read: Read, id: int, rules: seq<Rule>)
    requires read.Got?
  {
    |after| == |before| + 1 && after[..|before|] == before && SentAt(after[|before|], read, id, rules)
  }

  lemma TakenOfNone()
    ensures Taken([]) == []
  {}

  lemma NoneSentYet(start: u64, rules: seq<Rule>)
    ensures SentFor([], [], start, rules)
  {}

  lemma {:induction false} NextTaken(input: seq<Read>, n: nat)
    requires n < |input| && !(exists r :: r in input[..n] && r.Failure?)
    ensures Taken(input[..n + 1]) == Taken(input[..n]) + if input[n].Got? then [input[n]] else []
    ensures input[n].Failure? ==> Taken(input) == Taken(input[..n])
    ensures !input[n].Failure? ==> !(exists r :: r in input[..n + 1] && r.Failure?)
    decreases n
  {
    assert input[..n + 1] == input[..n] + [input[n]];
    if n == 0 {
      assert input[..1][1..] == [];
    } else {
      assert input[0] in input[..n];
      assert input[1..][..n - 1] == input[..n][1..] && input[1..][..n] == input[..n + 1][1..];
      NextTaken(input[1..], n - 1);
    }
  }

  lemma NextSent(
      before: seq<Call>, after: seq<Call>, taken: seq<Read>, read: Read, start: u64, rules: seq<Rule>)
    requires SentFor(before, taken, start, rules) && read.Got?
    requires OneMoreSent(before, after, read, (start as int + |before| + 1) % TWO_64, rules)
    ensures SentFor(after, taken + [read], start, rules)
  {
    hide SentAt;
    assert forall i :: 0 <= i < |before| ==> after[i] == before[i];
  }

  class Nose {
    var eventSequence: u64
    var packets: nat
    var canonical: nat
    var droppedPipe: nat
    var rules: seq<Rule>

    constructor (rules: seq<Rule>)
      ensures eventSequence == 0 && packets == 0 && canonical == 0 && droppedPipe == 0 && this.rules == rules
    {
      eventSequence, packets, canonical, droppedPipe, this.rules := 0, 0, 0, 0, rules;
    }

    /** atomic.AddUint64 on the event sequence. */
    method NextId() returns (id: u64)
      modifies this`eventSequence
      ensures id == eventSequence == (old(eventSequence) as int + 1) % TWO_64
    {
      eventSequence := (eventSequence as int + 1) % TWO_64;
      id := eventSequence;
    }

    lemma NextNumbered(calls: seq<Call>, c: Call, start: u64)
      requires Numbered(calls, start) && Sendable(c.e)
      requires c.e.eventId == ((start as int + |calls|) % TWO_64 + 1) % TWO_64
      ensures Numbered(calls + [c], start) && c.e.eventId == (start as int + |calls + [c]|) % TWO_64
    {
      hide Sendable;
    }

    ghost predicate Counted(w: FrameWriter)
      reads this, w
    {
      packets == canonical == |w.calls| == w.sent + w.dropped
    }

    /** Every captured packet so far was sent under the next id; start is the sequence before the first. */
    ghost predicate Numbered(calls: seq<Call>, start: u64) {
      forall i :: 0 <= i < |calls| ==>
        Sendable(calls[i].e) && calls[i].e.eventId == (start as int + i + 1) % TWO_64
    }

    lemma NoneNumbered(start: u64)
      ensures Numbered([], start)
    {}

    lemma NumberedIncrease(calls: seq<Call>, start: u64)
      requires Numbered(calls, start) && start + |calls| < TWO_64
      ensures Increasing(Ids(Delivered(calls)))
    {
      hide Sendable, Delivered, Ids, Increasing;
      forall i | 0 <= i < |calls|
        ensures calls[i].e.eventId as int == start as int + i + 1
      {
        assert calls[i].e.eventId == (start as int + i + 1) % TWO_64;
      }
      DeliveredIncrease(calls);
    }

    /** One packet through the loop. */
    method Handle(w: FrameWriter, packet: Packet, wallMs: u64, monotonicNs: u64, ghost start: u64)
      requires w.Valid() && Counted(w) && Numbered(w.calls, start)
      requires eventSequence == (start as int + |w.calls|) % TWO_64
      modifies this, w, w.conn
      ensures w.Valid() && Counted(w) && Numbered(w.calls, start)
      ensures eventSequence == (start as int + |w.calls|) % TWO_64
      ensures packets == old(packets) + 1 && droppedPipe == w.dropped && rules == old(rules)
      ensures OneMoreSent(old(w.calls), w.calls, Got(packet, wallMs, monotonicNs),
                          (old(eventSequence) as int + 1) % TWO_64, rules)
      ensures w.conn == old(w.conn) || w.conn == null || fresh(w.conn)
    {
      hide Faithful, Sendable, Classified, EventFromPacket, Delivered, Undelivered, SendStep, Numbered;
      hide Observes, Judged;
      packets := packets + 1;
      var id := NextId();
      var ev := new EventVar();
      ev.e := EventFromPacket(id, wallMs, monotonicNs, packet);
      Classify(ev, packet.payload, rules);
      SentEvent(id, wallMs, monotonicNs, packet, rules);
      canonical := canonical + 1;
      ghost var before := w.calls;
      w.Counts();
      var ok := w.Send(ev.e);
      w.Counts();
      AllCounted(before, Call(ev.e, ok));
      NextNumbered(before, Call(ev.e, ok), start);
      var _, dropped := w.Stats();
      droppedPipe := dropped;
    }

    /** The loop, until a read fails or the input is used up (the stop signal). */
    method RunCapture(w: FrameWriter, input: seq<Read>)
      requires w.Valid() && w.calls == []
      requires packets == canonical == 0
      modifies this, w, w.conn
      ensures w.Valid() && Counted(w)
      ensures packets > 0 ==> droppedPipe == w.dropped
      ensures Numbered(w.calls, old(eventSequence))
      ensures rules == old(rules) && SentFor(w.calls, Taken(input), old(eventSequence), rules)
      ensures old(eventSequence) + packets < TWO_64 ==> Increasing(Ids(Delivered(w.calls)))
    {
      hide Faithful, Sendable, Delivered, Undelivered, Taken, SentFor, SentAt, OneMoreSent, Numbered, Increasing;
      ghost var start := eventSequence;
      TakenOfNone();
      NoneSentYet(start, rules);
      NoneNumbered(start);
      NothingSent();
      w.Counts();
      for n := 0 to |input|
        invariant w.Valid() && (w.conn == old(w.conn) || w.conn == null || fresh(w.conn))
        invariant Counted(w) && Numbered(w.calls, start)
        invariant packets > 0 ==> droppedPipe == w.dropped
        invariant eventSequence == (start as int + |w.calls|) % TWO_64
        invariant rules == old(rules) && SentFor(w.calls, Taken(input[..n]), start, rules)
        invariant !(exists r :: r in input[..n] && r.Failure?)
      {
        NextTaken(input, n);
        ghost var taken := Taken(input[..n]);
        match input[n] {
          case Timeout =>
          case Failure =>
            assert Taken(input) == taken;
            break;
          case Got(packet, wallMs, monotonicNs) =>
            ghost var before := w.calls;
            Handle(w, packet, wallMs, monotonicNs, start);
            NextSent(before, w.calls, taken, input[n], start, rules);
        }
        assert Taken(input[..n + 1]) == if input[n].Got? then taken + [input[n]] else taken;
      }
      assert input[..|input|] == input;
      if start + packets < TWO_64 {
        NumberedIncrease(w.calls, start);
      }
    }
  }

  lemma NothingSent()
    ensures Delivered([]) == [] && Undelivered([]) == 0
  {}

  // Every send of a valid event is counted once, as sent or as dropped
  lemma AllCounted(calls: seq<Call>, c: Call)
    requires Sendable(c.e)
    ensures |Delivered(calls + [c])| + Undelivered(calls + [c]) == |Delivered(calls)| + Undelivered(calls) + 1
  {
    LastCall(calls, c);
  }

  // ---------- The observe-only injection ----------

  const MAX_ATTEMPTS: nat := 20

  /** The synthetic event of round i: alert only, no rule. */
  function ObserveEvent(id: u64, wallMs: u64, monotonicNs: u64, i: nat): (e: Event)
    ensures Sendable(e) && e.eventId == id
  {
    Event(
      eventId := id, timestampMs := wallMs, monotonicNs := monotonicNs, source := 9,
      sourceIp := 0xC0A80164, sourcePort := (49152 + i) % 0x1_0000, destIp := 0xAC1F0A0A, destPort := 443,
      sessionId := 0, protocol := 6, direction := 0, layerId := 0, isPipe := 0,
      eventType := 2, severity := 1, ruleId := 0, rulesetVersion := 0, payloadLength := 0, payloadHash := 0,
      policyAction := 5, enforcementStatus := 0, defconImpact := 5, contextFlags := 0,
      pid := 0, ppid := 0, procType := 0, integrity := 0, hidsFlag := 0, nodeId := 0, confidence := 0)
  }

  /** Nothing in the synthetic event asks for an effect: a forwarded TCP flow between two fixed addresses, log only,
      no rule and no signature match; only the source port counts the rounds. */
  predicate AlertOnly(e: Event, i: nat) {
    && e.eventType == 2 && e.policyAction == 5 && e.ruleId == 0 && e.severity == 1 && e.source == 9
    && e.sourceIp == 0xC0A8_0164 && e.sourcePort == (49152 + i) % 0x1_0000
    && e.destIp == 0xAC1F_0A0A && e.destPort == 443 && e.protocol == 6
    && e.payloadLength == 0 && e.payloadHash == 0 && e.defconImpact == 5 && e.enforcementStatus == 0
  }

  lemma ObserveEventIsAlertOnly(id: u64, wallMs: u64, monotonicNs: u64, i: nat)
    ensures AlertOnly(ObserveEvent(id, wallMs, monotonicNs, i), i)
  {}

  /** The sends of one round: failures, then a success if there was one. */
  function Tries(e: Event, n: nat, delivered: bool): (cs: seq<Call>)
    ensures |cs| == n
  {
    seq(n, k => Call(e, delivered && k == n - 1))
  }

  datatype Round = Round(e: Event, tries: nat, delivered: bool)

  /** At least one send, at most twenty, and all twenty when nothing got through. */
  predicate FairRound(r: Round) {
    1 <= r.tries <= MAX_ATTEMPTS && Sendable(r.e) && (!r.delivered ==> r.tries == MAX_ATTEMPTS)
  }

  function AllTries(rounds: seq<Round>): seq<Call> {
    if rounds == [] then []
    else
      var r := rounds[|rounds| - 1];
      AllTries(rounds[..|rounds| - 1]) + Tries(r.e, r.tries, r.delivered)
  }

  function DeliveredRounds(rounds: seq<Round>): (es: seq<Event>)
    ensures |es| <= |rounds|
    ensures |es| == |rounds| <==> forall r :: r in rounds ==> r.delivered
  {
    if rounds == [] then []
    else
      var last := |rounds| - 1;
      assert forall r :: r in rounds <==> r in rounds[..last] || r == rounds[last];
      DeliveredRounds(rounds[..last]) + if rounds[last].delivered then [rounds[last].e] else []
  }

  lemma {:induction false} DeliveredAppend(x: seq<Call>, y: seq<Call>)
    ensures Delivered(x + y) == Delivered(x) + Delivered(y)
  {
    if y == [] {
      assert x + y == x;
    } else {
      var front, c := y[..|y| - 1], y[|y| - 1];
      DeliveredAppend(x, front);
      assert (x + y)[..|x + y| - 1] == x + front;
    }
  }

  lemma {:induction false} DeliveredTries(e: Event, n: nat, delivered: bool)
    requires n > 0
    ensures Delivered(Tries(e, n, delivered)) == if delivered then [e] else []
  {
    var cs := Tries(e, n, delivered);
    assert cs[..n - 1] == Tries(e, n - 1, false);
    if n == 1 {
    } else {
      DeliveredTries(e, n - 1, false);
    }
  }

  /** Each event is delivered at most once, in the order of the rounds. */
  lemma {:induction false} DeliveredOfRounds(rounds: seq<Round>)
    requires forall r :: r in rounds ==> FairRound(r)
    ensures Delivered(AllTries(rounds)) == DeliveredRounds(rounds)
  {
    if rounds == [] {
    } else {
      var last := |rounds| - 1;
      var r := rounds[last];
      assert r in rounds;
      DeliveredOfRounds(rounds[..last]);
      DeliveredAppend(AllTries(rounds[..last]), Tries(r.e, r.tries, r.delivered));
      DeliveredTries(r.e, r.tries, r.delivered);
    }
  }

  lemma NoRounds()
    ensures AllTries([]) == [] && Delivered([]) == DeliveredRounds([]) == []
  {}

  lemma NextRound(rounds: seq<Round>, r: Round)
    ensures AllTries(rounds + [r]) == AllTries(rounds) + Tries(r.e, r.tries, r.delivered)
  {
    assert (rounds + [r])[..|rounds|] == rounds;
  }

  class Injector {
    var eventSequence: u64

    constructor ()
      ensures eventSequence == 0
    {
      eventSequence := 0;
    }

    /** Up to twenty sends of one event. */
    method SendRound(w: FrameWriter, ev: Event) returns (delivered: bool, ghost tries: nat)
      requires w.Valid() && Sendable(ev)
      modifies w, w.conn
      ensures w.Valid() && (w.conn == old(w.conn) || w.conn == null || fresh(w.conn))
      ensures FairRound(Round(ev, tries, delivered))
      ensures w.calls == old(w.calls) + Tries(ev, tries, delivered)
    {
      hide Faithful, Sendable, SendStep;
      delivered := false;
      tries := 0;
      var attempt := 0;
      while attempt < 20 && !delivered
        invariant attempt <= 20 && tries == attempt && (delivered ==> tries >= 1)
        invariant w.Valid() && (w.conn == old(w.conn) || w.conn == null || fresh(w.conn))
        invariant w.calls == old(w.calls) + Tries(ev, tries, delivered)
        decreases 20 - attempt
      {
        ghost var before := w.calls;
        delivered := w.Send(ev);
        assert Tries(ev, tries + 1, delivered) == Tries(ev, tries, false) + [Call(ev, delivered)];
        assert w.calls == old(w.calls) + (Tries(ev, tries, false) + [Call(ev, delivered)]);
        attempt := attempt + 1;
        tries := tries + 1;
      }
    }

    /** The round of one synthetic event, under the next id. */
    method InjectOne(w: FrameWriter, i: nat) returns (ghost r: Round)
      requires w.Valid()
      modifies this, w, w.conn
      ensures w.Valid() && (w.conn == old(w.conn) || w.conn == null || fresh(w.conn))
      ensures eventSequence == r.e.eventId == (old(eventSequence) as int + 1) % TWO_64
      ensures FairRound(r) && w.calls == old(w.calls) + Tries(r.e, r.tries, r.delivered)
      ensures AlertOnly(r.e, i)
    {
      hide Faithful, Sendable, FairRound, Tries, ObserveEvent, SendStep, AlertOnly;
      eventSequence := (eventSequence as int + 1) % TWO_64;
      var wallMs: u64, monotonicNs: u64 := *, *;
      var ev := ObserveEvent(eventSequence, wallMs, monotonicNs, i);
      ObserveEventIsAlertOnly(eventSequence, wallMs, monotonicNs, i);
      var delivered, tries := SendRound(w, ev);
      r := Round(ev, tries, delivered);
    }

    /** Succeeds exactly when every one of the count events was delivered, each of them once. */
    method RunObserveInjection(w: FrameWriter, count: int) returns (ok: bool, ghost rounds: seq<Round>)
      requires w.Valid() && w.calls == []
      modifies this, w, w.conn
      ensures w.Valid() && w.calls == AllTries(rounds)
      ensures count < 1 ==> !ok && rounds == []
      ensures count >= 1 ==> |rounds| == count
      ensures forall r :: r in rounds ==> FairRound(r)
      ensures forall i :: 0 <= i < |rounds| ==> rounds[i].e.eventId == (old(eventSequence) as int + i + 1) % TWO_64
      ensures forall i :: 0 <= i < |rounds| ==> AlertOnly(rounds[i].e, i)
      ensures Delivered(w.calls) == DeliveredRounds(rounds)
      ensures count >= 1 ==> (ok <==> forall r :: r in rounds ==> r.delivered)
    {
      hide Faithful, Sendable, FairRound, Tries, ObserveEvent, Delivered, Undelivered, SendStep;
      hide AllTries, DeliveredRounds, AlertOnly;
      rounds := [];
      NoRounds();
      if count < 1 {
        return false, [];
      }
      for i := 0 to count
        invariant w.Valid() && (w.conn == old(w.conn) || w.conn == null || fresh(w.conn))
        invariant |rounds| == i && w.calls == AllTries(rounds)
        invariant eventSequence == (old(eventSequence) as int + i) % TWO_64
        invariant forall r :: r in rounds ==> FairRound(r)
        invariant forall j :: 0 <= j < i ==> AlertOnly(rounds[j].e, j)
        invariant forall j :: 0 <= j < i ==> rounds[j].e.eventId == (old(eventSequence) as int + j + 1) % TWO_64
      {
        ghost var r := InjectOne(w, i);
        NextRound(rounds, r);
        rounds := rounds + [r];
      }
      DeliveredOfRounds(rounds);
      w.Counts();
      var sent, dropped := w.Stats();
      ok := sent == count;
    }
  }
}
