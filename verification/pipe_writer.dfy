/** The length-prefixed stream the capture side writes, over short writes, errors and reconnects. */
module PipeWriter {
  import opened Bytes
  import opened Wire
  import opened Canonical

  const FRAME_SIZE: nat := 4 + WIRE_SIZE

  /** One frame: the payload length as four little-endian bytes, then the payload. */
  function Framed(payload: seq<byte>): seq<byte> {
    Le(4, |payload|) + payload
  }

  function FrameOf(e: Event): (f: seq<byte>)
    ensures |f| == FRAME_SIZE
  {
    Framed(Encode(e))
  }

  // ---------- The consumer's side of the protocol ----------

  datatype Reading = Reading(payloads: seq<seq<byte>>, rest: seq<byte>)

  /** Cuts a byte stream by its length prefixes; rest is what does not fill a frame. */
  function Split(w: seq<byte>): Reading {
    if |w| < 4 || |w| < 4 + LeValue(w[..4]) then
      Reading([], w)
    else
      var n := 4 + LeValue(w[..4]);
      var r := Split(w[n..]);
      Reading([w[4..n]] + r.payloads, r.rest)
  }

  function Join(payloads: seq<seq<byte>>): seq<byte> {
    if payloads == [] then [] else Framed(payloads[0]) + Join(payloads[1..])
  }

  lemma {:induction false} JoinOfSplit(w: seq<byte>)
    ensures w == Join(Split(w).payloads) + Split(w).rest
  {
    hide LeValue, Le;
    if |w| < 4 || |w| < 4 + LeValue(w[..4]) {
    } else {
      var n := 4 + LeValue(w[..4]);
      JoinOfSplit(w[n..]);
      LeOfLeValue(w[..4]);
      assert w == w[..4] + w[4..n] + w[n..];
      assert Split(w).payloads[1..] == Split(w[n..]).payloads;
    }
  }

  lemma SplitStep(w: seq<byte>, n: nat)
    requires |w| >= 4 && n == 4 + LeValue(w[..4])
    ensures |w| < n ==> Split(w) == Reading([], w)
    ensures n <= |w| ==> Split(w) == Reading([w[4..n]] + Split(w[n..]).payloads, Split(w[n..]).rest)
  {}

  lemma AppendKeepsFront(w: seq<byte>, x: seq<byte>, n: nat)
    requires 4 <= n <= |w|
    ensures (w + x)[..4] == w[..4] && (w + x)[4..n] == w[4..n] && (w + x)[n..] == w[n..] + x
  {}

  // Whole frames only: either nothing, or one frame and then whole frames again
  lemma FirstFrame(w: seq<byte>)
    requires Split(w).rest == []
    ensures w == [] ==> Split(w).payloads == []
    ensures w != [] ==> 4 <= |w| && 4 + LeValue(w[..4]) <= |w|
  {
    hide LeValue;
  }

  // Once everything so far is whole frames, more bytes are read on their own
  lemma {:induction false} SplitAppend(w: seq<byte>, x: seq<byte>)
    requires Split(w).rest == []
    ensures Split(w + x) == Reading(Split(w).payloads + Split(x).payloads, Split(x).rest)
  {
    hide Split, LeValue;
    FirstFrame(w);
    if w == [] {
      assert w + x == x;
    } else {
      var n := 4 + LeValue(w[..4]);
      SplitStep(w, n);
      SplitAppend(w[n..], x);
      AppendKeepsFront(w, x, n);
      SplitStep(w + x, n);
      assert [w[4..n]] + (Split(w[n..]).payloads + Split(x).payloads) == Split(w).payloads + Split(x).payloads;
    }
  }

  lemma SplitFrame(e: Event)
    ensures Split(FrameOf(e)) == Reading([Encode(e)], [])
  {
    hide Encode, LeValue, Pow256;
    var f := FrameOf(e);
    Widths();
    LeValueOfLe(4, WIRE_SIZE);
    assert f[..4] == Le(4, WIRE_SIZE) && f[4..FRAME_SIZE] == Encode(e) && f[FRAME_SIZE..] == [];
    assert Split(f[FRAME_SIZE..]) == Reading([], []);
  }

  // A frame that was cut off yields nothing
  lemma SplitPartial(e: Event, p: seq<byte>)
    requires p < FrameOf(e)
    ensures Split(p) == Reading([], p)
  {
    hide Encode, LeValue, Pow256;
    if |p| >= 4 {
      Widths();
      LeValueOfLe(4, WIRE_SIZE);
      assert p[..4] == FrameOf(e)[..4] == Le(4, WIRE_SIZE);
    }
  }

  // ---------- Send as a step on what was put on each connection ----------

  /** wires holds the bytes of every connection so far; while open, the last one is in use. */
  datatype Writer = Writer(wires: seq<seq<byte>>, open: bool, sent: nat, dropped: nat)

  datatype Call = Call(e: Event, ok: bool)

  predicate WellFormed(s: Writer) {
    s.open ==> |s.wires| > 0
  }

  /** One Send: delivered in full, dropped before the wire, or cut short and disconnected. */
  ghost predicate SendStep(s: Writer, e: Event, ok: bool, t: Writer)
    requires WellFormed(s)
  {
    if !Sendable(e) then
      !ok && t == s
    else if !s.open then
      && !ok && t.sent == s.sent && t.dropped == s.dropped + 1
      && t.wires == if t.open then s.wires + [[]] else s.wires
    else
      var last := |s.wires| - 1;
      && |t.wires| == |s.wires| && t.wires[..last] == s.wires[..last]
      && if ok then
           t.open && t.wires[last] == s.wires[last] + FrameOf(e) && t.sent == s.sent + 1 && t.dropped == s.dropped
         else
           && !t.open && t.sent == s.sent && t.dropped == s.dropped + 1
           && s.wires[last] <= t.wires[last] < s.wires[last] + FrameOf(e)
  }

  function Delivered(calls: seq<Call>): seq<Event> {
    if calls == [] then []
    else
      var c := calls[|calls| - 1];
      Delivered(calls[..|calls| - 1]) + if c.ok then [c.e] else []
  }

  /** Sends of valid events that did not get through. */
  function Undelivered(calls: seq<Call>): nat {
    if calls == [] then 0
    else
      var c := calls[|calls| - 1];
      Undelivered(calls[..|calls| - 1]) + if !c.ok && Sendable(c.e) then 1 else 0
  }

  function Payloads(es: seq<Event>): (ps: seq<seq<byte>>)
    ensures |ps| == |es|
  {
    if es == [] then [] else Payloads(es[..|es| - 1]) + [Encode(es[|es| - 1])]
  }

  /** What a consumer gets from all connections together. */
  function Received(wires: seq<seq<byte>>): seq<seq<byte>> {
    if wires == [] then [] else Received(wires[..|wires| - 1]) + Split(wires[|wires| - 1]).payloads
  }

  /** Nothing, or the beginning of one frame. */
  ghost predicate Partial(p: seq<byte>) {
    exists e :: p < FrameOf(e)
  }

  /** Whole frames, then at most one partial frame. */
  ghost predicate FramesThenPartial(w: seq<byte>) {
    w == Join(Split(w).payloads) + Split(w).rest && Partial(Split(w).rest)
  }

  /** The consumer has exactly the delivered events, in order, and no connection holds anything else. */
  ghost predicate Faithful(s: Writer, calls: seq<Call>) {
    && WellFormed(s)
    && Received(s.wires) == Payloads(Delivered(calls))
    && (forall i :: 0 <= i < |s.wires| ==> FramesThenPartial(s.wires[i]))
    && (s.open ==> Split(s.wires[|s.wires| - 1]).rest == [])
    && (forall c :: c in calls && c.ok ==> Sendable(c.e))
    && s.sent == |Delivered(calls)| && s.dropped == Undelivered(calls)
  }

  lemma EmptyIsPartial()
    ensures Partial([])
  {
    hide Encode, Framed;
    assert [] < FrameOf(ZERO_EVENT);
  }

  lemma LastCall(calls: seq<Call>, c: Call)
    ensures Delivered(calls + [c]) == if c.ok then Delivered(calls) + [c.e] else Delivered(calls)
    ensures Undelivered(calls + [c]) == Undelivered(calls) + if !c.ok && Sendable(c.e) then 1 else 0
  {
    assert (calls + [c])[..|calls|] == calls;
  }

  lemma PayloadsSnoc(es: seq<Event>, e: Event)
    ensures Payloads(es + [e]) == Payloads(es) + [Encode(e)]
  {
    hide Encode;
    assert (es + [e])[..|es|] == es;
  }

  lemma SendKeepsReceived(s: Writer, calls: seq<Call>, e: Event, ok: bool, t: Writer)
    requires Faithful(s, calls) && SendStep(s, e, ok, t)
    ensures Received(t.wires) == Payloads(Delivered(calls + [Call(e, ok)]))
  {
    hide Split, FrameOf, Encode, Payloads, Received;
    LastCall(calls, Call(e, ok));
    if Sendable(e) {
      if !s.open {
        FreshConnection(s.wires);
      } else {
        var last := |s.wires| - 1;
        OpenWireGrows(s.wires[last], e, ok, t.wires[last]);
        MoreReceived(s.wires, t.wires, if ok then [Encode(e)] else []);
        PayloadsSnoc(Delivered(calls), e);
      }
    }
  }

  lemma SendKeepsFrames(s: Writer, e: Event, ok: bool, t: Writer)
    requires WellFormed(s) && SendStep(s, e, ok, t)
    requires forall i :: 0 <= i < |s.wires| ==> FramesThenPartial(s.wires[i])
    requires s.open ==> Split(s.wires[|s.wires| - 1]).rest == []
    ensures forall i :: 0 <= i < |t.wires| ==> FramesThenPartial(t.wires[i])
    ensures WellFormed(t) && (t.open ==> Split(t.wires[|t.wires| - 1]).rest == [])
  {
    hide Split, FrameOf, Sendable, FramesThenPartial;
    FreshConnection(s.wires);
    if Sendable(e) && s.open {
      var last := |s.wires| - 1;
      OpenWireGrows(s.wires[last], e, ok, t.wires[last]);
      forall i | 0 <= i < last
        ensures FramesThenPartial(t.wires[i])
      {
        assert t.wires[i] == t.wires[..last][i] == s.wires[..last][i];
      }
    }
  }

  /** Send keeps the stream faithful, whatever the operating system does. */
  lemma SendKeepsFaithful(s: Writer, calls: seq<Call>, e: Event, ok: bool, t: Writer)
    requires Faithful(s, calls) && SendStep(s, e, ok, t)
    ensures Faithful(t, calls + [Call(e, ok)])
  {
    hide Split, FrameOf, Payloads, Received, Delivered, Undelivered, FramesThenPartial, Sendable;
    LastCall(calls, Call(e, ok));
    SendKeepsReceived(s, calls, e, ok, t);
    SendKeepsFrames(s, e, ok, t);
  }

  lemma FreshConnection(wires: seq<seq<byte>>)
    ensures Received(wires + [[]]) == Received(wires)
    ensures FramesThenPartial([]) && Split([]).rest == []
  {
    hide Encode, FrameOf, LeValue;
    assert (wires + [[]])[..|wires|] == wires;
    EmptyIsPartial();
  }

  lemma MoreReceived(wires: seq<seq<byte>>, after: seq<seq<byte>>, more: seq<seq<byte>>)
    requires |wires| == |after| > 0 && wires[..|wires| - 1] == after[..|wires| - 1]
    requires Split(after[|wires| - 1]).payloads == Split(wires[|wires| - 1]).payloads + more
    ensures Received(after) == Received(wires) + more
  {
    hide Split;
  }

  /** What one Send does to the bytes of the connection in use. */
  lemma OpenWireGrows(w: seq<byte>, e: Event, ok: bool, v: seq<byte>)
    requires Split(w).rest == []
    requires if ok then v == w + FrameOf(e) else w <= v < w + FrameOf(e)
    ensures Split(v).payloads == Split(w).payloads + if ok then [Encode(e)] else []
    ensures ok ==> Split(v).rest == []
    ensures FramesThenPartial(v)
  {
    hide FrameOf, Encode, LeValue;
    JoinOfSplit(v);
    EmptyIsPartial();
    if ok {
      SplitAppend(w, FrameOf(e));
      SplitFrame(e);
    } else {
      var p := v[|w|..];
      assert v == w + p && p < FrameOf(e);
      SplitAppend(w, p);
      SplitPartial(e, p);
    }
  }

  lemma {:induction false} PayloadAt(es: seq<Event>, i: nat)
    requires i < |es|
    ensures Payloads(es)[i] == Encode(es[i])
  {
    hide Encode;
    if i == |es| - 1 {
    } else {
      PayloadAt(es[..|es| - 1], i);
    }
  }

  lemma {:induction false} DeliveredCalls(calls: seq<Call>, i: nat)
    requires i < |Delivered(calls)|
    ensures exists c :: c in calls && c.ok && c.e == Delivered(calls)[i]
  {
    var last := |calls| - 1;
    if i == |Delivered(calls[..last])| {
      assert calls[last] in calls;
    } else {
      DeliveredCalls(calls[..last], i);
      var c :| c in calls[..last] && c.ok && c.e == Delivered(calls)[i];
      assert c in calls;
    }
  }

  /** Cutting every connection by its length prefixes and decoding gives back the delivered events. */
  lemma ConsumerRecoversEvents(s: Writer, calls: seq<Call>)
    requires Faithful(s, calls)
    ensures |Received(s.wires)| == |Delivered(calls)|
    ensures forall i :: 0 <= i < |Received(s.wires)| ==>
      var p := Received(s.wires)[i];
      |p| == WIRE_SIZE && Accepts(p) && Decode(p) == Delivered(calls)[i]
  {
    hide Encode, Accepts, Decode, Sendable, Payloads, Received, FramesThenPartial, Split;
    var es := Delivered(calls);
    forall i | 0 <= i < |es|
      ensures var p := Received(s.wires)[i];
        |p| == WIRE_SIZE && Accepts(p) && Decode(p) == es[i]
    {
      PayloadAt(es, i);
      DeliveredCalls(calls, i);
      DecodeOfEncode(es[i]);
    }
  }

  /** A run: the state a new writer starts in, then one Send after another. */
  ghost predicate IsRun(states: seq<Writer>, calls: seq<Call>) {
    && |states| == |calls| + 1
    && states[0] in {Writer([], false, 0, 0), Writer([[]], true, 0, 0)}
    && forall i :: 0 <= i < |calls| ==>
         WellFormed(states[i]) && SendStep(states[i], calls[i].e, calls[i].ok, states[i + 1])
  }

  lemma NewWriterIsFaithful(s: Writer)
    requires s in {Writer([], false, 0, 0), Writer([[]], true, 0, 0)}
    ensures Faithful(s, [])
  {
    hide Encode, FrameOf, FramesThenPartial, Split, Sendable;
    var none: seq<seq<byte>> := [];
    FreshConnection(none);
    assert none + [[]] == [[]];
  }

  /** Over any run of sends every connection carries the delivered events and nothing else. */
  lemma {:induction false} EveryRunIsFaithful(states: seq<Writer>, calls: seq<Call>)
    requires IsRun(states, calls)
    ensures Faithful(states[|calls|], calls)
  {
    hide SendStep, Faithful, Encode, FrameOf, Sendable;
    if calls == [] {
      NewWriterIsFaithful(states[0]);
    } else {
      var n := |calls| - 1;
      EveryRunIsFaithful(states[..n + 1], calls[..n]);
      SendKeepsFaithful(states[n], calls[..n], calls[n].e, calls[n].ok, states[n + 1]);
      assert calls == calls[..n] + [Call(calls[n].e, calls[n].ok)];
    }
  }

  // ---------- The imperative code ----------

  /** An open file. What the operating system does with a write is not known in advance:
      a write that reports an error, or a count that makes no sense, put out fewer bytes than given. */
  class PipeConn {
    var open: bool
    ghost var out: seq<byte>

    constructor ()
      ensures open && out == []
    {
      open := true;
      out := [];
    }

    method Write(b: seq<byte>) returns (n: int, err: bool)
      requires |b| > 0
      modifies this`out
      ensures
        if !err && 0 < n <= |b| then
          out == old(out) + b[..n]
        else
          old(out) <= out < old(out) + b
    {
      if !open {
        return 0, true;
      }
      n, err := *, *;
      if !err && 0 < n <= |b| {
        out := out + b[..n];
      } else {
        ghost var k: int := *;
        k := if 0 <= k < |b| then k else 0;
        out := out + b[..k];
      }
    }

    method WriteAll(frame: seq<byte>) returns (err: bool)
      modifies this`out
      ensures
        if !err then
          out == old(out) + frame
        else
          old(out) <= out < old(out) + frame
    {
      var b := frame;
      while |b| > 0
        invariant out + b == old(out) + frame
        invariant old(out) <= out
        decreases |b|
      {
        var n, failed := Write(b);
        if failed {
          return true;
        }
        if n <= 0 || n > |b| {
          return true;
        }
        b := b[n..];
      }
      return false;
    }

    method Close()
      modifies this`open
      ensures !open
    {
      open := false;
    }
  }

  class FrameWriter {
    var conn: PipeConn?
    var dropped: nat
    var sent: nat
    ghost var closed: seq<seq<byte>>
    ghost var calls: seq<Call>

    ghost function State(): Writer
      reads this, conn
    {
      Writer(closed + if conn == null then [] else [conn.out], conn != null, sent, dropped)
    }

    ghost predicate Valid()
      reads this, conn
    {
      (conn != null ==> conn.open) && Faithful(State(), calls)
    }

    constructor ()
      ensures Valid() && calls == [] && (conn != null ==> fresh(conn))
      ensures sent == 0 && dropped == 0
    {
      conn, dropped, sent := null, 0, 0;
      closed, calls := [], [];
      new;
      EnsureConnected();
      hide Faithful;
      assert State() == if conn == null then Writer([], false, 0, 0) else Writer([[]], true, 0, 0);
      NewWriterIsFaithful(State());
    }

    method EnsureConnected()
      requires conn != null ==> conn.open
      modifies this`conn
      ensures old(conn) != null ==> conn == old(conn)
      ensures conn != null && old(conn) == null ==> fresh(conn) && conn.open && conn.out == []
    {
      if conn != null && conn.open {
        return;
      }
      var dialled: bool := *;
      if dialled {
        conn := new PipeConn();
      }
    }

    method Send(e: Event) returns (ok: bool)
      requires Valid()
      modifies this, conn
      ensures Valid() && calls == old(calls) + [Call(e, ok)]
      ensures SendStep(old(State()), e, ok, State())
      ensures conn == old(conn) || conn == null || fresh(conn)
    {
      hide Faithful, Sendable, Encode, Slots, ZERO_EVENT, Accepts;
      ghost var before := State();
      var wire, valid := Serialize(e);
      if !valid {
        ok := false;
      } else if conn == null || !conn.open {
        dropped := dropped + 1;
        EnsureConnected();
        ok := false;
        assert closed + [] == closed;
      } else {
        var frame := Le(4, |wire[..]|) + wire[..];
        var werr := conn.WriteAll(frame);
        assert before.wires[..|closed|] == closed;
        if werr {
          dropped := dropped + 1;
          closed := closed + [conn.out];
          conn.Close();
          conn := null;
          ok := false;
          assert State().wires[..|closed| - 1] == before.wires[..|closed| - 1];
        } else {
          sent := sent + 1;
          ok := true;
          assert State().wires[..|closed|] == closed;
        }
      }
      calls := calls + [Call(e, ok)];
      SendKeepsFaithful(before, old(calls), e, ok, State());
    }

    lemma Counts()
      requires Valid()
      ensures sent == |Delivered(calls)| && dropped == Undelivered(calls)
    {}

    method Stats() returns (s: nat, d: nat)
      requires Valid()
      ensures s == sent == |Delivered(calls)| && d == dropped == Undelivered(calls)
    {
      s, d := sent, dropped;
    }
  }
}
