/** The Go encoder and decoder of the canonical event, and the Go event itself. */
module Canonical {
  import opened Bytes
  import opened Wire

  datatype Event = Event(
    eventId: u64, timestampMs: u64, monotonicNs: u64, source: byte, sourceIp: u32, sourcePort: u16, destIp: u32,
    destPort: u16, sessionId: u64, protocol: byte, direction: byte, layerId: byte, isPipe: byte, eventType: u32,
    severity: byte, ruleId: u32, rulesetVersion: u64, payloadLength: u32, payloadHash: u64, policyAction: byte,
    enforcementStatus: byte, defconImpact: byte, contextFlags: u32, pid: u32, ppid: u32, procType: byte,
    integrity: byte, hidsFlag: byte, nodeId: u32, confidence: byte
  )

  const ZERO_EVENT: Event := Event(
    0, 0, 0, 0, 0, 0, 0, 0, 0, 0, 0, 0, 0, 0, 0, 0, 0, 0, 0, 0, 0, 0, 0, 0, 0, 0, 0, 0, 0, 0)

  predicate ValidSource(s: byte) { s <= 16 || s == 255 }

  predicate ValidEventType(t: u32) { t <= 9 || t == 0xFFFF_FFFF }

  predicate ValidPolicyAction(a: byte) { a <= 5 }

  /** The events Serialize accepts. */
  predicate Sendable(e: Event) {
    ValidSource(e.source) && ValidEventType(e.eventType) && ValidPolicyAction(e.policyAction) && e.confidence <= 100
  }

  /** The values of the 33 slots: the three header marks, then the fields in wire order. */
  function Slots(e: Event): (vs: seq<nat>)
    ensures |vs| == SLOTS
  {
    [
      EVENT_MAGIC, SCHEMA_VERSION, DEV_STRUCT_SIZE, e.eventId, e.timestampMs, e.monotonicNs, e.source, e.sourceIp,
      e.sourcePort, e.destIp, e.destPort
    ] + [
      e.sessionId, e.protocol, e.direction, e.layerId, e.isPipe, e.eventType, e.severity, e.ruleId,
      e.rulesetVersion, e.payloadLength, e.payloadHash
    ] + [
      e.policyAction, e.enforcementStatus, e.defconImpact, e.contextFlags, e.pid, e.ppid, e.procType, e.integrity,
      e.hidsFlag, e.nodeId, e.confidence
    ]
  }

  /** The frame an event stands for. */
  function Encode(e: Event): (b: seq<byte>)
    ensures |b| == WIRE_SIZE
  {
    Frame(Slots(e))
  }

  // ---------- Reads at the offsets the decoders spell out ----------

  function U16(b: seq<byte>, off: nat): u16
    requires off + 2 <= |b|
  {
    Widths();
    LeValue(b[off..off + 2])
  }

  function U32(b: seq<byte>, off: nat): u32
    requires off + 4 <= |b|
  {
    Widths();
    LeValue(b[off..off + 4])
  }

  function U64(b: seq<byte>, off: nat): u64
    requires off + 8 <= |b|
  {
    Widths();
    LeValue(b[off..off + 8])
  }

  /** The gates a frame passes before any field is taken over. */
  predicate Accepts(b: seq<byte>)
    requires |b| == WIRE_SIZE
  {
    && U32(b, 0) == EVENT_MAGIC && U16(b, 4) == SCHEMA_VERSION && U16(b, 6) == DEV_STRUCT_SIZE
    && ValidSource(b[32]) && ValidEventType(U32(b, 57)) && ValidPolicyAction(b[86]) && b[108] <= 100
  }

  function Decode(b: seq<byte>): Event
    requires |b| == WIRE_SIZE
  {
    Event(
      U64(b, 8), U64(b, 16), U64(b, 24), b[32], U32(b, 33), U16(b, 37), U32(b, 39), U16(b, 43), U64(b, 45), b[53],
      b[54], b[55], b[56], U32(b, 57), b[61], U32(b, 62), U64(b, 66), U32(b, 74), U64(b, 78), b[86], b[87], b[88],
      U32(b, 89), U32(b, 93), U32(b, 97), b[101], b[102], b[103], U32(b, 104), b[108]
    )
  }

  lemma LeValueOfByte(b: seq<byte>)
    requires |b| == 1
    ensures LeValue(b) == b[0]
  {
    assert b[1..] == [];
  }

  /** What the decoders read, slot by slot, at their fixed offsets. */
  function ReadAll(b: seq<byte>): (vs: seq<nat>)
    requires |b| == WIRE_SIZE
    ensures |vs| == SLOTS
  {
    hide U16, U32, U64;
    [
      U32(b, 0), U16(b, 4), U16(b, 6), U64(b, 8), U64(b, 16), U64(b, 24), b[32], U32(b, 33), U16(b, 37), U32(b, 39),
      U16(b, 43)
    ] + [
      U64(b, 45), b[53], b[54], b[55], b[56], U32(b, 57), b[61], U32(b, 62), U64(b, 66), U32(b, 74), U64(b, 78)
    ] + [
      b[86], b[87], b[88], U32(b, 89), U32(b, 93), U32(b, 97), b[101], b[102], b[103], U32(b, 104), b[108]
    ]
  }

  lemma ReadTable(b: seq<byte>)
    requires |b| == WIRE_SIZE
    ensures var vs := ReadAll(b);
      vs[0] == U32(b, 0) && vs[1] == U16(b, 4) && vs[2] == U16(b, 6) && vs[3] == U64(b, 8) && vs[4] == U64(b, 16) &&
      vs[5] == U64(b, 24) && vs[6] == b[32] && vs[7] == U32(b, 33) && vs[8] == U16(b, 37) && vs[9] == U32(b, 39) &&
      vs[10] == U16(b, 43) && vs[11] == U64(b, 45) && vs[12] == b[53] && vs[13] == b[54] && vs[14] == b[55] &&
      vs[15] == b[56] && vs[16] == U32(b, 57) && vs[17] == b[61] && vs[18] == U32(b, 62) && vs[19] == U64(b, 66) &&
      vs[20] == U32(b, 74) && vs[21] == U64(b, 78) && vs[22] == b[86] && vs[23] == b[87] && vs[24] == b[88] &&
      vs[25] == U32(b, 89) && vs[26] == U32(b, 93) && vs[27] == U32(b, 97) && vs[28] == b[101] &&
      vs[29] == b[102] && vs[30] == b[103] && vs[31] == U32(b, 104) && vs[32] == b[108]
  {
    hide U16, U32, U64;
  }

  lemma LowRead(b: seq<byte>, k: nat)
    requires |b| == WIRE_SIZE && k < 16
    ensures Field(b, k) == ReadAll(b)[k]
  {
    hide LeValue, Le, Pow256, Offset;
    OffsetTable();
    LeValueOfByte(b[32..33]);
    LeValueOfByte(b[53..54]);
    LeValueOfByte(b[54..55]);
    LeValueOfByte(b[55..56]);
    LeValueOfByte(b[56..57]);
  }

  lemma HighRead(b: seq<byte>, k: nat)
    requires |b| == WIRE_SIZE && 16 <= k < SLOTS
    ensures Field(b, k) == ReadAll(b)[k]
  {
    hide LeValue, Le, Pow256, Offset;
    OffsetTable();
    LeValueOfByte(b[61..62]);
    LeValueOfByte(b[86..87]);
    LeValueOfByte(b[87..88]);
    LeValueOfByte(b[88..89]);
    LeValueOfByte(b[101..102]);
    LeValueOfByte(b[102..103]);
    LeValueOfByte(b[103..104]);
    LeValueOfByte(b[108..109]);
  }

  /** Each read at a fixed offset is the slot that starts there. */
  lemma ReadsAreSlots(b: seq<byte>)
    requires |b| == WIRE_SIZE
    ensures Unpack(b) == ReadAll(b)
  {
    forall k | 0 <= k < SLOTS
      ensures Field(b, k) == ReadAll(b)[k]
    {
      hide ReadAll, Field, Offset;
      if k < 16 { LowRead(b, k); } else { HighRead(b, k); }
    }
  }

  lemma SlotTable(e: Event)
    ensures var vs := Slots(e);
      vs[0] == EVENT_MAGIC && vs[1] == SCHEMA_VERSION && vs[2] == DEV_STRUCT_SIZE && vs[3] == e.eventId &&
      vs[4] == e.timestampMs && vs[5] == e.monotonicNs && vs[6] == e.source && vs[7] == e.sourceIp &&
      vs[8] == e.sourcePort && vs[9] == e.destIp && vs[10] == e.destPort && vs[11] == e.sessionId &&
      vs[12] == e.protocol && vs[13] == e.direction && vs[14] == e.layerId && vs[15] == e.isPipe &&
      vs[16] == e.eventType && vs[17] == e.severity && vs[18] == e.ruleId && vs[19] == e.rulesetVersion &&
      vs[20] == e.payloadLength && vs[21] == e.payloadHash && vs[22] == e.policyAction &&
      vs[23] == e.enforcementStatus && vs[24] == e.defconImpact && vs[25] == e.contextFlags && vs[26] == e.pid &&
      vs[27] == e.ppid && vs[28] == e.procType && vs[29] == e.integrity && vs[30] == e.hidsFlag &&
      vs[31] == e.nodeId && vs[32] == e.confidence
  {}

  lemma LowSlotFits(e: Event, k: nat)
    requires k < 16
    ensures Slots(e)[k] < Pow256(Width(k))
  {
    Widths();
  }

  lemma HighSlotFits(e: Event, k: nat)
    requires 16 <= k < SLOTS
    ensures Slots(e)[k] < Pow256(Width(k))
  {
    Widths();
  }

  lemma SlotsFit(e: Event)
    ensures Fits(Slots(e))
  {
    forall k | 0 <= k < SLOTS
      ensures Slots(e)[k] < Pow256(Width(k))
    {
      hide Slots;
      if k < 16 { LowSlotFits(e, k); } else { HighSlotFits(e, k); }
    }
  }

  lemma SlotsOfDecode(b: seq<byte>)
    requires |b| == WIRE_SIZE && Accepts(b)
    ensures Slots(Decode(b)) == Unpack(b)
  {
    ReadsAreSlots(b);
  }

  /** Every event Serialize accepts comes back from its frame unchanged. */
  lemma DecodeOfEncode(e: Event)
    requires Sendable(e)
    ensures Accepts(Encode(e)) && Decode(Encode(e)) == e
  {
    var b := Encode(e);
    SlotsFit(e);
    UnpackPack(Slots(e));
    EventOfSlots(b, e);
  }

  lemma EventOfSlots(b: seq<byte>, e: Event)
    requires |b| == WIRE_SIZE && Unpack(b) == Slots(e) && Sendable(e)
    ensures Accepts(b) && Decode(b) == e
  {
    hide ReadAll, Slots, U16, U32, U64;
    ReadsAreSlots(b);
    ReadTable(b);
    SlotTable(e);
  }

  /** Every accepted frame is the frame of its event, and that event can be sent. */
  lemma EncodeOfDecode(b: seq<byte>)
    requires |b| == WIRE_SIZE && Accepts(b)
    ensures Sendable(Decode(b)) && Encode(Decode(b)) == b
  {
    SlotsOfDecode(b);
    PackUnpack(b);
  }

  // ---------- The imperative code ----------

  /** Stores the n low-order bytes of v from off on, least significant first. */
  method Put(b: array<byte>, off: nat, n: nat, v: nat)
    requires off + n <= b.Length
    modifies b
    ensures b[..] == old(b[..off]) + Le(n, v) + old(b[off + n..])
  {
    var rest := v;
    for i := 0 to n
      invariant b[..off] == old(b[..off]) && b[off + n..] == old(b[off + n..])
      invariant b[off..off + i] + Le(n - i, rest) == Le(n, v)
    {
      ghost var done := b[off..off + i];
      b[off + i] := rest % 256;
      rest := rest / 256;
      assert b[off..off + i + 1] == done + [b[off + i]];
    }
    assert b[..] == b[..off] + b[off..off + n] + b[off + n..];
  }

  method PutSlot(b: array<byte>, ghost vs: seq<nat>, ghost k: nat, off: nat, n: nat, v: nat)
    requires b.Length == WIRE_SIZE && |vs| == SLOTS && k < SLOTS
    requires off == Offset(k) && n == Width(k) && v == vs[k]
    requires off + n <= WIRE_SIZE
    requires b[..off] == Pack(vs, k)
    modifies b
    ensures b[..off + n] == Pack(vs, k + 1)
  {
    Put(b, off, n, v);
    assert b[..off + n] == old(b[..off]) + Le(n, v);
  }

  lemma EncodeIsPack(e: Event)
    ensures Pack(Slots(e), 0) == [] && Encode(e) == Pack(Slots(e), SLOTS)
  {
    hide Slots;
  }

  // Serialize in six stretches, each continuing where the last one stopped
  method PutHeader(b: array<byte>, e: Event)
    requires b.Length == WIRE_SIZE && b[..0] == Pack(Slots(e), 0)
    modifies b
    ensures b[..32] == Pack(Slots(e), 6)
  {
    hide Offset, Pack, Pow256, Slots;
    OffsetTable();
    SlotTable(e);
    ghost var vs := Slots(e);
    PutSlot(b, vs, 0, 0, 4, EVENT_MAGIC);
    PutSlot(b, vs, 1, 4, 2, SCHEMA_VERSION);
    PutSlot(b, vs, 2, 6, 2, DEV_STRUCT_SIZE);
    PutSlot(b, vs, 3, 8, 8, e.eventId);
    PutSlot(b, vs, 4, 16, 8, e.timestampMs);
    PutSlot(b, vs, 5, 24, 8, e.monotonicNs);
  }

  method PutAddresses(b: array<byte>, e: Event)
    requires b.Length == WIRE_SIZE && b[..32] == Pack(Slots(e), 6)
    modifies b
    ensures b[..53] == Pack(Slots(e), 12)
  {
    hide Offset, Pack, Pow256, Slots;
    OffsetTable();
    SlotTable(e);
    ghost var vs := Slots(e);
    PutSlot(b, vs, 6, 32, 1, e.source);
    PutSlot(b, vs, 7, 33, 4, e.sourceIp);
    PutSlot(b, vs, 8, 37, 2, e.sourcePort);
    PutSlot(b, vs, 9, 39, 4, e.destIp);
    PutSlot(b, vs, 10, 43, 2, e.destPort);
    PutSlot(b, vs, 11, 45, 8, e.sessionId);
  }

  method PutFlow(b: array<byte>, e: Event)
    requires b.Length == WIRE_SIZE && b[..53] == Pack(Slots(e), 12)
    modifies b
    ensures b[..62] == Pack(Slots(e), 18)
  {
    hide Offset, Pack, Pow256, Slots;
    OffsetTable();
    SlotTable(e);
    ghost var vs := Slots(e);
    PutSlot(b, vs, 12, 53, 1, e.protocol);
    PutSlot(b, vs, 13, 54, 1, e.direction);
    PutSlot(b, vs, 14, 55, 1, e.layerId);
    PutSlot(b, vs, 15, 56, 1, e.isPipe);
    PutSlot(b, vs, 16, 57, 4, e.eventType);
    PutSlot(b, vs, 17, 61, 1, e.severity);
  }

  method PutPayload(b: array<byte>, e: Event)
    requires b.Length == WIRE_SIZE && b[..62] == Pack(Slots(e), 18)
    modifies b
    ensures b[..87] == Pack(Slots(e), 23)
  {
    hide Offset, Pack, Pow256, Slots;
    OffsetTable();
    SlotTable(e);
    ghost var vs := Slots(e);
    PutSlot(b, vs, 18, 62, 4, e.ruleId);
    PutSlot(b, vs, 19, 66, 8, e.rulesetVersion);
    PutSlot(b, vs, 20, 74, 4, e.payloadLength);
    PutSlot(b, vs, 21, 78, 8, e.payloadHash);
    PutSlot(b, vs, 22, 86, 1, e.policyAction);
  }

  method PutVerdict(b: array<byte>, e: Event)
    requires b.Length == WIRE_SIZE && b[..87] == Pack(Slots(e), 23)
    modifies b
    ensures b[..101] == Pack(Slots(e), 28)
  {
    hide Offset, Pack, Pow256, Slots;
    OffsetTable();
    SlotTable(e);
    ghost var vs := Slots(e);
    PutSlot(b, vs, 23, 87, 1, e.enforcementStatus);
    PutSlot(b, vs, 24, 88, 1, e.defconImpact);
    PutSlot(b, vs, 25, 89, 4, e.contextFlags);
    PutSlot(b, vs, 26, 93, 4, e.pid);
    PutSlot(b, vs, 27, 97, 4, e.ppid);
  }

  method PutProcess(b: array<byte>, e: Event)
    requires b.Length == WIRE_SIZE && b[..101] == Pack(Slots(e), 28)
    modifies b
    ensures b[..109] == Pack(Slots(e), 33)
  {
    hide Offset, Pack, Pow256, Slots;
    OffsetTable();
    SlotTable(e);
    ghost var vs := Slots(e);
    PutSlot(b, vs, 28, 101, 1, e.procType);
    PutSlot(b, vs, 29, 102, 1, e.integrity);
    PutSlot(b, vs, 30, 103, 1, e.hidsFlag);
    PutSlot(b, vs, 31, 104, 4, e.nodeId);
    PutSlot(b, vs, 32, 108, 1, e.confidence);
  }

  method Serialize(e: Event) returns (b: array<byte>, ok: bool)
    ensures fresh(b) && b.Length == WIRE_SIZE
    ensures ok <==> Sendable(e)
    ensures ok ==> b[..] == Encode(e)
    ensures !ok ==> forall i :: 0 <= i < WIRE_SIZE ==> b[i] == 0
  {
    hide Slots, Pack, Encode;
    b := new byte[WIRE_SIZE](_ => 0);
    ok := false;
    if !ValidSource(e.source) { return; }
    if !ValidEventType(e.eventType) { return; }
    if !ValidPolicyAction(e.policyAction) { return; }
    if e.confidence > 100 { return; }
    EncodeIsPack(e);
    PutHeader(b, e);
    PutAddresses(b, e);
    PutFlow(b, e);
    PutPayload(b, e);
    PutVerdict(b, e);
    PutProcess(b, e);
    ok := true;
    assert b[..] == b[..WIRE_SIZE];
  }

  /** The receiver of Deserialize: a variable holding an event. */
  class EventVar {
    var e: Event

    constructor ()
      ensures e == ZERO_EVENT
    {
      e := ZERO_EVENT;
    }

    method Deserialize(b: seq<byte>) returns (ok: bool)
      requires |b| == WIRE_SIZE
      modifies this
      ensures ok <==> Accepts(b)
      ensures e == if ok then Decode(b) else old(e)
    {
      if U32(b, 0) != EVENT_MAGIC { return false; }
      if U16(b, 4) != SCHEMA_VERSION { return false; }
      if U16(b, 6) != DEV_STRUCT_SIZE { return false; }
      if !ValidSource(b[32]) { return false; }
      if !ValidEventType(U32(b, 57)) { return false; }
      if !ValidPolicyAction(b[86]) { return false; }
      if b[93 + 15] > 100 { return false; }
      e := Event(
        U64(b, 8), U64(b, 16), U64(b, 24), b[32], U32(b, 33), U16(b, 37), U32(b, 39), U16(b, 43), U64(b, 45), b[53],
        b[54], b[55], b[56], U32(b, 57), b[61], U32(b, 62), U64(b, 66), U32(b, 74), U64(b, 78), b[86], b[87], b[88],
        U32(b, 89), U32(b, 93), U32(b, 97), b[101], b[102], b[103], U32(b, 104), b[108]
      );
      return true;
    }
  }

  datatype Result<+T> = Ok(value: T) | Err

  /** The free decoder of the golden-vector path: any length, one field at a time. */
  method DeserializeBytes(b: seq<byte>) returns (r: Result<Event>)
    ensures r == if |b| == WIRE_SIZE && Accepts(b) then Ok(Decode(b)) else Err
  {
    if |b| != WIRE_SIZE { return Err; }
    if U32(b, 0) != EVENT_MAGIC { return Err; }
    if U16(b, 4) != SCHEMA_VERSION { return Err; }
    if U16(b, 6) != DEV_STRUCT_SIZE { return Err; }
    if !ValidSource(b[32]) { return Err; }
    if !ValidEventType(U32(b, 57)) { return Err; }
    if !ValidPolicyAction(b[86]) { return Err; }
    if b[93 + 15] > 100 { return Err; }
    var e := ZERO_EVENT;
    e := e.(eventId := U64(b, 8));
    e := e.(timestampMs := U64(b, 16));
    e := e.(monotonicNs := U64(b, 24));
    e := e.(source := b[32]);
    e := e.(sourceIp := U32(b, 33));
    e := e.(sourcePort := U16(b, 37));
    e := e.(destIp := U32(b, 39));
    e := e.(destPort := U16(b, 43));
    e := e.(sessionId := U64(b, 45));
    e := e.(protocol := b[53]);
    e := e.(direction := b[54]);
    e := e.(layerId := b[55]);
    e := e.(isPipe := b[56]);
    e := e.(eventType := U32(b, 57));
    e := e.(severity := b[61]);
    e := e.(ruleId := U32(b, 62));
    e := e.(rulesetVersion := U64(b, 66));
    e := e.(payloadLength := U32(b, 74));
    e := e.(payloadHash := U64(b, 78));
    e := e.(policyAction := b[86]);
    e := e.(enforcementStatus := b[87]);
    e := e.(defconImpact := b[88]);
    e := e.(contextFlags := U32(b, 89));
    e := e.(pid := U32(b, 93));
    e := e.(ppid := U32(b, 97));
    e := e.(procType := b[101]);
    e := e.(integrity := b[102]);
    e := e.(hidsFlag := b[103]);
    e := e.(nodeId := U32(b, 104));
    e := e.(confidence := b[108]);
    return Ok(e);
  }
}
