/** The analytics codec: one struct format over a frozen record, checked against the Go codec. */
module PythonCodec {
  import opened Bytes
  import opened Wire
  import opened Canonical
  import Sequences

  /** The numeric slots of the struct format; the last 16 bytes are raw. */
  const NUMERIC: nat := 26
  const RESERVED: nat := 16
  const RESERVED_START: nat := 93

  // Python integers are unbounded: a value that does not fit its slot makes pack raise
  datatype PyEvent = PyEvent(
    eventId: int, timestampMs: int, monotonicNs: int, source: int, sourceIp: int, sourcePort: int, destIp: int,
    destPort: int, sessionId: int, protocol: int, direction: int, layerId: int, isPipe: int, eventType: int,
    severity: int, ruleId: int, rulesetVersion: int, payloadLength: int, payloadHash: int, policyAction: int,
    enforcementStatus: int, defconImpact: int, contextFlags: int, reserved: seq<byte>, structSize: int
  )

  const VALID_SOURCES: set<int> := {0, 1, 2, 3, 4, 5, 6, 7, 8, 9, 10, 11, 12, 13, 14, 15, 16, 255}
  const VALID_EVENT_TYPES: set<int> := {0, 1, 2, 3, 4, 5, 6, 7, 8, 9, 0xFFFF_FFFF}
  const VALID_POLICY_ACTIONS: set<int> := {0, 1, 2, 3, 4, 5}

  function Numbers(ev: PyEvent): (ns: seq<int>)
    ensures |ns| == NUMERIC
  {
    [
      EVENT_MAGIC, SCHEMA_VERSION, ev.structSize, ev.eventId, ev.timestampMs, ev.monotonicNs, ev.source,
      ev.sourceIp, ev.sourcePort, ev.destIp, ev.destPort, ev.sessionId, ev.protocol, ev.direction, ev.layerId,
      ev.isPipe, ev.eventType, ev.severity, ev.ruleId, ev.rulesetVersion, ev.payloadLength, ev.payloadHash,
      ev.policyAction, ev.enforcementStatus, ev.defconImpact, ev.contextFlags
    ]
  }

  predicate Packable(ns: seq<int>)
    requires |ns| == NUMERIC
  {
    forall k :: 0 <= k < NUMERIC ==> 0 <= ns[k] < Pow256(Width(k))
  }

  /** The 16s format: longer strings are cut, shorter ones filled up with zeros. */
  function Fill16(b: seq<byte>): (r: seq<byte>)
    ensures |r| == RESERVED
  {
    if |b| >= RESERVED then b[..RESERVED] else b + seq(RESERVED - |b|, _ => 0)
  }

  lemma FillMeans(b: seq<byte>, i: nat)
    requires i < RESERVED
    ensures Fill16(b)[i] == if i < |b| then b[i] else 0
  {}

  function PyEncode(ev: PyEvent): (r: Result<seq<byte>>)
    ensures r.Ok? ==> |r.value| == WIRE_SIZE
  {
    hide Numbers, Width, Pow256;
    OffsetTable();
    if Packable(Numbers(ev)) then Ok(Pack(Numbers(ev), NUMERIC) + Fill16(ev.reserved)) else Err
  }

  /** The checks of decode, on the unpacked numbers and the reserved bytes. */
  predicate Gates(f: seq<int>, reserved: seq<byte>)
    requires |f| >= NUMERIC && |reserved| == RESERVED
  {
    && f[0] == EVENT_MAGIC && f[1] == SCHEMA_VERSION
    && f[6] in VALID_SOURCES && f[16] in VALID_EVENT_TYPES && f[22] in VALID_POLICY_ACTIONS
    && reserved[15] <= 100
  }

  function RecordOf(f: seq<int>, reserved: seq<byte>): PyEvent
    requires |f| >= NUMERIC
  {
    PyEvent(
      f[3], f[4], f[5], f[6], f[7], f[8], f[9], f[10], f[11], f[12], f[13], f[14], f[15], f[16], f[17], f[18],
      f[19], f[20], f[21], f[22], f[23], f[24], f[25], reserved, f[2])
  }

  function PyDecode(b: seq<byte>): (r: Result<PyEvent>)
    ensures r.Ok? ==> |b| == WIRE_SIZE && |r.value.reserved| == RESERVED
  {
    if |b| != WIRE_SIZE then Err
    else if !Gates(Unpack(b), b[RESERVED_START..]) then Err
    else Ok(RecordOf(Unpack(b), b[RESERVED_START..]))
  }

  /** What decode checks, said of the record. */
  predicate PyValid(ev: PyEvent) {
    && ev.source in VALID_SOURCES && ev.eventType in VALID_EVENT_TYPES && ev.policyAction in VALID_POLICY_ACTIONS
    && |ev.reserved| == RESERVED && ev.reserved[15] <= 100
  }

  lemma NumbersOfRecord(f: seq<int>, reserved: seq<byte>)
    requires |f| == NUMERIC && f[0] == EVENT_MAGIC && f[1] == SCHEMA_VERSION
    ensures Numbers(RecordOf(f, reserved)) == f
  {}

  lemma RecordOfNumbers(f: seq<int>, ev: PyEvent, reserved: seq<byte>)
    requires |f| >= NUMERIC && f[..NUMERIC] == Numbers(ev)
    ensures RecordOf(f, reserved) == ev.(reserved := reserved)
    ensures |reserved| == RESERVED ==> (Gates(f, reserved) <==> PyValid(ev.(reserved := reserved)))
  {
    assert forall k :: 0 <= k < NUMERIC ==> f[k] == f[..NUMERIC][k];
  }

  lemma NumbersOfDecode(b: seq<byte>)
    requires PyDecode(b).Ok?
    ensures Numbers(PyDecode(b).value) == Unpack(b)[..NUMERIC]
  {
    hide Numbers, Wire.Unpack;
    var f: seq<int> := Unpack(b)[..NUMERIC];
    NumbersOfRecord(f, b[RESERVED_START..]);
    assert RecordOf(f, b[RESERVED_START..]) == PyDecode(b).value;
  }

  lemma {:induction false} PackAgrees(us: seq<nat>, vs: seq<nat>, k: nat)
    requires k <= |us| && k <= |vs| && k <= SLOTS
    requires us[..k] == vs[..k]
    ensures Pack(us, k) == Pack(vs, k)
  {
    if k == 0 {
    } else {
      assert us[k - 1] == us[..k][k - 1] && vs[k - 1] == vs[..k][k - 1];
      assert us[..k - 1] == us[..k][..k - 1] && vs[..k - 1] == vs[..k][..k - 1];
      PackAgrees(us, vs, k - 1);
    }
  }

  /** Decode then encode gives the frame back, struct-size tag and all 16 reserved bytes included. */
  lemma PyEncodeOfDecode(b: seq<byte>)
    requires PyDecode(b).Ok?
    ensures PyEncode(PyDecode(b).value) == Ok(b)
  {
    hide Numbers, Pack, Pow256, RecordOf, Gates, Offset, Wire.Unpack;
    OffsetTable();
    var ev := PyDecode(b).value;
    var vs := Unpack(b);
    NumbersOfDecode(b);
    PackUnpack(b);
    PackAgrees(Numbers(ev), vs, NUMERIC);
    PackPrefix(b, NUMERIC);
    DecodedPackable(b);
    KeepsReserved(b);
    assert b == b[..RESERVED_START] + b[RESERVED_START..];
  }

  lemma DecodedPackable(b: seq<byte>)
    requires PyDecode(b).Ok?
    ensures Packable(Numbers(PyDecode(b).value))
  {
    hide Numbers, Pow256, RecordOf, Gates, Wire.Unpack;
    NumbersOfDecode(b);
    PackUnpack(b);
    assert forall k :: 0 <= k < NUMERIC ==> Unpack(b)[..NUMERIC][k] == Unpack(b)[k];
  }

  lemma KeepsReserved(b: seq<byte>)
    requires PyDecode(b).Ok?
    ensures PyDecode(b).value.reserved == b[RESERVED_START..] == Fill16(b[RESERVED_START..])
  {
    hide Wire.Unpack, Gates;
  }

  // A packed number is read back whatever follows the numbers
  lemma PackedField(ns: seq<nat>, tail: seq<byte>, k: nat)
    requires |ns| == NUMERIC && |tail| == RESERVED && Packable(ns) && k < NUMERIC
    requires |Pack(ns, NUMERIC) + tail| == WIRE_SIZE
    ensures Field(Pack(ns, NUMERIC) + tail, k) == ns[k]
  {
    hide Offset, Le, LeValue, Width, Pack, Pow256;
    SlotOfPack(ns, NUMERIC, k);
    OffsetsAscend(k, NUMERIC);
    Slices(Pack(ns, NUMERIC), tail);
    LeValueOfLe(Width(k), ns[k]);
  }

  lemma PackedNumbers(ns: seq<nat>, tail: seq<byte>, b: seq<byte>)
    requires |ns| == NUMERIC && |tail| == RESERVED && Packable(ns)
    requires b == Pack(ns, NUMERIC) + tail && |b| == WIRE_SIZE
    ensures Unpack(b)[..NUMERIC] == ns && b[RESERVED_START..] == tail
  {
    hide Offset, Pack, Packable, Field;
    OffsetTable();
    forall k | 0 <= k < NUMERIC
      ensures Unpack(b)[..NUMERIC][k] == ns[k]
    {
      PackedField(ns, tail, k);
    }
  }

  lemma EncodedShape(ev: PyEvent)
    requires PyEncode(ev).Ok?
    ensures Packable(Numbers(ev)) && PyEncode(ev).value == Pack(Numbers(ev), NUMERIC) + Fill16(ev.reserved)
  {
    hide Numbers, Packable, Fill16, Pack;
  }

  lemma NotNegative(ns: seq<int>)
    requires |ns| == NUMERIC && Packable(ns)
    ensures forall k :: 0 <= k < NUMERIC ==> ns[k] >= 0
  {
    hide Width, Pow256;
  }

  /** The frame of a record reads back as that record's numbers and its filled-up reserved bytes. */
  lemma FrameFields(ev: PyEvent)
    requires PyEncode(ev).Ok?
    ensures var b := PyEncode(ev).value;
      Unpack(b)[..NUMERIC] == Numbers(ev) && b[RESERVED_START..] == Fill16(ev.reserved)
  {
    NotNegative(Numbers(ev));
    hide Numbers, Packable, Pack, PyEncode, Fill16, Wire.Unpack;
    EncodedShape(ev);
    PackedNumbers(Numbers(ev), Fill16(ev.reserved), PyEncode(ev).value);
  }

  /** Encode validates nothing: its frame decodes to the same record exactly for the valid records. */
  lemma PyDecodeOfEncode(ev: PyEvent)
    requires PyEncode(ev).Ok?
    ensures PyDecode(PyEncode(ev).value) == Ok(ev) <==> PyValid(ev)
  {
    hide Numbers, PyEncode, Wire.Unpack, RecordOf, Gates;
    var b := PyEncode(ev).value;
    FrameFields(ev);
    RecordOfNumbers(Unpack(b), ev, Fill16(ev.reserved));
    assert |ev.reserved| == RESERVED ==> Fill16(ev.reserved) == ev.reserved;
  }

  // ---------- Agreement with the Go codec ----------

  /** The Go event and the Python record name the same values. */
  predicate SameFields(e: Event, ev: PyEvent)
    requires |ev.reserved| == RESERVED
  {
    && e.eventId == ev.eventId
    && e.timestampMs == ev.timestampMs
    && e.monotonicNs == ev.monotonicNs
    && e.source == ev.source
    && e.sourceIp == ev.sourceIp
    && e.sourcePort == ev.sourcePort
    && e.destIp == ev.destIp
    && e.destPort == ev.destPort
    && e.sessionId == ev.sessionId
    && e.protocol == ev.protocol
    && e.direction == ev.direction
    && e.layerId == ev.layerId
    && e.isPipe == ev.isPipe
    && e.eventType == ev.eventType
    && e.severity == ev.severity
    && e.ruleId == ev.ruleId
    && e.rulesetVersion == ev.rulesetVersion
    && e.payloadLength == ev.payloadLength
    && e.payloadHash == ev.payloadHash
    && e.policyAction == ev.policyAction
    && e.enforcementStatus == ev.enforcementStatus
    && e.defconImpact == ev.defconImpact
    && e.contextFlags == ev.contextFlags
    && e.pid == U32(ev.reserved, 0) && e.ppid == U32(ev.reserved, 4)
    && e.procType == ev.reserved[8] && e.integrity == ev.reserved[9] && e.hidsFlag == ev.reserved[10]
    && e.nodeId == U32(ev.reserved, 11) && e.confidence == ev.reserved[15]
  }

  lemma ReservedReads(b: seq<byte>)
    requires |b| == WIRE_SIZE
    ensures var r := b[RESERVED_START..];
      && |r| == RESERVED
      && U32(b, 93) == U32(r, 0) && U32(b, 97) == U32(r, 4) && U32(b, 104) == U32(r, 11)
      && b[101] == r[8] && b[102] == r[9] && b[103] == r[10] && b[108] == r[15]
  {
    var r := b[RESERVED_START..];
    Sequences.SliceOfRest(b, RESERVED_START, 0, 4);
    Sequences.SliceOfRest(b, RESERVED_START, 4, 8);
    Sequences.SliceOfRest(b, RESERVED_START, 11, 15);
  }

  /** Go accepts a frame exactly when Python does and the struct-size tag is 128, and the fields agree. */
  lemma GoAgreesWithPython(b: seq<byte>)
    requires |b| == WIRE_SIZE
    ensures Accepts(b) <==> PyDecode(b).Ok? && PyDecode(b).value.structSize == DEV_STRUCT_SIZE
    ensures PyDecode(b).Ok? ==> SameFields(Decode(b), PyDecode(b).value)
  {
    hide ReadAll, Wire.Unpack, U16, U32, U64;
    ReadsAreSlots(b);
    ReadTable(b);
    ReservedReads(b);
  }

  /** A Python record's frame is a Go frame exactly when the record, its reserved bytes cut or filled up to
      16, is valid and tagged 128; the tag a record is given by default, 109, is refused. */
  lemma GoAcceptsPythonFrame(ev: PyEvent)
    requires PyEncode(ev).Ok?
    ensures Accepts(PyEncode(ev).value)
      <==> PyValid(ev.(reserved := Fill16(ev.reserved))) && ev.structSize == DEV_STRUCT_SIZE
    ensures ev.structSize == WIRE_SIZE ==> !Accepts(PyEncode(ev).value)
  {
    hide Numbers, PyEncode, Wire.Unpack, RecordOf, Gates, Accepts;
    var b := PyEncode(ev).value;
    GoAgreesWithPython(b);
    FrameFields(ev);
    RecordOfNumbers(Unpack(b), ev, Fill16(ev.reserved));
  }

  /** A record with nothing set but its source and its struct-size tag. */
  function Blank(source: int, structSize: int): PyEvent {
    PyEvent(0, 0, 0, source, 0, 0, 0, 0, 0, 0, 0, 0, 0, 0, 0, 0, 0, 0, 0, 0, 0, 0, 0,
            [0, 0, 0, 0, 0, 0, 0, 0, 0, 0, 0, 0, 0, 0, 0, 0], structSize)
  }

  lemma BlankIsPackable(source: byte, structSize: u16)
    ensures PyEncode(Blank(source, structSize)).Ok?
  {
    hide Pow256;
    Widths();
    assert Packable(Numbers(Blank(source, structSize)));
  }

  /** Source 17 is packed although no decoder takes it back. */
  lemma UnknownSourceIsPacked()
    ensures var ev := Blank(17, DEV_STRUCT_SIZE);
      PyEncode(ev).Ok? && !PyValid(ev) && PyDecode(PyEncode(ev).value) != Ok(ev)
  {
    hide PyEncode, PyDecode;
    BlankIsPackable(17, DEV_STRUCT_SIZE);
    PyDecodeOfEncode(Blank(17, DEV_STRUCT_SIZE));
  }

  /** A valid record left at the default tag survives in Python and is refused by Go; tagged 128 it is taken. */
  lemma DefaultTagIsRefused()
    ensures var ev := Blank(5, WIRE_SIZE);
      PyEncode(ev).Ok? && PyDecode(PyEncode(ev).value) == Ok(ev) && !Accepts(PyEncode(ev).value)
    ensures var ev := Blank(5, DEV_STRUCT_SIZE);
      PyEncode(ev).Ok? && Accepts(PyEncode(ev).value)
  {
    hide PyEncode, PyDecode, Accepts;
    BlankIsPackable(5, WIRE_SIZE);
    BlankIsPackable(5, DEV_STRUCT_SIZE);
    PyDecodeOfEncode(Blank(5, WIRE_SIZE));
    GoAcceptsPythonFrame(Blank(5, WIRE_SIZE));
    GoAcceptsPythonFrame(Blank(5, DEV_STRUCT_SIZE));
  }
}
