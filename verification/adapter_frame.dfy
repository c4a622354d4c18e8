/** The frames the C++ adapters build on initFrame, read by the Go codec. */
module AdapterFrame {
  import opened Bytes
  import opened Wire
  import opened Canonical

  datatype Kind = Process | Fim | Registry | Etw

  function SourceOf(kind: Kind): byte {
    match kind
    case Process => 13
    case Fim => 14
    case Registry => 15
    case Etw => 13
  }

  /** The event the frame of an adapter stands for; every field not named here is zero. */
  function AdapterEvent(kind: Kind, pid: u32, wallMs: u64, monotonicNs: u64): Event {
    ZERO_EVENT.(
      timestampMs := wallMs, monotonicNs := monotonicNs, source := SourceOf(kind),
      eventType := if kind.Etw? then 4 else 1, policyAction := 5, defconImpact := 5,
      pid := if kind.Etw? then 0 else pid, procType := if kind.Fim? then 1 else 0)
  }

  /** put16, put32 and put64: byte i is the value shifted right by 8 * i. */
  method Store(f: array<byte>, off: nat, n: nat, v: nat)
    requires off + n <= f.Length
    modifies f
    ensures f[off..off + n] == Le(n, v)
    ensures f[..off] == old(f[..off]) && f[off + n..] == old(f[off + n..])
  {
    for i := 0 to n
      invariant f[..off] == old(f[..off]) && f[off + n..] == old(f[off + n..])
      invariant f[off..off + i] == Le(n, v)[..i]
    {
      LeAt(n, v, i);
      ghost var done := f[off..off + i];
      f[off + i] := v / Pow256(i) % 256;
      assert f[off..off + i + 1] == done + [f[off + i]];
    }
  }

  /** A store at the offset of slot k sets that slot and leaves the other 32 alone. */
  method StoreSlot(f: array<byte>, ghost k: nat, off: nat, n: nat, v: nat)
    requires f.Length == WIRE_SIZE && k < SLOTS
    requires off == Offset(k) && off + n == Offset(k + 1) <= WIRE_SIZE && v < Pow256(n)
    modifies f
    ensures Unpack(f[..]) == old(Unpack(f[..]))[k := v]
  {
    hide Offset, LeValue;
    OffsetsAscend(k, k + 1);
    ghost var before := f[..];
    Store(f, off, n, v);
    SlotStored(before, f[..], k, v);
  }

  lemma SlotStored(before: seq<byte>, after: seq<byte>, k: nat, v: nat)
    requires |before| == |after| == WIRE_SIZE && k < SLOTS && v < Pow256(Width(k))
    requires 0 <= Offset(k) <= Offset(k + 1) <= WIRE_SIZE
    requires after[Offset(k)..Offset(k + 1)] == Le(Width(k), v)
    requires after[..Offset(k)] == before[..Offset(k)] && after[Offset(k + 1)..] == before[Offset(k + 1)..]
    ensures Unpack(after) == Unpack(before)[k := v]
  {
    hide Offset;
    LeValueOfLe(Width(k), v);
    OffsetsAscend(k, k + 1);
    OffsetsAscend(k + 1, SLOTS);
    forall j | 0 <= j < SLOTS
      ensures Field(after, j) == if j == k then v else Field(before, j)
    {
      OffsetsAscend(j, j + 1);
      OffsetsAscend(j + 1, SLOTS);
      if j < k {
        OffsetsAscend(j, k);
        SameSlice(after, before, 0, Offset(k), Offset(j), Offset(j + 1));
      } else if k < j {
        OffsetsAscend(k, j);
        SameSlice(after, before, Offset(k + 1), WIRE_SIZE, Offset(j), Offset(j + 1));
      }
    }
  }

  lemma SameSlice<T>(x: seq<T>, y: seq<T>, lo: nat, hi: nat, i: nat, j: nat)
    requires lo <= i <= j <= hi <= |x| && |x| == |y| && x[lo..hi] == y[lo..hi]
    ensures x[i..j] == y[i..j]
  {
    forall k | i <= k < j
      ensures x[k] == y[k]
    {
      assert x[k] == x[lo..hi][k - lo] && y[k] == y[lo..hi][k - lo];
    }
  }

  lemma ZeroFrame(b: seq<byte>)
    requires |b| == WIRE_SIZE && forall i :: 0 <= i < WIRE_SIZE ==> b[i] == 0
    ensures Unpack(b) == seq(SLOTS, _ => 0)
  {
    hide Offset;
    forall k | 0 <= k < SLOTS
      ensures Field(b, k) == 0
    {
      OffsetsAscend(k, k + 1);
      OffsetsAscend(k + 1, k + 1);
      LeValueOfZeros(b[Offset(k)..Offset(k + 1)]);
    }
  }

  method Clear(f: array<byte>)
    requires f.Length == WIRE_SIZE
    modifies f
    ensures Unpack(f[..]) == seq(SLOTS, _ => 0)
  {
    for i := 0 to WIRE_SIZE
      invariant forall j :: 0 <= j < i ==> f[j] == 0
    {
      f[i] := 0;
    }
    ZeroFrame(f[..]);
  }

  /** The slots initFrame leaves behind. */
  function InitialSlots(source: byte, eventType: u32, wallMs: u64, monotonicNs: u64): seq<nat> {
    Slots(ZERO_EVENT.(timestampMs := wallMs, monotonicNs := monotonicNs, source := source,
                      eventType := eventType, policyAction := 5, defconImpact := 5))
  }

  method InitFrame(f: array<byte>, source: byte, eventType: u32, wallMs: u64, monotonicNs: u64)
    requires f.Length == WIRE_SIZE
    modifies f
    ensures Unpack(f[..]) == InitialSlots(source, eventType, wallMs, monotonicNs)
  {
    hide Offset, Unpack, Slots, Pow256, InitialSlots, Field, Width;
    OffsetTable();
    Widths();
    Clear(f);
    StoreSlot(f, 0, 0, 4, EVENT_MAGIC);
    StoreSlot(f, 1, 4, 2, SCHEMA_VERSION);
    StoreSlot(f, 2, 6, 2, DEV_STRUCT_SIZE);
    StoreSlot(f, 4, 16, 8, wallMs);
    StoreSlot(f, 5, 24, 8, monotonicNs);
    StoreSlot(f, 6, 32, 1, source);
    StoreSlot(f, 16, 57, 4, eventType);
    StoreSlot(f, 17, 61, 1, 0);
    StoreSlot(f, 22, 86, 1, 5);
    StoreSlot(f, 24, 88, 1, 5);
    InitialStores(source, eventType, wallMs, monotonicNs);
  }

  lemma InitialStores(source: byte, eventType: u32, wallMs: u64, monotonicNs: u64)
    ensures seq(SLOTS, _ => 0)[0 := EVENT_MAGIC][1 := SCHEMA_VERSION][2 := DEV_STRUCT_SIZE][4 := wallMs]
              [5 := monotonicNs][6 := source][16 := eventType][17 := 0][22 := 5][24 := 5]
         == InitialSlots(source, eventType, wallMs, monotonicNs)
  {}

  lemma AdapterStores(kind: Kind, pid: u32, wallMs: u64, monotonicNs: u64)
    ensures var vs := InitialSlots(SourceOf(kind), if kind.Etw? then 4 else 1, wallMs, monotonicNs);
      Slots(AdapterEvent(kind, pid, wallMs, monotonicNs))
      == if kind.Etw? then vs else if kind.Fim? then vs[26 := pid][28 := 1] else vs[26 := pid]
    ensures Sendable(AdapterEvent(kind, pid, wallMs, monotonicNs))
  {}

  lemma SlotsDetermineFrame(b: seq<byte>, e: Event)
    requires |b| == WIRE_SIZE && Unpack(b) == Slots(e) && Sendable(e)
    ensures Accepts(b) && Decode(b) == e && Encode(e) == b
  {
    EventOfSlots(b, e);
    EncodeOfDecode(b);
  }

  /** Go accepts every adapter frame, reads the adapter's event from it, and writes the same bytes again. */
  method Poll(f: array<byte>, kind: Kind, pid: u32, wallMs: u64, monotonicNs: u64)
    requires f.Length == WIRE_SIZE
    modifies f
    ensures Accepts(f[..]) && Decode(f[..]) == AdapterEvent(kind, pid, wallMs, monotonicNs)
    ensures Encode(Decode(f[..])) == f[..]
    ensures FrameFields(f[..], kind, pid, wallMs, monotonicNs)
  {
    hide Offset, Unpack, Slots, Pow256, InitialSlots, Field, Width, Encode, Decode, Accepts, AdapterEvent, Sendable;
    OffsetTable();
    Widths();
    match kind {
      case Process =>
        InitFrame(f, 13, 1, wallMs, monotonicNs);
        StoreSlot(f, 26, 93, 4, pid);
      case Fim =>
        InitFrame(f, 14, 1, wallMs, monotonicNs);
        StoreSlot(f, 26, 93, 4, pid);
        StoreSlot(f, 28, 93 + 8, 1, 1);
      case Registry =>
        InitFrame(f, 15, 1, wallMs, monotonicNs);
        StoreSlot(f, 26, 93, 4, pid);
      case Etw =>
        InitFrame(f, 13, 4, wallMs, monotonicNs);
    }
    AdapterStores(kind, pid, wallMs, monotonicNs);
    SlotsDetermineFrame(f[..], AdapterEvent(kind, pid, wallMs, monotonicNs));
    FieldsOfFrame(f[..], kind, pid, wallMs, monotonicNs);
  }

  /** Byte by byte: the clocks, the source and type of the adapter, log only, level 5, and the process id and
      process type where the adapter gives them; no event id, address, payload or rule. */
  predicate FrameFields(b: seq<byte>, kind: Kind, pid: u32, wallMs: u64, monotonicNs: u64) {
    && |b| == 109
    && U32(b, 0) == 0x41454731 && U16(b, 4) == 1 && U16(b, 6) == 128
    && U64(b, 8) == 0 && U64(b, 16) == wallMs && U64(b, 24) == monotonicNs
    && (kind.Process? || kind.Etw? ==> b[32] == 13) && (kind.Fim? ==> b[32] == 14) && (kind.Registry? ==> b[32] == 15)
    && U32(b, 57) == (if kind.Etw? then 4 else 1)
    && b[61] == 0 && b[86] == 5 && b[87] == 0 && b[88] == 5
    && U32(b, 93) == (if kind.Etw? then 0 else pid) && U32(b, 97) == 0
    && b[101] == (if kind.Fim? then 1 else 0)
    && U32(b, 33) == 0 && U32(b, 39) == 0 && U32(b, 62) == 0 && U32(b, 74) == 0
  }

  lemma FieldsOfFrame(b: seq<byte>, kind: Kind, pid: u32, wallMs: u64, monotonicNs: u64)
    requires |b| == WIRE_SIZE && Accepts(b) && Decode(b) == AdapterEvent(kind, pid, wallMs, monotonicNs)
    ensures FrameFields(b, kind, pid, wallMs, monotonicNs)
  {
    hide U16, U32, U64;
  }
}
