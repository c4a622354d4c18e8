/** The frozen 109-byte canonical event frame: 33 little-endian slots in a row. */
module Wire {
  import opened Bytes

  const WIRE_SIZE: nat := 109
  const SLOTS: nat := 33

  const EVENT_MAGIC: u32 := 0x41454731
  const SCHEMA_VERSION: u16 := 1
  const DEV_STRUCT_SIZE: u16 := 128

  /** The width of each slot in bytes. */
  function Width(k: nat): (w: nat)
    ensures 0 < w <= 8
  {
    if k == 3 || k == 4 || k == 5 || k == 11 || k == 19 || k == 21 then 8
    else if k == 0 || k == 7 || k == 9 || k == 16 || k == 18 || k == 20 || k == 25 || k == 26 || k == 27 || k == 31 then 4
    else if k == 1 || k == 2 || k == 8 || k == 10 then 2
    else 1
  }

  /** Where each slot starts: right after the one before. */
  function Offset(k: nat): nat {
    if k == 0 then 0 else Offset(k - 1) + Width(k - 1)
  }

  lemma OffsetTable()
    ensures
      Offset(0) == 0 && Offset(1) == 4 && Offset(2) == 6 && Offset(3) == 8 && Offset(4) == 16 &&
      Offset(5) == 24 && Offset(6) == 32 && Offset(7) == 33 && Offset(8) == 37 && Offset(9) == 39 &&
      Offset(10) == 43 && Offset(11) == 45 && Offset(12) == 53 && Offset(13) == 54 && Offset(14) == 55 &&
      Offset(15) == 56 && Offset(16) == 57 && Offset(17) == 61 && Offset(18) == 62 && Offset(19) == 66 &&
      Offset(20) == 74 && Offset(21) == 78 && Offset(22) == 86 && Offset(23) == 87 && Offset(24) == 88 &&
      Offset(25) == 89 && Offset(26) == 93 && Offset(27) == 97 && Offset(28) == 101 && Offset(29) == 102 &&
      Offset(30) == 103 && Offset(31) == 104 && Offset(32) == 108 && Offset(33) == 109
  {}

  lemma {:induction false} OffsetsAscend(j: nat, k: nat)
    requires j <= k <= SLOTS
    ensures Offset(j) <= Offset(k) <= Offset(SLOTS) == WIRE_SIZE
    ensures j < k ==> Offset(j) + Width(j) == Offset(j + 1) <= Offset(k)
    decreases k - j
  {
    if j == k {
    } else {
      OffsetsAscend(j, k - 1);
    }
    LastOffset(k);
  }

  lemma {:induction false} LastOffset(k: nat)
    requires k <= SLOTS
    ensures Offset(k) <= Offset(SLOTS) == WIRE_SIZE
    decreases SLOTS - k
  {
    if k < SLOTS {
      LastOffset(k + 1);
    } else {
      hide Offset;
      OffsetTable();
    }
  }

  ghost predicate Fits(vs: seq<nat>) {
    |vs| == SLOTS && forall k :: 0 <= k < SLOTS ==> vs[k] < Pow256(Width(k))
  }

  /** The first k slots written one after the other. */
  function Pack(vs: seq<nat>, k: nat): (b: seq<byte>)
    requires k <= |vs| && k <= SLOTS
    ensures |b| == Offset(k)
    decreases k
  {
    if k == 0 then [] else Pack(vs, k - 1) + Le(Width(k - 1), vs[k - 1])
  }

  /** All 33 slots: a whole frame. */
  function Frame(vs: seq<nat>): (b: seq<byte>)
    requires |vs| == SLOTS
    ensures |b| == WIRE_SIZE
  {
    OffsetsAscend(0, SLOTS);
    Pack(vs, SLOTS)
  }

  function Field(b: seq<byte>, k: nat): nat
    requires |b| == WIRE_SIZE && k < SLOTS
  {
    OffsetsAscend(k, k + 1);
    OffsetsAscend(k + 1, k + 1);
    LeValue(b[Offset(k)..Offset(k + 1)])
  }

  function Unpack(b: seq<byte>): (vs: seq<nat>)
    requires |b| == WIRE_SIZE
    ensures |vs| == SLOTS
  {
    seq(SLOTS, k requires 0 <= k < SLOTS => Field(b, k))
  }

  lemma Slices<T>(p: seq<T>, q: seq<T>)
    ensures forall i, j :: 0 <= i <= j <= |p| ==> (p + q)[i..j] == p[i..j]
    ensures (p + q)[|p|..|p| + |q|] == q
  {}

  lemma {:induction false} SlotOfPack(vs: seq<nat>, k: nat, j: nat)
    requires j < k <= SLOTS && k <= |vs|
    ensures Offset(j) <= Offset(j + 1) <= Offset(k)
    ensures Pack(vs, k)[Offset(j)..Offset(j + 1)] == Le(Width(j), vs[j])
  {
    hide Offset, Le, Width;
    OffsetsAscend(j, k);
    var p, q := Pack(vs, k - 1), Le(Width(k - 1), vs[k - 1]);
    assert Pack(vs, k) == p + q;
    Slices(p, q);
    if j + 1 < k {
      OffsetsAscend(j + 1, k - 1);
      SlotOfPack(vs, k - 1, j);
    }
  }

  /** Reading back what was written gives the values. */
  lemma UnpackPack(vs: seq<nat>)
    requires Fits(vs)
    ensures Unpack(Frame(vs)) == vs
  {
    hide Offset, Pack;
    OffsetsAscend(0, SLOTS);
    var b := Frame(vs);
    forall k | 0 <= k < SLOTS
      ensures Field(b, k) == vs[k]
    {
      SlotOfPack(vs, SLOTS, k);
      LeValueOfLe(Width(k), vs[k]);
    }
  }

  lemma {:induction false} PackPrefix(b: seq<byte>, k: nat)
    requires |b| == WIRE_SIZE && k <= SLOTS
    ensures Offset(k) <= |b| && Pack(Unpack(b), k) == b[..Offset(k)]
  {
    hide Offset, LeValue, Le, Width;
    OffsetsAscend(0, k);
    if k == 0 {
    } else {
      PackPrefix(b, k - 1);
      OffsetsAscend(k - 1, k);
      var part := b[Offset(k - 1)..Offset(k)];
      LeOfLeValue(part);
      assert Unpack(b)[k - 1] == LeValue(part);
      assert b[..Offset(k)] == b[..Offset(k - 1)] + part;
    }
  }

  /** Writing back what was read gives the bytes. */
  lemma PackUnpack(b: seq<byte>)
    requires |b| == WIRE_SIZE
    ensures Frame(Unpack(b)) == b && Fits(Unpack(b))
  {
    hide Offset, Pack;
    OffsetsAscend(0, SLOTS);
    PackPrefix(b, SLOTS);
    forall k | 0 <= k < SLOTS
      ensures Field(b, k) < Pow256(Width(k))
    {
      OffsetsAscend(k, k + 1);
      OffsetsAscend(k + 1, SLOTS);
    }
  }
}
