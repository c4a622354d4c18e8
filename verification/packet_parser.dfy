/** The bounds-checked IPv4 / TCP / UDP / ICMP parser and the events made from parsed packets. */
module PacketParser {
  import opened Bytes
  import opened Bridge
  import opened Options

  const PROTO_ICMP: byte := 1
  const PROTO_TCP: byte := 6
  const PROTO_UDP: byte := 17

  const PARSE_SUCCESS: int := 0
  const PARSE_TRUNCATED: int := -1
  const PARSE_MALFORMED: int := -2
  const PARSE_UNKNOWN_PROTO: int := -3

  // ---------- Which packets are well formed (RFC 791 section 3.1, RFC 9293 section 3.1) ----------

  function Ihl(b: seq<byte>): nat
    requires |b| >= 20
  {
    4 * (b[0] % 16)
  }

  /** The big-endian total length field. */
  function TotalLength(b: seq<byte>): nat
    requires |b| >= 20
  {
    b[2] as int * 256 + b[3] as int
  }

  predicate IpHeaderOk(b: seq<byte>) {
    |b| >= 20 && b[0] / 16 == 4 && Ihl(b) >= 20 && TotalLength(b) >= Ihl(b) && |b| >= Ihl(b)
  }

  function Protocol(b: seq<byte>): byte
    requires |b| >= 20
  {
    b[9]
  }

  /** The bytes the transport header takes, options included. */
  function TransportHeader(b: seq<byte>): nat
    requires IpHeaderOk(b)
  {
    if Protocol(b) != PROTO_TCP then 8
    else if |b| < Ihl(b) + 20 then 20
    else 4 * (b[Ihl(b) + 12] / 16)
  }

  predicate TransportOk(b: seq<byte>)
    requires IpHeaderOk(b)
  {
    if Protocol(b) == PROTO_TCP then
      |b| >= Ihl(b) + 20 && TransportHeader(b) >= 20 && |b| >= Ihl(b) + TransportHeader(b)
    else
      |b| >= Ihl(b) + 8
  }

  predicate WellFormed(b: seq<byte>) {
    IpHeaderOk(b) && Protocol(b) in {PROTO_TCP, PROTO_UDP, PROTO_ICMP} && TransportOk(b)
  }

  function Payload(b: seq<byte>): (p: seq<byte>)
    requires WellFormed(b)
    ensures Ihl(b) + TransportHeader(b) + |p| == |b|
  {
    b[Ihl(b) + TransportHeader(b)..]
  }

  /** The status a packet gets. */
  function StatusOf(b: seq<byte>): int {
    if |b| < 20 then PARSE_TRUNCATED
    else if !IpHeaderOk(b) then PARSE_MALFORMED
    else if Protocol(b) !in {PROTO_TCP, PROTO_UDP, PROTO_ICMP} then PARSE_UNKNOWN_PROTO
    else if !TransportOk(b) then PARSE_MALFORMED
    else PARSE_SUCCESS
  }

  /** Success is exactly well-formedness. */
  lemma SuccessIsWellFormed(b: seq<byte>)
    ensures StatusOf(b) == PARSE_SUCCESS <==> WellFormed(b)
  {}

  /** Every test of the parser, byte by byte: version 4, header at least 20 bytes and inside both the buffer and
      the total length; TCP with a header of at least 20 bytes inside the buffer, UDP or ICMP with 8 bytes. */
  lemma AcceptedPackets(b: seq<byte>)
    ensures StatusOf(b) == 0 <==>
      && |b| >= 20 && b[0] / 16 == 4
      && var at := 4 * (b[0] % 16);
      && 20 <= at <= |b| && at <= b[2] as int * 256 + b[3] as int
      && ((b[9] == 6 && at + 20 <= |b| && 20 <= 4 * (b[at + 12] / 16) <= |b| - at)
          || ((b[9] == 17 || b[9] == 1) && at + 8 <= |b|))
    ensures StatusOf(b) == -1 <==> |b| < 20
    ensures StatusOf(b) == -3 ==> |b| >= 20 && b[9] != 1 && b[9] != 6 && b[9] != 17
    ensures -3 <= StatusOf(b) <= 0
  {}

  // ---------- The parser: positions into the buffer instead of copies ----------

  datatype ParseResult = ParseResult(
    status: int, ip: Option<nat>, tcp: Option<nat>, udp: Option<nat>, icmp: Option<nat>,
    payload: Option<nat>, payloadLength: nat, protocol: byte)

  /** Reads the version, header and length fields; a load of the 16-bit length on a little-endian host
      is swapped back to the value on the wire. */
  method ParseIp(data: array?<byte>, len: nat) returns (status: int)
    requires data != null ==> data.Length == len
    ensures data == null ==> status == PARSE_MALFORMED
    ensures data != null ==>
      status == if len < 20 then PARSE_TRUNCATED else if IpHeaderOk(data[..]) then PARSE_SUCCESS else PARSE_MALFORMED
  {
    if data == null {
      return PARSE_MALFORMED;
    }
    if len < 20 {
      return PARSE_TRUNCATED;
    }
    var version := data[0] / 16 % 16;
    if version != 4 {
      return PARSE_MALFORMED;
    }
    var ihl := data[0] % 16;
    if ihl < 5 {
      return PARSE_MALFORMED;
    }
    Swapped(data[2], data[3]);
    var loaded: u16 := data[2] as int + 256 * data[3] as int;
    var totalLen: u16 := loaded / 256 % 256 + loaded % 256 * 256;
    var headerLen := ihl as int * 4;
    if totalLen < headerLen || len < headerLen {
      return PARSE_MALFORMED;
    }
    return PARSE_SUCCESS;
  }

  lemma Swapped(high: byte, low: byte)
    ensures var loaded := high as int + 256 * low as int;
      loaded / 256 % 256 + loaded % 256 * 256 == high as int * 256 + low as int
  {}

  method ParseTcp(data: array<byte>, start: nat) returns (status: int)
    requires start <= data.Length
    ensures status ==
      var n := data.Length - start;
      if n < 20 then PARSE_TRUNCATED
      else if data[start + 12] < 80 then PARSE_MALFORMED
      else if n < 4 * (data[start + 12] / 16) then PARSE_TRUNCATED
      else PARSE_SUCCESS
  {
    var n := data.Length - start;
    if n < 20 {
      return PARSE_TRUNCATED;
    }
    var dataOffset := data[start + 12] / 16 % 16;
    if dataOffset < 5 {
      return PARSE_MALFORMED;
    }
    if n < dataOffset as int * 4 {
      return PARSE_TRUNCATED;
    }
    return PARSE_SUCCESS;
  }

  /** The generic parser: only the length is checked. */
  method ParseFixed(data: array<byte>, start: nat, size: nat) returns (status: int)
    requires start <= data.Length
    ensures status == if data.Length - start < size then PARSE_TRUNCATED else PARSE_SUCCESS
  {
    return if data.Length - start < size then PARSE_TRUNCATED else PARSE_SUCCESS;
  }

  /** What ParsePacket reports for the bytes of a packet. */
  function Parsed(b: seq<byte>): ParseResult {
    var none := ParseResult(StatusOf(b), None, None, None, None, None, 0, 0);
    if !IpHeaderOk(b) then none
    else
      var ip := none.(ip := Some(0), protocol := Protocol(b));
      if !WellFormed(b) then ip
      else
        var at := Some(Ihl(b));
        ip.(tcp := if Protocol(b) == PROTO_TCP then at else None,
            udp := if Protocol(b) == PROTO_UDP then at else None,
            icmp := if Protocol(b) == PROTO_ICMP then at else None,
            payload := Some(Ihl(b) + TransportHeader(b)),
            payloadLength := |Payload(b)|)
  }

  method ParsePacket(data: array?<byte>, len: nat) returns (r: ParseResult)
    requires data != null ==> data.Length == len
    ensures data == null ==> r == ParseResult(PARSE_MALFORMED, None, None, None, None, None, 0, 0)
    ensures data != null ==> r == Parsed(data[..])
  {
    r := ParseResult(PARSE_SUCCESS, None, None, None, None, None, 0, 0);
    var ipStatus := ParseIp(data, len);
    if ipStatus != PARSE_SUCCESS {
      r := r.(status := ipStatus);
      return;
    }
    r := r.(ip := Some(0));
    var ipHeaderLen := data[0] as int % 16 * 4;
    r := r.(protocol := data[9]);
    var transportLen := len - ipHeaderLen;
    match data[9] {
      case 6 =>
        var status := ParseTcp(data, ipHeaderLen);
        if status == PARSE_SUCCESS {
          var tcpHeaderLen := data[ipHeaderLen + 12] as int / 16 % 16 * 4;
          r := r.(tcp := Some(ipHeaderLen), payload := Some(ipHeaderLen + tcpHeaderLen),
                  payloadLength := transportLen - tcpHeaderLen);
        } else {
          r := r.(status := PARSE_MALFORMED);
        }
      case 17 =>
        var status := ParseFixed(data, ipHeaderLen, 8);
        if status == PARSE_SUCCESS {
          r := r.(udp := Some(ipHeaderLen), payload := Some(ipHeaderLen + 8), payloadLength := transportLen - 8);
        } else {
          r := r.(status := PARSE_MALFORMED);
        }
      case 1 =>
        var status := ParseFixed(data, ipHeaderLen, 8);
        if status == PARSE_SUCCESS {
          r := r.(icmp := Some(ipHeaderLen), payload := Some(ipHeaderLen + 8), payloadLength := transportLen - 8);
        } else {
          r := r.(status := PARSE_MALFORMED);
        }
      case _ =>
        r := r.(status := PARSE_UNKNOWN_PROTO);
    }
  }

  /** The payload is everything after the headers in the buffer; it is the datagram's own payload exactly
      when the total length field agrees with the buffer, which the parser does not check. */
  lemma PayloadIsBufferSuffix(b: seq<byte>)
    requires WellFormed(b)
    ensures Parsed(b).payloadLength == |b| - Ihl(b) - TransportHeader(b)
    ensures Parsed(b).payloadLength == TotalLength(b) - Ihl(b) - TransportHeader(b) <==> TotalLength(b) == |b|
  {}

  /** Such a packet is accepted: a UDP datagram of 28 bytes with one stray byte after it, which is
      reported as payload. */
  lemma StrayByteIsPayload()
    ensures var b := [0x45, 0, 0, 28, 0, 0, 0, 0, 64, 17, 0, 0, 10, 0, 0, 1]
                     + [10, 0, 0, 2, 0, 53, 0, 53, 0, 8, 0, 0, 0xAA];
      && WellFormed(b) && TotalLength(b) == 28 == |b| - 1
      && TotalLength(b) - Ihl(b) - TransportHeader(b) == 0 && Parsed(b).payloadLength == 1
  {}

  // ---------- NOP sleds ----------

  /** n bytes 0x90 in a row from i on. */
  predicate SledAt(p: seq<byte>, i: nat, n: nat) {
    i + n <= |p| && forall j :: i <= j < i + n ==> p[j] == 0x90
  }

  predicate HasSled(p: seq<byte>, n: nat) {
    exists i :: 0 <= i <= |p| && SledAt(p, i, n)
  }

  /** Five bytes 0x90 in a row begin at i. */
  predicate FiveAt(p: seq<byte>, i: nat) {
    i + 5 <= |p| && p[i] == p[i + 1] == p[i + 2] == p[i + 3] == p[i + 4] == 0x90
  }

  lemma FiveInARow(p: seq<byte>)
    ensures HasSled(p, SLED) <==> exists i: nat :: FiveAt(p, i)
  {
    if HasSled(p, SLED) {
      var i :| 0 <= i <= |p| && SledAt(p, i, SLED);
      assert FiveAt(p, i);
    }
    if exists i: nat :: FiveAt(p, i) {
      var i: nat :| FiveAt(p, i);
      assert SledAt(p, i, SLED);
    }
  }

  /** One pass with a counter finds a run exactly when there is one; a minimum of 0 is taken as 1. */
  method HasNopSled(payload: seq<byte>, minSequence: nat) returns (found: bool)
    ensures found == HasSled(payload, if minSequence == 0 then 1 else minSequence)
  {
    ghost var n := if minSequence == 0 then 1 else minSequence;
    if |payload| < minSequence {
      return false;
    }
    var consecutive := 0;
    for i := 0 to |payload|
      invariant consecutive <= i && consecutive < n
      invariant SledAt(payload, i - consecutive, consecutive)
      invariant consecutive < i ==> payload[i - consecutive - 1] != 0x90
      invariant forall k :: 0 <= k && k + n <= i ==> !SledAt(payload, k, n)
    {
      ghost var start := i - consecutive;
      if payload[i] == 0x90 {
        consecutive := consecutive + 1;
        assert SledAt(payload, start, consecutive);
        if consecutive >= minSequence {
          assert SledAt(payload, start, n);
          return true;
        }
        forall k | 0 <= k && k + n <= i + 1
          ensures !SledAt(payload, k, n)
        {
          if k + n == i + 1 {
            assert k <= start - 1 < k + n;
          }
        }
      } else {
        consecutive := 0;
        forall k | 0 <= k && k + n <= i + 1
          ensures !SledAt(payload, k, n)
        {
          if k + n == i + 1 {
            assert k <= i < k + n;
          }
        }
      }
    }
    return false;
  }

  // ---------- Malformed headers ----------

  /** TTL 0, or a TCP header with both SYN and FIN set. */
  predicate Suspicious(b: seq<byte>)
    requires WellFormed(b)
  {
    b[8] == 0 || (Protocol(b) == PROTO_TCP && SynFin(b[Ihl(b) + 13]))
  }

  predicate SynFin(flags: byte) {
    flags / 2 % 2 == 1 && flags % 2 == 1
  }

  /** IsMalformedHeader on a parsed packet; tcp is where the TCP header starts, if there is one. */
  predicate IsMalformedHeader(b: seq<byte>, tcp: Option<nat>)
    requires |b| >= 20 && (tcp.Some? ==> tcp.value + 14 <= |b|)
  {
    if b[0] % 16 < 5 then true
    else if b[8] == 0 then true
    else tcp.Some? && SynFin(b[tcp.value + 13])
  }

  /** 1 for anything that does not parse; for a packet that parses only TTL and SYN+FIN matter. */
  method CheckMalformed(data: array?<byte>, len: nat) returns (rc: int)
    requires data != null ==> data.Length == len
    ensures rc == if data == null || !WellFormed(data[..]) || Suspicious(data[..]) then 1 else 0
    ensures data != null && StatusOf(data[..]) == 0 ==>
      var at := 4 * (data[0] % 16);
      && at + 8 <= data.Length && (data[9] == 6 ==> at + 20 <= data.Length)
      && (rc == 1 <==> data[8] == 0 || (data[9] == 6 && data[at + 13] % 4 == 3))
  {
    var r := ParsePacket(data, len);
    if data != null {
      SuccessIsWellFormed(data[..]);
    }
    if r.status != PARSE_SUCCESS {
      return 1;
    }
    if IsMalformedHeader(data[..], r.tcp) {
      return 1;
    }
    return 0;
  }

  // ---------- From packet to event ----------

  /** Whether a payload starts like an HTTP request. */
  predicate IsHttpRequest(p: seq<byte>) {
    |p| >= 4 && p[..4] in {
      [0x47, 0x45, 0x54, 0x20], [0x50, 0x4F, 0x53, 0x54], [0x50, 0x55, 0x54, 0x20],
      [0x48, 0x45, 0x41, 0x44], [0x44, 0x45, 0x4C, 0x45], [0x4F, 0x50, 0x54, 0x49]}
  }

  /** The methods the test is meant for. */
  datatype HttpMethod = GET | POST | PUT | HEAD | DELETE | PATCH | OPTIONS | CONNECT | TRACE

  /** A request starts with its method and a space. */
  function Word(m: HttpMethod): (w: seq<byte>)
    ensures |w| >= 4
  {
    match m
    case GET => [0x47, 0x45, 0x54, 0x20]
    case POST => [0x50, 0x4F, 0x53, 0x54, 0x20]
    case PUT => [0x50, 0x55, 0x54, 0x20]
    case HEAD => [0x48, 0x45, 0x41, 0x44, 0x20]
    case DELETE => [0x44, 0x45, 0x4C, 0x45, 0x54, 0x45, 0x20]
    case PATCH => [0x50, 0x41, 0x54, 0x43, 0x48, 0x20]
    case OPTIONS => [0x4F, 0x50, 0x54, 0x49, 0x4F, 0x4E, 0x53, 0x20]
    case CONNECT => [0x43, 0x4F, 0x4E, 0x4E, 0x45, 0x43, 0x54, 0x20]
    case TRACE => [0x54, 0x52, 0x41, 0x43, 0x45, 0x20]
  }

  /** Of the nine methods exactly PATCH, CONNECT and TRACE are missed. */
  lemma MethodsNotLookedFor(m: HttpMethod, rest: seq<byte>)
    ensures IsHttpRequest(Word(m) + rest) <==> !(m.PATCH? || m.CONNECT? || m.TRACE?)
  {
    assert (Word(m) + rest)[..4] == Word(m)[..4];
    FirstFour(m);
  }

  /** The test sees four bytes: it holds of the six words looked for, and tells all nine apart. */
  lemma FirstFour(m: HttpMethod)
    ensures IsHttpRequest(Word(m)[..4]) <==> !(m.PATCH? || m.CONNECT? || m.TRACE?)
    ensures IsHttpRequest(Word(m)) == IsHttpRequest(Word(m)[..4])
  {
    var w := Word(m);
    assert w[..4] == [w[0], w[1], w[2], w[3]];
    assert w[..4][..4] == w[..4];
  }

  predicate Starts(p: seq<byte>, m: HttpMethod) {
    Word(m) <= p
  }

  predicate StartsRequest(p: seq<byte>) {
    exists m :: Starts(p, m)
  }

  /** The first four bytes are those of this method's word, and the word does not go on. */
  predicate LooksLike(p: seq<byte>, m: HttpMethod) {
    |p| >= 4 && p[..4] == Word(m)[..4] && !Starts(p, m)
  }

  /** The test is right about a payload exactly when that does not start a request by one of the three missed
      methods, and does not just look like one by POST, HEAD, DELETE or OPTIONS. */
  lemma HttpTestIsRight(p: seq<byte>)
    ensures (IsHttpRequest(p) <==> StartsRequest(p))
      <==> && !Starts(p, PATCH) && !Starts(p, CONNECT) && !Starts(p, TRACE)
           && !LooksLike(p, POST) && !LooksLike(p, HEAD) && !LooksLike(p, DELETE) && !LooksLike(p, OPTIONS)
  {
    if m :| Starts(p, m) {
      StartOf(p, m);
      MethodsNotLookedFor(m, p[|Word(m)|..]);
      forall n | n != m
        ensures !Starts(p, n) && !LooksLike(p, n)
      {
        if Starts(p, n) { StartOf(p, n); }
        WordsDiffer(m, n);
      }
    } else if IsHttpRequest(p) {
      LookedFor(p);
    } else {
      NotLookedFor(p);
    }
  }

  lemma StartOf(p: seq<byte>, m: HttpMethod)
    requires Starts(p, m)
    ensures p == Word(m) + p[|Word(m)|..] && |p| >= 4 && p[..4] == Word(m)[..4]
  {}

  lemma WordsDiffer(m: HttpMethod, n: HttpMethod)
    ensures Word(m)[..4] == Word(n)[..4] <==> m == n
  {
    assert m != n ==> Word(m)[..4][0] != Word(n)[..4][0] || Word(m)[..4][1] != Word(n)[..4][1];
  }

  lemma LookedFor(p: seq<byte>)
    requires IsHttpRequest(p)
    ensures exists m :: p[..4] == Word(m)[..4] && !(m.PATCH? || m.CONNECT? || m.TRACE?)
    ensures p[..4] == Word(GET)[..4] ==> Starts(p, GET)
    ensures p[..4] == Word(PUT)[..4] ==> Starts(p, PUT)
  {
    var four := p[..4];
    assert Word(GET)[..4] == Word(GET) && Word(PUT)[..4] == Word(PUT);
    assert four == Word(GET)[..4] || four == Word(POST)[..4] || four == Word(PUT)[..4]
        || four == Word(HEAD)[..4] || four == Word(DELETE)[..4] || four == Word(OPTIONS)[..4];
  }

  lemma NotLookedFor(p: seq<byte>)
    requires !IsHttpRequest(p)
    ensures !LooksLike(p, POST) && !LooksLike(p, HEAD) && !LooksLike(p, DELETE) && !LooksLike(p, OPTIONS)
  {
    FirstFour(POST);
    FirstFour(HEAD);
    FirstFour(DELETE);
    FirstFour(OPTIONS);
    assert |p| >= 4 ==> p[..4][..4] == p[..4];
  }

  /** POSTAL is taken for a request. */
  lemma PostalCounts(rest: seq<byte>)
    ensures var p := [0x50, 0x4F, 0x53, 0x54, 0x41, 0x4C] + rest;
      IsHttpRequest(p) && LooksLike(p, POST) && !StartsRequest(p)
  {
    var p := [0x50, 0x4F, 0x53, 0x54, 0x41, 0x4C] + rest;
    assert p[..4] == [0x50, 0x4F, 0x53, 0x54] == Word(POST)[..4];
    assert p[..5][4] == 0x41 != Word(POST)[4];
    assert !Starts(p, POST);
    forall m
      ensures !Starts(p, m)
    {
      WordsDiffer(m, POST);
      if Starts(p, m) {
        StartOf(p, m);
      }
    }
  }

  const SLED: nat := 5

  /** The severity the event of a packet gets. */
  function SeverityOf(b: seq<byte>): u32
    requires WellFormed(b)
  {
    if HasSled(Payload(b), SLED) then 3
    else if Protocol(b) == PROTO_TCP && Suspicious(b) then 2
    else 0
  }

  /** The tier that flagged the packet; without a finding the caller's value stays. */
  function TierOf(b: seq<byte>, inherited: byte): byte
    requires WellFormed(b)
  {
    if IsHttpRequest(Payload(b)) then 2
    else if HasSled(Payload(b), SLED) then 3
    else inherited
  }

  /** The event of a packet, written over what the caller passed in. */
  function EventOf(b: seq<byte>, before: IpcEvent, now: u64): IpcEvent
    requires WellFormed(b) && |b| < TWO_32
  {
    var at := Ihl(b);
    var ported := Protocol(b) != PROTO_ICMP;
    IpcEvent(
      eventType := 0, sourceIp := b[12..16], destIp := b[16..20],
      sourcePort := if ported then b[at..at + 2] else [0, 0],
      destPort := if ported then b[at + 2..at + 4] else [0, 0],
      protocol := Protocol(b), direction := 0, layerId := 0, tierResult := TierOf(b, before.tierResult),
      payloadLength := |Payload(b)|, ruleId := 0, severity := SeverityOf(b), timestamp := now)
  }

  class IpcEventVar {
    var e: IpcEvent

    constructor (e: IpcEvent)
      ensures this.e == e
    {
      this.e := e;
    }
  }

  lemma MalformedIsSuspicious(b: seq<byte>)
    requires WellFormed(b) && Protocol(b) == PROTO_TCP
    ensures IsMalformedHeader(b, Some(Ihl(b))) == Suspicious(b)
  {}

  /** Where each field of the event comes from, byte by byte: addresses at 12 and 16, protocol at 9, the ports
      at the end of the IP header unless it is ICMP, the payload behind the transport header. */
  predicate FieldsFrom(e: IpcEvent, b: seq<byte>, now: u64) {
    && |b| >= 28
    && e.sourceIp == [b[12], b[13], b[14], b[15]]
    && e.destIp == [b[16], b[17], b[18], b[19]]
    && e.protocol == b[9]
    && e.eventType == 0 && e.direction == 0 && e.layerId == 0 && e.ruleId == 0 && e.timestamp == now
    && var at := 4 * (b[0] % 16);
    && at + 8 <= |b|
    && (b[9] == 1 ==> e.sourcePort == [0, 0] && e.destPort == [0, 0])
    && (b[9] != 1 ==> e.sourcePort == [b[at], b[at + 1]] && e.destPort == [b[at + 2], b[at + 3]])
    && (b[9] != 6 ==> e.payloadLength as int == |b| - at - 8)
    && (b[9] == 6 ==> at + 20 <= |b| && e.payloadLength as int == |b| - at - 4 * (b[at + 12] / 16))
  }

  lemma FieldsOfEvent(b: seq<byte>, before: IpcEvent, now: u64)
    requires WellFormed(b) && |b| < TWO_32
    ensures FieldsFrom(EventOf(b, before, now), b, now)
  {
    hide SeverityOf, TierOf;
    var at := Ihl(b);
    PortsInside(b);
    assert b[12..16] == [b[12], b[13], b[14], b[15]] && b[16..20] == [b[16], b[17], b[18], b[19]];
    assert b[at..at + 2] == [b[at], b[at + 1]] && b[at + 2..at + 4] == [b[at + 2], b[at + 3]];
  }

  /** Where a transport header is, there are its ports. */
  lemma PortsInside(b: seq<byte>)
    requires WellFormed(b)
    ensures 20 <= Ihl(b) && Ihl(b) + 8 <= |b|
  {}

  /** Ports by protocol, and the severity of a malformed TCP header. */
  method TransportFields(before: IpcEvent, b: seq<byte>, r: ParseResult) returns (e: IpcEvent)
    requires WellFormed(b) && r == Parsed(b)
    ensures Ihl(b) + 8 <= |b|
    ensures var at := Ihl(b);
      e == before.(
        sourcePort := if Protocol(b) == PROTO_ICMP then [0, 0] else b[at..at + 2],
        destPort := if Protocol(b) == PROTO_ICMP then [0, 0] else b[at + 2..at + 4],
        severity := if Protocol(b) == PROTO_TCP && Suspicious(b) then 2 else before.severity)
  {
    hide IsMalformedHeader, Suspicious, Payload;
    PortsInside(b);
    e := before;
    if r.protocol == PROTO_TCP && r.tcp.Some? {
      var at := r.tcp.value;
      e := e.(sourcePort := b[at..at + 2], destPort := b[at + 2..at + 4]);
      MalformedIsSuspicious(b);
      if IsMalformedHeader(b, r.tcp) {
        e := e.(severity := 2);
      }
    } else if r.protocol == PROTO_UDP && r.udp.Some? {
      var at := r.udp.value;
      e := e.(sourcePort := b[at..at + 2], destPort := b[at + 2..at + 4]);
    } else if r.protocol == PROTO_ICMP && r.icmp.Some? {
      e := e.(sourcePort := [0, 0], destPort := [0, 0]);
    }
  }

  lemma ParsedPayload(b: seq<byte>)
    requires WellFormed(b)
    ensures var r := Parsed(b);
      && r.status == PARSE_SUCCESS && r.protocol == Protocol(b) && r.payload.Some? && r.payload.value <= |b|
      && b[r.payload.value..] == Payload(b) && r.payloadLength == |Payload(b)|
  {}

  method ParseToEvent(data: array?<byte>, len: u32, out: IpcEventVar?, now: u64) returns (rc: int)
    requires data != null ==> data.Length == len
    modifies out
    ensures data == null || out == null ==> rc == -1
    ensures data != null && out != null ==> rc == StatusOf(data[..])
    ensures out != null ==>
      out.e == if rc == 0 then EventOf(data[..], old(out.e), now) else old(out.e)
    ensures rc == 0 ==> out != null && data != null && FieldsFrom(out.e, data[..], now)
  {
    hide HasSled, IsHttpRequest, Suspicious, TransportHeader, TransportOk, Payload;
    if data == null || out == null {
      return -1;
    }
    var r := ParsePacket(data, len);
    SuccessIsWellFormed(data[..]);
    if r.status != PARSE_SUCCESS {
      return r.status;
    }
    var b := data[..];
    ParsedPayload(b);
    PortsInside(b);
    var e := out.e.(eventType := 0, sourceIp := b[12..16], destIp := b[16..20], protocol := r.protocol,
                    direction := 0, layerId := 0, payloadLength := r.payloadLength, ruleId := 0,
                    severity := 0, timestamp := now);
    e := TransportFields(e, b, r);
    if r.payload.Some? && r.payloadLength > 0 {
      e := FlagPayload(e, b[r.payload.value..]);
    }
    NoFindingInNothing();
    assert |Payload(b)| == 0 ==> Payload(b) == [];
    FieldsOfEvent(b, out.e, now);
    out.e := e;
    return 0;
  }

  /** The layer-7 checks on a payload that is not empty. */
  method FlagPayload(e: IpcEvent, payload: seq<byte>) returns (r: IpcEvent)
    ensures r == e.(severity := if HasSled(payload, SLED) then 3 else e.severity,
                    tierResult := if IsHttpRequest(payload) then 2
                                  else if HasSled(payload, SLED) then 3 else e.tierResult)
  {
    r := e;
    var sled := HasNopSled(payload, 5);
    if sled {
      r := r.(severity := 3, tierResult := 3);
    }
    if IsHttpRequest(payload) {
      r := r.(tierResult := 2);
    }
  }

  lemma NoFindingInNothing()
    ensures !HasSled([], SLED) && !IsHttpRequest([])
  {}

  /** Pushing the event of a parsed packet into a running bridge with room: the critical count rises
      exactly when the payload has five 0x90 bytes in a row, the kernel count exactly when it has them
      (or the caller's tier already was 3) and the payload is not an HTTP request. */
  lemma ParsedEventsInBridge(b: seq<byte>, before: IpcEvent, now: u64, s: State)
    requires WellFormed(b) && |b| < TWO_32 && Accepts(s)
    ensures var e := EventOf(b, before, now);
      var t := Step(s, Push(e));
      && t.counts.critical == Plus(s.counts.critical, HasSled(Payload(b), SLED))
      && t.counts.kernel == Plus(s.counts.kernel,
           (HasSled(Payload(b), SLED) || before.tierResult == 3) && !IsHttpRequest(Payload(b)))
      && t.counts.total == Plus(s.counts.total, true)
      && t.queue == s.queue + [e]
  {
    hide HasSled, IsHttpRequest, Level;
  }
}
