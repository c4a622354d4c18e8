# AEGIS NIDS: verified model

This project models the stateful and arithmetic core of the AEGIS intrusion detection system and
proves what it is for, for every input, every run and every reachable state.

- **Hashing and enforcement (Rust).** `sha256.dfy` proves the hand-written SHA-256 equal to a recursive
  statement of FIPS 180-4 (sections 4.1.2, 4.2.2, 5.1.1, 5.3.3 and 6.2.2), with `primes.dfy` for its constants. `pep.dfy` proves the policy
  enforcement point safe over every run, with enforce calls overlapping between the locked decision and
  the unlocked provider call.
- **The canonical event wire path (Go, Python, C++).** `wire.dfy` describes the frozen 109-byte frame as
  33 little-endian slots, `canonical.dfy`, `python_codec.dfy` and `adapter_frame.dfy` the four codecs,
  `pipe_writer.dfy` the length-prefixed stream over short writes, errors and reconnects, and `capture.dfy`
  the loops that feed it.
- **The bridge (C++).** `ring_buffer.dfy` refines the circular queue to a bounded FIFO, `bridge.dfy` refines
  the DEFCON counters to a recount of history, `packet_parser.dfy` covers the IPv4/TCP/UDP/ICMP parser of
  RFC 791 section 3.1 and RFC 9293 section 3.1, and the events it hands to the bridge.
- **Signatures.** `fnv.dfy` proves what FNV-1a separates, `signatures.dfy` the in-place rule filter and the
  packet classifier.
- **Watchdog.** `watchdog.dfy` proves the sliding-window restart bound.
- **Evidence and stores.** `receipts.dfy` follows an answer of the enforcement point to the display,
  `mouth.dfy` the display loop, `rule_store.dfy` the rule file edits, `config_defaults.dfy` the recursive
  schema-default filler.

Each imperative operation is a method over the source's own fields or arrays, proved against a
specification function or a step relation on values; the lemmas are about those functions and about runs.
Errors, short writes, refusals, unavailable providers and exceptions are results of the operations, never
excluded by a precondition.

## Where the code and its documentation differ

The model follows the code.

- `brain/canonical_event.py` writes its default struct-size tag 109, which the Go decoders refuse
  (`PythonCodec.GoAcceptsPythonFrame`, `PythonCodec.DefaultTagIsRefused`); its `encode` validates nothing, so its
  round trip holds exactly for the valid records (`PythonCodec.PyDecodeOfEncode`,
  `PythonCodec.UnknownSourceIsPacked`).
- `bridge/aegis_packet_parser.hpp:151` says the total length is validated against the buffer; the code
  compares it with the header length only (`PacketParser.PayloadIsBufferSuffix`,
  `PacketParser.StrayByteIsPayload`). Its comment at line 321 lists HTTP methods the code does not look for
  (`PacketParser.MethodsNotLookedFor`), and since it compares four bytes it also takes other words for methods
  (`PacketParser.PostalCounts`); `PacketParser.HttpTestIsRight` has the exact condition.
- `bridge/aegis_ipc.cpp:271` announces DEFCON SAFE at initialisation although the shown level is not
  recomputed (`Bridge.InitKeepsShownLevel`, `Bridge.StaleLevelRises`); `Bridge.LevelIsCurrentIffNotStale` says
  exactly when the level shown is out of date.
- `bridge/aegis_ipc.hpp:174-179` gives level 4 for 1 to 5 alerts; with 5 alerts the code gives 3
  (`Bridge.FiveAlertsGiveThree`, `Bridge.LevelFourExactly`). It also says the calculation matches the other
  components; against the display's it does so only under a condition (`Mouth.LevelsAgree`), and it fails for
  the first kernel threat (`Mouth.OneKernelThreatDisagrees`).
- `bridge/aegis_ipc.hpp:234` says the ring buffer uses a mutex; the code has none.
- `mouth/windows_sec_monitor.rs:405-408` lets only a proven receipt be shown as BLOCKED; a policy or an
  unproven status whose text is BLOCKED is shown as well (`Mouth.AlertSaysBlocked`,
  `Mouth.UnprovenLineSaysBlocked`).
- `scripts/aegis_daemon.py:609-620` uses the wall clock; the hourly bound holds for every clock that goes back by
  at most d if and only if d is 0 (`Watchdog.WindowsBoundedIffClockNeverGoesBack`).
- `tools/config_validator.py:56` raises for a property that is null, a boolean, a number, or a list or string
  holding the word "default" (`ConfigDefaults.NeverRaisesIffWalkable`, `ConfigDefaults.NullPropertyRaises`).

## Model

| member | source | states |
|---|---|---|
| Sha256.Sha256Hash | rust-src/lib.rs:56-139 | for every message below 2^61 bytes the padding, schedule, rounds and feed-forward loops compute the recursive SHA-256 of FIPS 180-4 |
| Sha256.PadMessage | rust-src/lib.rs:64-71 | the zero-filling loop stops, and yields the message, 0x80, the least number of zeros and the 64-bit big-endian bit length |
| Sha256.PaddedLength | rust-src/lib.rs:64-71 | the padded length is the least multiple of 64 that is at least the length plus nine |
| Sha256.PadInjective | rust-src/lib.rs:64-71 | two messages have the same padded form exactly when they are equal |
| Sha256.PadBytes | rust-src/lib.rs:64-71 | every byte of the padded message: the message, 0x80, zeros, and the length in bits, highest byte first |
| Sha256.Expand | rust-src/lib.rs:75-91 | entry t of the array filled in place is the recursive W_t, for every t |
| Sha256.ScheduleTerm | rust-src/lib.rs:84-90 | the order in which the code adds the four terms gives the standard's W_t |
| Sha256.ScheduleSums | rust-src/lib.rs:75-91 | W_t as plain sums: sixteen big-endian words, then four earlier terms modulo 2^32 |
| Sha256.CodeSigmas | rust-src/lib.rs:85-110 | the four sigma functions are the exclusive-ors of the rotations and shifts the code spells out |
| Sha256.ChChooses | rust-src/lib.rs:104 | each bit of ch is that of f where e has its bit set, and that of g elsewhere |
| Sha256.MajIsMajority | rust-src/lib.rs:111 | each bit of maj is set iff it is set in at least two of a, b and c |
| Sha256.RoundSums | rust-src/lib.rs:102-122 | one round as two plain sums modulo 2^32, entering at a and e, with all else moved one register on |
| Sha256.FeedForward | rust-src/lib.rs:124-131 | each register is added to its own word of the state |
| Sha256.BlocksInOrder | rust-src/lib.rs:58-74 | blocks are taken in order, from the square-root words in their order |
| Sha256.DigestAt | rust-src/lib.rs:134-138 | every byte of the digest: the eight words in order, highest byte first |
| Sha256.ProcessChunk | rust-src/lib.rs:93-131 | rotating a..h for 64 rounds and adding them to the state is the recursive compression function |
| Sha256.RoundConstants | rust-src/lib.rs:141-150 | each K is the first 32 fraction bits of the cube root of the prime at its place |
| Sha256.InitialConstants | rust-src/lib.rs:58-61 | each initial state word is the first 32 fraction bits of the square root of the prime at its place |
| Primes.ListsThePrimes | rust-src/lib.rs:141-150 | the list behind the constants holds exactly the primes up to its 64th and last entry, 311 |
| Primes.PrimesAscend | rust-src/lib.rs:141-150 | that list ascends, so it is the first 64 primes in order |
| Wire.OffsetTable | bridge/aegis_adapter.cpp:42-71 | the slots laid end to end start at the offsets the sources spell out, and end at 109 |
| Wire.UnpackPack | nose/canonical.go:283-318 | slot values that fit their widths are read back from the frame unchanged |
| Wire.PackUnpack | nose/canonical.go:325-382 | every 109-byte string is the frame of the values read from it |
| Canonical.Serialize | nose/canonical.go:269-320 | succeeds exactly for valid events, and then the 33 stores make exactly the event's frame; otherwise the array stays zero |
| Canonical.EventVar.Deserialize | nose/canonical.go:325-382 | succeeds exactly when every gate holds, and otherwise leaves the receiver unchanged |
| Canonical.DeserializeBytes | nose/golden_path_ffi.go:70-134 | the free decoder accepts exactly the frames the method accepts, of exactly 109 bytes, with the same event |
| Canonical.ReadsAreSlots | nose/canonical.go:326-381 | each read at a fixed offset is the slot that starts there |
| Canonical.DecodeOfEncode | nose/canonical.go:269-382 | the frame of every valid event is accepted and decodes to that event |
| Canonical.EncodeOfDecode | nose/canonical.go:269-382 | every accepted frame decodes to a valid event whose frame it is: the codec is a bijection |
| PythonCodec.PyEncodeOfDecode | brain/canonical_event.py:85-161 | decode then encode gives back the same bytes, struct-size tag and all 16 reserved bytes included |
| PythonCodec.PyDecodeOfEncode | brain/canonical_event.py:85-161 | a packable record survives encode then decode if and only if it is valid |
| PythonCodec.FillMeans | brain/canonical_event.py:131-161 | the raw field keeps the first 16 bytes and fills up with zeros |
| PythonCodec.UnknownSourceIsPacked | brain/canonical_event.py:131-161 | a record with source 17 is packed and its frame is not taken back |
| PythonCodec.GoAgreesWithPython | brain/canonical_event.py:85-128 | Go accepts a frame iff Python does and its tag is 128, and then all fields agree |
| PythonCodec.GoAcceptsPythonFrame | brain/canonical_event.py:82 | Go accepts the frame of any packable record iff the record, its reserved bytes cut or filled up to 16, is valid and tagged 128; the default tag is refused |
| PythonCodec.DefaultTagIsRefused | brain/canonical_event.py:82 | a valid record left at tag 109 survives in Python and is refused by Go; tagged 128 Go takes it |
| AdapterFrame.StoreSlot | bridge/aegis_adapter.cpp:88-96 | a byte-wise store at a slot's offset sets that slot and no other of the 33 |
| AdapterFrame.SlotStored | bridge/aegis_adapter.cpp:88-96 | bytes changed inside one slot only leave every other slot's value as it was |
| AdapterFrame.InitFrame | bridge/aegis_adapter.cpp:120-134 | whatever the buffer held, afterwards its slots are those of the initial log-only event |
| AdapterFrame.Poll | bridge/aegis_adapter.cpp:195-283 | every frame an adapter builds is accepted by Go, decodes to the adapter's event, re-serialises byte for byte, and holds, offset by offset, its clocks, source, type, process id and process type |
| PipeWriter.PipeConn.WriteAll | nose/pipe_writer.go:55-67 | over any short writes: success put out exactly the frame, failure a strict prefix of it |
| PipeWriter.FrameWriter.Send | nose/pipe_writer.go:116-154 | one send is delivered in full, dropped before the wire, or cut short and disconnected; the stream stays faithful |
| PipeWriter.FrameWriter.EnsureConnected | nose/pipe_writer.go:93-98 | an open connection is kept, and a new one starts with nothing written |
| PipeWriter.FrameWriter.Stats | nose/pipe_writer.go:157-161 | sent is the number of delivered events and dropped that of valid events not delivered |
| PipeWriter.JoinOfSplit | nose/pipe_writer.go:9-15 | cutting any byte stream by its length prefixes loses nothing |
| PipeWriter.SplitAppend | nose/pipe_writer.go:9-15 | after whole frames, further bytes are read as if they stood alone |
| PipeWriter.SendKeepsFaithful | nose/pipe_writer.go:116-154 | every send, however the operating system behaves, keeps all connections' bytes faithful |
| PipeWriter.EveryRunIsFaithful | nose/pipe_writer.go:78-154 | over any run, each connection holds whole frames and at most one partial one at its end, and together they hold exactly the delivered events in order |
| PipeWriter.ConsumerRecoversEvents | nose/pipe_writer.go:9-15 | cutting by length prefix and decoding gives back exactly the events for which Send returned true, in order |
| Fnv.StepInjective | nose/signature_classifier.go:67-68 | equal hash steps with one byte come from equal states, and equal states with different bytes never give equal steps |
| Fnv.StepOnto | nose/signature_classifier.go:67-68 | every state is the step of the state computed with the inverse prime: for each byte a step is a bijection |
| Fnv.HashInjective | nose/signature_classifier.go:64-71 | different states stay different under any common continuation |
| Fnv.SingleByteSeparates | nose/signature_classifier.go:64-71 | strings of one length that differ in exactly one byte never share a hash |
| Fnv.HashOfA | nose/signature_classifier.go:64-71 | both hashes of the string a are the published FNV-1a values |
| Fnv.RuleAndPayloadHashesSeparate | nose/capture.go:254-261 | this holds for the 32-bit rule hash and the 64-bit payload hash with the constants in use |
| Fnv.AndMask | scripts/run_phase8_lab_scenarios.py:62 | masking an unbounded integer with n ones is the remainder modulo 2^n |
| Fnv.HashNoseRuleId | nose/signature_classifier.go:64-71 | the wrapping loop computes the specified 32-bit hash |
| Fnv.HashRuleId | scripts/run_phase8_lab_scenarios.py:52-63 | the masking loop over unbounded integers computes the same 32-bit hash |
| Fnv.QuickHash | nose/capture.go:254-261 | the wrapping loop computes the specified 64-bit hash |
| Signatures.CompactRules | nose/signature_classifier.go:37-42 | writing the kept rules over the array being read yields exactly the order-preserving filter, and leaves the rest of the array as it was |
| Signatures.LoadedExactly | nose/signature_classifier.go:38-41 | a rule is loaded iff it is in the file with a non-empty id and a non-empty pattern |
| Signatures.Classify | nose/signature_classifier.go:47-84 | the first loaded rule whose pattern occurs sets type, rule hash and severity; otherwise the event is unchanged |
| Signatures.ClassifiedMeans | nose/signature_classifier.go:47-62 | with a first rule whose pattern occurs: type 1, the hash of its id and the rank of its severity; without one: unchanged; nothing else changes |
| Signatures.SeverityWords | nose/signature_classifier.go:73-84 | medium, high and critical in any case rank 1, 2 and 3, everything else 0 |
| Sequences.ContainsMeans | nose/signature_classifier.go:53-55 | a pattern occurs iff the payload is something, the pattern, something |
| Signatures.FirstOfUsable | nose/signature_classifier.go:37-62 | the first match among the loaded rules is the first rule of the file that is usable and matches |
| Signatures.ClassifiedByFile | nose/signature_classifier.go:24-62 | loading then classifying depends on the first usable matching rule of the file |
| Capture.EventFromPacket | nose/capture.go:184-251 | whatever the packet holds, its event can be serialised and carries the given id |
| Capture.SentEvent | nose/capture.go:153-157 | the event sent for a packet, field by field: packet data, fixed observation fields, and type, rule and severity of the first matching rule or 2, 0 and 0 |
| Capture.Nose.Handle | nose/capture.go:153-164 | one packet is counted once as packet, event and send; the event sent carries the next id, the packet's addresses, ports, protocol and payload, and what the rules say of it |
| Capture.Nose.RunCapture | nose/capture.go:132-174 | at every loop head sent + dropped = canonical = packets; call i is for the i-th packet read and carries its event as classified; ids of delivered frames strictly increase |
| Capture.DeliveredIncrease | nose/capture.go:132-174 | if calls carry increasing ids then so do the deliveries among them |
| Capture.Injector.SendRound | nose/inject.go:44-53 | at least one and at most twenty sends of one event, stopping at the first success |
| Capture.DeliveredOfRounds | nose/inject.go:24-57 | over all rounds each event is delivered at most once, in order, exactly when its round succeeded |
| Capture.Injector.RunObserveInjection | nose/inject.go:15-65 | succeeds iff the count is positive and every event was delivered, each exactly once; every event is alert only, without rule, match or block |
| RingBuffer.SharedRingBuffer.Initialize | bridge/aegis_ipc.hpp:248-260 | the queue is empty, with the given capacity and no drops |
| RingBuffer.SharedRingBuffer.Push | bridge/aegis_ipc.hpp:270-279 | a full ring refuses and counts the refusal, otherwise the sequence grows at its end |
| RingBuffer.SharedRingBuffer.Pop | bridge/aegis_ipc.hpp:282-288 | the first element leaves; only an empty ring fails, and then the caller's variable is untouched |
| RingBuffer.PushItems | bridge/aegis_ipc.hpp:275-276 | storing at (head + count) modulo the capacity appends, also across the wraparound |
| RingBuffer.PopItems | bridge/aegis_ipc.hpp:284-285 | advancing the head modulo the capacity removes exactly the first item |
| Bridge.DefconAggregator.Calculate | bridge/aegis_ipc.hpp:180-193 | stores and returns the level of the current counters |
| Bridge.Bridge.Init | bridge/aegis_ipc.cpp:251-273 | sets up an empty queue and zero counters once; a second call changes nothing |
| Bridge.Bridge.Shutdown | bridge/aegis_ipc.cpp:275-285 | takes the queue away and keeps counters and level |
| Bridge.Bridge.PushEvent | bridge/aegis_ipc.cpp:287-311 | queue, drops, counters and level move together, and the code tells accepted, full and not initialised apart |
| Bridge.Bridge.PopEvent | bridge/aegis_ipc.cpp:313-323 | hands out the oldest event and touches no counter |
| Bridge.Bridge.UpdateDefcon | bridge/aegis_ipc.cpp:331-345 | replaces all four counters and recomputes the level |
| Bridge.Bridge.GetDefcon | bridge/aegis_ipc.cpp:325-329 | the level of the counters while initialised, 5 otherwise |
| Bridge.QueueIsFifo | bridge/aegis_ipc.cpp:251-323 | over every interleaving of calls: accepted = popped then still queued, never overfull, drops = refusals modulo 2^32 |
| Bridge.CountersAreRecount | bridge/aegis_ipc.cpp:298-345 | at every point of every run each counter is its last set value plus a recount of the accepted events since, modulo 2^32 |
| Bridge.LevelIsCurrentIffNotStale | bridge/aegis_ipc.cpp:251-345 | over every run the level shown is that of the counters iff the last call that sets up or recomputes was not a set-up showing another level than 5 |
| Bridge.StaleLevelRises | bridge/aegis_ipc.cpp:264-308 | the run set-up, update to level 1, shutdown, set-up shows 1 with zero counters, and one harmless event raises it to 4 |
| Bridge.CountingRaisesExactlyByWrapping | bridge/aegis_ipc.cpp:300-308 | counting an event makes the level safer iff it wraps the counter that held the level and nothing else holds it |
| Bridge.PushRaisesLevelExactly | bridge/aegis_ipc.cpp:287-311 | after any run one push raises the level number iff it is accepted and either the level was stale and below that of a first event, or such a counter wraps |
| Bridge.PushesKeepCurrentLevelLow | bridge/aegis_ipc.cpp:298-308 | from a current level any number of pushes with room in the counters keeps the level current and at or below what it was |
| Bridge.PushesNeverRaiseLevel | bridge/aegis_ipc.cpp:287-311 | after any run, with room in the counters, no batch of pushes raises the level iff none is accepted, or the level is not stale, or it is at least 4 |
| Bridge.LevelMonotone | bridge/aegis_ipc.hpp:180-193 | larger counters never give a safer level |
| Bridge.LevelFourExactly | bridge/aegis_ipc.hpp:178-190 | level 4 iff there are no kernel threats, no criticals, fewer than three blocks and one to four alerts |
| Bridge.OtherLevelsExactly | bridge/aegis_ipc.hpp:180-193 | the exact counters for each of the levels 1, 2, 3 and 5 |
| Bridge.FiveAlertsGiveThree | bridge/aegis_ipc.hpp:178-187 | five alerts alone give level 3, four give 4 |
| Bridge.CountersFallOnlyByWrapping | bridge/aegis_ipc.cpp:300-306 | an accepted event keeps every counter from falling iff no counter it adds to is at its maximum |
| Bridge.WrappingCanRaiseLevel | bridge/aegis_ipc.cpp:300-308 | with the critical counter at its maximum one more critical event takes the level from 1 to 4 |
| Bridge.InitKeepsShownLevel | bridge/aegis_ipc.cpp:264-273 | after a new set-up the shown level is that of the cleared counters iff it was 5 before |
| PacketParser.ParsePacket | bridge/aegis_packet_parser.hpp:249-315 | for every buffer, reading only inside it, the result record is exactly the one the bytes determine |
| PacketParser.ParseIp | bridge/aegis_packet_parser.hpp:137-158 | truncated, malformed or accepted exactly by the version, IHL and length tests |
| PacketParser.ParseTcp | bridge/aegis_packet_parser.hpp:184-199 | truncated, malformed or accepted exactly by the length and data-offset tests |
| PacketParser.SuccessIsWellFormed | bridge/aegis_packet_parser.hpp:249-315 | success iff the IPv4 tests, a known protocol and the transport header test hold |
| PacketParser.AcceptedPackets | bridge/aegis_packet_parser.hpp:137-315 | every test byte by byte: which packets are accepted, truncated, of unknown protocol |
| PacketParser.PayloadIsBufferSuffix | bridge/aegis_packet_parser.hpp:151-154 | header lengths and payload sum to the buffer; this is the datagram's own payload iff the total length field equals the buffer length |
| PacketParser.StrayByteIsPayload | bridge/aegis_packet_parser.hpp:151-154 | an accepted 29-byte buffer around a 28-byte datagram without payload reports one payload byte |
| PacketParser.MethodsNotLookedFor | bridge/aegis_packet_parser.hpp:319-328 | of the nine methods the comment lists, a payload that starts with one and a space is taken for a request iff it is none of PATCH, CONNECT and TRACE |
| PacketParser.HttpTestIsRight | bridge/aegis_packet_parser.hpp:319-328 | the test holds exactly of the payloads that start a request iff this one starts with none of the three missed methods and does not merely share the first four bytes of POST, HEAD, DELETE or OPTIONS |
| PacketParser.PostalCounts | bridge/aegis_packet_parser.hpp:319-328 | a payload that starts with POSTAL starts no request and is taken for one |
| PacketParser.HasNopSled | bridge/aegis_packet_parser.hpp:351-363 | the one-pass counter answers true iff a run of that many 0x90 bytes exists; a minimum of 0 acts as 1 |
| PacketParser.FiveInARow | bridge/aegis_packet_parser.hpp:351-363 | the run the event is judged by is five bytes 0x90 |
| PacketParser.CheckMalformed | bridge/aegis_packet_parser.cpp:96-108 | 1 iff the packet does not parse, or byte 8 (TTL) is 0, or it is TCP with both low flag bits of byte 13 of its header |
| PacketParser.FlagPayload | bridge/aegis_packet_parser.cpp:73-85 | a sled sets severity 3 and tier 3, and an HTTP request overrides the tier with 2 |
| PacketParser.ParseToEvent | bridge/aegis_packet_parser.cpp:21-88 | the status is the parser's; on success each field comes from the bytes it should (addresses at 12 and 16, protocol at 9, ports behind the IP header, payload length), and otherwise the event is untouched |
| PacketParser.ParsedEventsInBridge | bridge/aegis_packet_parser.cpp:72-85 | pushing a parsed event raises the critical count iff the payload has five 0x90 bytes in a row, and the kernel count iff tier 3 remains |
| Watchdog.Watchdog.RecordRestart | scripts/aegis_daemon.py:606-620 | true iff the attempt is added to the unpruned history of attempts |
| Watchdog.Watchdog.CheckAndRestart | scripts/aegis_daemon.py:622-646 | one round starts exactly the granted restarts of the subsystems found dead, each under its own name |
| Watchdog.CrashedExactly | scripts/aegis_daemon.py:624-636 | a restart is asked for iff a subsystem is neither running nor found by pattern |
| Watchdog.CrashedNext | scripts/aegis_daemon.py:624-636 | one request for each such look, in order |
| Watchdog.PrunedListIsFaithful | scripts/aegis_daemon.py:612-616 | for any clock, the pruned list and the full history agree on what is recent iff no earlier call read the clock an hour or more past an attempt that is recent now; otherwise the list knows fewer |
| Watchdog.RefusedOnlyWhenFull | scripts/aegis_daemon.py:617-618 | for any clock, a refusal means that three attempts really lie within the last hour; and they are refused exactly then if no call skipped ahead |
| Watchdog.EveryWindowIsBounded | scripts/aegis_daemon.py:132-133 | for any clock, over any run in which no granted attempt of the subsystem was skipped ahead of, no half-open hour holds more than three of its attempts |
| Watchdog.FourAttemptsSpanAnHour | scripts/aegis_daemon.py:132-133 | while readings never go back, any four attempts in a row span at least 3600 seconds |
| Watchdog.SteadyClockSkipsNothing | scripts/aegis_daemon.py:606-620 | in a run in which the subsystem's own readings never go back, nothing was skipped ahead of |
| Watchdog.WindowsBoundedIffClockNeverGoesBack | scripts/aegis_daemon.py:606-620 | the hourly bound holds in every run whose readings go back by at most d iff d is 0 |
| Watchdog.RefusalsExactIffClockNeverGoesBack | scripts/aegis_daemon.py:606-620 | attempts are granted exactly when the hour has room, in every run whose readings go back by at most d, iff d is 0 |
| Watchdog.ClockGoingBackBreaksBound | scripts/aegis_daemon.py:609-620 | however little the clock goes back, there is a run in which a full hour grants a fourth attempt |
| Pep.DecisionMeaning | rust-src/lib.rs:452-497 | BLOCK iff a capable block request with the approval it needs; ALLOW iff an advisory action |
| Pep.DecisionTable | rust-src/lib.rs:452-497 | every decision and every reason code with its own exact condition on action, capability, severity and approval |
| Pep.CapableIsBit0 | rust-src/lib.rs:460 | the capability test is bit 0 of the mask |
| Pep.PepState.Decide | rust-src/lib.rs:449-498 | the branch chain under the lock computes the decision table |
| Pep.PepState.Apply | rust-src/lib.rs:500-536 | a decided block becomes a fresh filter of the request's flow, or an escalation with reason 4 and no change; nothing else touches the provider |
| Pep.PepState.Enforce | rust-src/lib.rs:430-538 | -1 without effect for a missing pointer, otherwise decide then apply; a filter id is returned iff the answer is BLOCK, reason 4 iff a decided block failed, and the filter is of the request's address, port and protocol |
| Pep.PepState.UnblockFilter | rust-src/lib.rs:559-580 | -3 iff id zero or not capable; exactly that filter is gone iff the result is 0 |
| Pep.PepState.UnblockIp | rust-src/lib.rs:541-554 | removal by address never touches the provider |
| Pep.PepState.QueryFilter | rust-src/lib.rs:585-609 | 0 iff the provider was asked and its answer is a success that echoes the id, and then that answer is handed on; otherwise the caller's record is untouched |
| Pep.PepState.Shutdown | rust-src/lib.rs:420-427 | forgets the approvals and keeps the filters |
| Pep.StepKeepsSafe | rust-src/lib.rs:430-609 | every atomic step, with calls in flight, keeps the safety invariant |
| Pep.EveryRunIsSafe | rust-src/lib.rs:430-609 | over any run the filters are exactly those at the start plus ids answered with BLOCK minus those unblocked, and a filter id is non-zero iff the decision is BLOCK |
| Pep.FilterHasCause | rust-src/lib.rs:500-580 | every filter stems from an answered block of its flow, or was there at the start and never removed |
| Pep.ApprovalsWereHeld | rust-src/lib.rs:446-498 | every call in flight and every answer goes back to the deciding step of that very call, and its approval is what was held in that step |
| Pep.DecidedOnce | rust-src/lib.rs:446-498 | a call is decided in one step of a run only |
| Pep.EveryBlockIsAuthorised | rust-src/lib.rs:452-536 | every filter a run installs, whatever became of it, was asked for with capability bit 0 and, under the two-person rule at severity 7 or more, its call was decided in a step that held an approval for its request id |
| Pep.EveryFilterIsAuthorised | rust-src/lib.rs:452-580 | every filter at the end of a run was there at the start and never removed, or blocks the flow of an answered call that was authorised when decided |
| Pep.QueriedState | rust-src/lib.rs:585-609 | in any run a state handed on names the filter asked for, and only if the provider was truthful it says what the history says: presence and flow; a present filter then has an answered block behind it or was there all along |
| Pep.NoCapabilityNoEffect | rust-src/lib.rs:460-580 | a step of a caller without capability bit 0 leaves the provider unchanged |
| Receipts.ChainRaises | brain/enforcement_pipeline.py:42-65 | raises iff the request is invalid, the provider empty or the decision negative |
| Receipts.ChainIsHonest | brain/enforcement_pipeline.py:28-65 | identifiers survive to receipt, evidence and display; each label, status and mode has its exact condition: BLOCKED iff BLOCK with a confirmed effect on a real filter, unavailability iff ESCALATE with reason 4 |
| Receipts.DisplayOfEnforcement | brain/pep_receipt.py:30-92 | fed by the enforcement point, unavailability is shown iff a decided block left the provider unchanged, BLOCKED iff it installed a filter and was confirmed |
| Mouth.Feed.Push | mouth/windows_sec_monitor.rs:389-394 | a feed always equals the last entries pushed, up to its size |
| Mouth.LastMeans | mouth/windows_sec_monitor.rs:389-394 | the kept entries are the newest ones, newest at the end |
| Mouth.Mouth.ReadNewEntries | mouth/windows_sec_monitor.rs:580-627 | exactly the non-blank lines are returned, and the counts are theirs |
| Mouth.CountMeans | mouth/windows_sec_monitor.rs:602-619 | a non-blank line adds one alert, and one critical, blocked or kernel count iff it contains one of the words of that kind |
| Mouth.BlankMeans | mouth/windows_sec_monitor.rs:604 | a line is blank iff it holds nothing but space |
| Mouth.FindsFirst | mouth/windows_sec_monitor.rs:435-443 | the search gives the first occurrence, and nothing iff there is none |
| Mouth.ReadsQuoted | mouth/windows_sec_monitor.rs:432-440 | a quoted field reads as the text between its quotes |
| Mouth.ReadsBare | mouth/windows_sec_monitor.rs:441-463 | an unquoted field reads as true, false or its digits |
| Mouth.DigitsMeans | mouth/windows_sec_monitor.rs:446-450 | the digits before the first other character are read |
| Mouth.Mouth.FeedLines | mouth/windows_sec_monitor.rs:983-986 | every line adds its alert, and its mitigation if it has one, in order |
| Mouth.Mouth.Cycle | mouth/windows_sec_monitor.rs:973-1031 | after every turn counts, feeds and level are those of all lines read; the level never rises; the log grows only on a change, by that change as an ESCALATE record unless the write is lost, and never beyond four |
| Mouth.LogIsShort | mouth/windows_sec_monitor.rs:668-684 | an escalation log that starts at 5 has at most 5 minus the level records, whatever records were lost |
| Mouth.LevelFalls | mouth/windows_sec_monitor.rs:341-363 | growing counts never raise the level number |
| Mouth.CountAppend | mouth/windows_sec_monitor.rs:602-619 | counting in two stretches is counting at once |
| Mouth.CountFromStart | mouth/windows_sec_monitor.rs:653-661 | merging the counts of new lines is counting them on top of the old ones |
| Mouth.BlockedExactlyWhenProven | mouth/windows_sec_monitor.rs:497-544 | over any run an entry BLOCKED IP went into the mitigation feed iff a line was read with status ENFORCED and confirmed host effect that gives that entry |
| Mouth.MitigationMeans | mouth/windows_sec_monitor.rs:497-544 | a mitigation is added iff the line proves a block or is a termination, with its action, address and reason |
| Mouth.AlertMeans | mouth/windows_sec_monitor.rs:396-429 | severity, source and action of an alert, case by case on the line's fields |
| Mouth.ChangesEscalate | mouth/windows_sec_monitor.rs:1012-1023 | a cycle that changes the level tells the feed of an escalation, and only then |
| Mouth.ProvenIfBlocked | mouth/windows_sec_monitor.rs:504-533 | a BLOCKED IP entry comes only from a line that proves the block |
| Mouth.AlertSaysBlocked | mouth/windows_sec_monitor.rs:405-426 | the alert feed says BLOCKED only for proven blocks iff neither the policy nor an unproven status is the word BLOCKED |
| Mouth.UnprovenLineSaysBlocked | mouth/windows_sec_monitor.rs:396-429 | a log line whose policy is the word BLOCKED proves nothing and is shown as BLOCKED |
| Mouth.LevelsAgree | mouth/windows_sec_monitor.rs:341-363 | display and bridge give the same level iff kernel threats are 0 or at least 3, or another count already forces level 1 |
| Mouth.CountsBelowTotal | mouth/windows_sec_monitor.rs:605-619 | over any lines read no count exceeds the total, so a kernel threat puts the display at 4 or less |
| Mouth.OneKernelThreatDisagrees | mouth/windows_sec_monitor.rs:602-619 | a first line that names only Tier-3 is level 4 on the display, while the first event of such a finding is level 1 on the bridge |
| Mouth.Tier3Line | mouth/windows_sec_monitor.rs:602-619 | the line with tier Tier-3 and nothing else is such a line |
| RuleStore.ValidateRules | tools/aegisctl.py:449-465 | raises iff a severity or action is unhashable, otherwise lists exactly the issues, and none iff the list is valid |
| RuleStore.IssuesMean | tools/aegisctl.py:457-464 | the six issues in terms of the rule's own keys and the allowed words |
| RuleStore.ValidRuleMeans | tools/aegisctl.py:449-465 | a valid rule in terms of its keys and the allowed words |
| RuleStore.Store.SaveRules | tools/aegisctl.py:468-476 | the file is replaced iff the list is valid |
| RuleStore.Store.MutateRules | tools/aegisctl.py:479-520 | add, update and delete with every refusal, as one step on the stored list |
| RuleStore.EditIsAllOrNothing | tools/aegisctl.py:479-520 | an edit that does not end in success leaves the file alone, one that does leaves a valid list |
| RuleStore.EditSucceedsExactly | tools/aegisctl.py:479-520 | on a valid list, exactly when an add, an update or a delete succeeds |
| RuleStore.RefusalCodes | tools/aegisctl.py:484-518 | which refusal gives which exit code or exception |
| RuleStore.DeleteRemovesOne | tools/aegisctl.py:482-487 | a successful delete takes out the first rule found under the id and keeps all others in order |
| RuleStore.AddAppends | tools/aegisctl.py:512-513 | a successful add puts its rule behind the unchanged list |
| RuleStore.FlagKeys | tools/aegisctl.py:490-499 | the rule built from flags holds each flag under its own key |
| RuleStore.EveryWrittenListIsValid | tools/aegisctl.py:468-520 | over any run of edits the file is the initial list or a valid one with distinct non-empty ids |
| RuleStore.MergedKeys | tools/aegisctl.py:510-511 | key by key a merge takes the candidate's value if it gives one and else keeps the rule's, under the same id |
| RuleStore.UpdateKeepsTheRest | tools/aegisctl.py:506-511 | a successful update keeps length, order, every id and every other rule |
| RuleStore.AddThenDelete | tools/aegisctl.py:479-520 | add then delete under one id restores the list iff the added rule carries that id, as every rule from flags does |
| ConfigDefaults.ApplyDefaults | tools/config_validator.py:50-61 | the loop over properties, in any order, with recursion on nested schemas computes the specified result, exceptions included |
| ConfigDefaults.ApplyIsIdempotent | tools/config_validator.py:50-61 | filling a filled configuration changes nothing |
| ConfigDefaults.KeepsUserValues | tools/config_validator.py:57-60 | at every path a value the user set stays, an object as an object and anything else unchanged |
| ConfigDefaults.AddsOnlyDefaults | tools/config_validator.py:57-60 | whatever appears at a path lies at or under a missing key whose schema carries a default, with exactly the filled default |
| ConfigDefaults.FilledValue | tools/config_validator.py:57-60 | what is filled in is the schema's default itself, or that default filled by the property's own properties |
| ConfigDefaults.DefaultMeans | tools/config_validator.py:56-57 | looking up a default in every kind of property: a value, nothing or an exception |
| ConfigDefaults.FillsEveryDefault | tools/config_validator.py:55-60 | wherever the result has an object, it has every key the schema carries a default for there |
| ConfigDefaults.NeverRaisesIffWalkable | tools/config_validator.py:52-60 | a schema raises for no configuration iff at every depth its properties are an object of values "default" can be looked up in |
| ConfigDefaults.NullPropertyRaises | tools/config_validator.py:55-56 | a schema with one null property raises for every configuration object |

## Left out

- Named pipes, sockets, packet capture, files, DLL loading, clocks and randomness: results of those calls are arbitrary, within the contracts stated at `PipeWriter.PipeConn.Write` and `Pep.Provider`.
- Pep.Provider: its contract for installs and removals is assumed, not derived: a successful install returns a fresh non-zero id, a successful removal removes that filter, a failing call changes nothing; its answer to a query is arbitrary.
- Pep.PepState: nothing in the source sets the two-person rule or the approvals, so both start arbitrary, and the run model lets approvals change at any time; the quota map is never written and is omitted.
- Capture.Nose.RunCapture: `sent`, `dropped`, `packets` and `canonical` are unbounded; wrap-around at 2^64 is modelled for event ids only.
- PipeWriter.FrameWriter.Send: one call is atomic, as its mutex makes it; concurrent callers are a sequence of calls.
- Canonical.Serialize: the 33 stores are split over six helper methods that continue one another.
- PythonCodec.PyEncode: the struct format is its slot widths and byte order; Python's own checks of non-integers are omitted.
- AdapterFrame.Poll: only the frame is modelled, not what the operating system snapshot behind it found.
- Signatures.Classify: parsing the rule file is omitted; in lower-casing the severity, letters whose lower case is not ASCII stay as they are, which no comparison can see.
- Bridge.Bridge.PushEvent: calls are taken one at a time, though nothing in the ring or the bridge enforces that; null event pointers, commands, firewall stubs and the event fields the parser does not write are omitted; after shutdown queue and drop count are not part of the state.
- PacketParser.ParseToEvent: addresses and ports are the raw wire bytes, with no claim about their numeric value on a host; the total length is swapped as on a little-endian host.
- PacketParser.HasNopSled: a null payload pointer is not modelled; DNS and HTTP response heuristics, which nothing modelled calls, are omitted.
- Watchdog.Watchdog.RecordRestart: time is a real number rather than a float; reading the clock and updating the list are one step, as they are while one loop makes all calls (the lock does not cover the reading).
- Receipts.ProcessResponse: a decision or reason that is present but not an integer, and the reason texts, are omitted.
- Mouth.Mouth.Cycle: timestamps, rendering, the last threat line, the wording of level changes, partly written log records and counters beyond the machine word are omitted; trimming knows space, tab, line feed and carriage return.
- RuleStore.Store.MutateRules: stored entries that are not objects, message texts and the temporary file behind the replacement are omitted.
- ConfigDefaults.ApplyDefaults: values are immutable, so the sharing of a schema's default object with the result is not visible.
- The action numbers of `brain/pep_request.py` and of the Rust enforcement point differ and the layer between them is not shown; the two sides are joined at the response only.
- Ed25519 verification, federation TLS, regex scanning, JSON and TOML parsing, machine learning, dashboards and notifiers: library calls or presentation.
- Tiered routing and policy tables in `brain/`: finite tables that would add only easy members.
