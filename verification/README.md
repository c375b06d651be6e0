# Verified models of packetdrill

packetdrill runs scripts of system calls and packets against a live kernel and checks that
the kernel answers as the script says. This project models the parts of it whose correctness
is not visible in any single function, and proves what they guarantee.

- **Handing over system calls** (`Handoff`, `HandoffTheorems`). Blocking calls run in a
  second thread. The two threads share a mutex, three condition variables, a phase and the
  event cursor. The model is a transition system over all interleavings, with spurious
  wakeups, timeouts and errors; the theorems are about every reachable state and every run.
- **Parsing and building packets** (`Layers`, `Chains`, `Parser`, `ParserTheorems`, `Corruption`,
  `Encapsulation`, `Builder`, `Appending`). `Layers.Run` reads nested headers with one cursor;
  `Chains.Chain` says declaratively, in numbers of the standards only, which header lists a buffer
  holds; the two are proved to agree for every buffer and for both outcomes but rejection. The parser, with its two cursors and its mutable packet, is proved
  to compute `Layers.Run`. Encapsulation is proved to build what the parser reads back.
- **Checksums** (`Checksum`, `Crc32c`, `CrcOnWire`, `KnownAnswers`, `PacketChecksum`, `Sealing`). The Internet checksum of RFC 1071
  for hosts of either byte order, the CRC32c of section 6.8 and Appendix B of RFC 4960
  against bit-serial division, how packets are sealed and verified with them, and the answers
  of the program's own tests.
- **The hash map** (`Murmur`, `HashMap`, `Counting`). Linked nodes that are relinked in place
  when the map grows, against a mathematical map, and the injectivity of the hash.
- **Translation between script and live numbers** (`SctpIterator`, `SctpMap`, `SctpNumbers`,
  `SctpRaw`, `SctpRefine`, `SctpMapInPlace`, `TcpRun`, `Timestamps`). Walking and mapping SCTP chunks: `SctpMap` maps
  item by item, `SctpNumbers` says which numbers are translated, `SctpRaw` says what happens to memory for every buffer, `SctpRefine` when the
  two agree, and `SctpMapInPlace` holds the loops. TCP sequence numbers over whole runs that
  open a connection actively, and TCP timestamps over whole runs on the hash map.
- **The memory stream** (`MemStream`).

`Bytes`, `Arithmetic` and `Folding` hold what several modules share. Objects that the program updates in
place are classes; each method is proved against a function of the values it starts from, and
what the program promises is proved about those functions.

## How the model reads the program

- Bytes are numbers below 256 and buffers are arrays of bytes. Pointers into a buffer are
  offsets. The pointers of a packet are one map from the kind of header to the offset, and
  the header array is a sequence of at most six.
- Registers and hashes are 32-bit vectors; other fixed-width arithmetic is on integers with
  the wrap-around written out.
- The byte order of the host is a parameter (`little`) wherever it could matter.
- Clocks, the kernel, the network, `realloc` failures and the scheduler are parameters or
  nondeterministic choices. `die` is a terminal state.
- The byte behind the end of a packet (`slack`) has an arbitrary value, because parse_ipv4 is
  entered for IP in IP without the check that a header fits.

## Where the program differs from its comments or its purpose

- The handlers of sctp_freepaddrs and sctp_freeladdrs return without begin_syscall and
  end_syscall (run_system_call.c, lines 6852 and 6950). Given an end time in the script they
  are blocking calls, and the assertion on the recorded end time (line 7293) fails.
  `HandoffTheorems.AbortsIff` gives the exact condition, `UnbracketedCallAborts` a script.
- When a call returns just as the wait of a normal tear-down times out, syscalls_free reads
  the line number of the call in progress through a null pointer (run_system_call.c, lines
  7357 to 7361). `HandoffTheorems.ReportedCallIff` gives the exact condition,
  `LateCallHasNoEvent` a run.
- Mapping an SCTP packet inbound and back from the other end does not always give the packet
  back. map_outbound_live_sctp_packet compares the length of a RE-CONFIG chunk with the header
  size without converting it from network byte order (run_packet.c, line 1142), so that on
  little-endian hosts chunks of 256, 512, 768 and 1024 bytes are not mapped; the inbound test
  on the length of an NR-SACK leaves out the NR gap blocks (line 769), so that duplicates
  behind them are mapped outbound only; and the initiate tag of an INIT that is the script's
  local one is replaced and not replaced back (lines 727 and 1084). `SctpMap.PacketReturnsIff`
  gives the exact condition, `ExampleDoesNotReturn` and `NrSackDoesNotReturn` inputs.
- Fields are written without a test that they are part of the item. Inbound these are the
  sequence number of a RE-CONFIG response of less than 8 bytes (run_packet.c, line 880), the
  receiver's next TSN of one of 16 to 19 bytes (lines 881 to 883), and the duplicates of an
  NR-SACK (lines 769 to 773). Outbound no length is tested at all (lines 1079 to 1200). Inside
  the buffer such a store changes the item behind; at the end of the buffer it goes behind the
  buffer, and so do the reads of the counts of a short SACK (lines 1099 and 1100). The four
  lemmas `SctpRaw.InboundParamStaysIff`, `OutboundParamStaysIff`, `InboundChunkStaysIff` and
  `OutboundChunkStaysIff` give the exact conditions for both, wherever the item is.
  `ShortResponseSpills`, `ShortRequestSpills`, `NrSackSpills` and `ShortSackSpills` are inputs
  of the first kind, one for each lemma, `LastResponseOverruns` and `LastSackOverruns` of the
  second.
- gre_header_append does not initialize the flag bytes of a GRE header, and the buffer comes
  from malloc. `Encapsulation.ReadBackIff` gives the exact condition under which the parser
  reads such a packet back, `Appending.GreExampleReadBack` an input.
- The comment on hash_map_pick_bucket_count says "greater than"; the loop stops at "at least",
  and at the cap.
- The comments in sctp_iterator.h say that a failure returns NULL; the functions return the
  current position and set the error.

## Model

| member | source | states |
|---|---|---|
| `Handoff.StepKeepsInv` | gtests/net/packetdrill/run_system_call.c:7225-7328 | Every step of either thread, every spurious wakeup and every timeout keeps the invariant that ties the mutex, both program counters, the phase, the pending signals and the event histories together |
| `Handoff.MainKeepsInv` | gtests/net/packetdrill/run_system_call.c:7131-7209 | Every step of the main thread (next event, sniffing, timed wait, awaiting idle, enqueueing, yielding, tear-down) keeps that invariant |
| `Handoff.SysKeepsInv` | gtests/net/packetdrill/run_system_call.c:7225-7328 | Every step of the syscall thread (dispatch, timed wait, a handler with or without begin and end, kernel call, checks, going idle, exiting) keeps that invariant |
| `Handoff.SysAbortsIff` | gtests/net/packetdrill/run_system_call.c:7267-7318 | Of the assertions of the syscall thread only the one on the end time can fail, and it fails exactly when the handler has returned while the call was still enqueued |
| `Handoff.WakeKeepsInv` | gtests/net/packetdrill/run_system_call.c:7081-7111 | Spurious wakeups and the timeout of the timed wait keep the invariant |
| `Handoff.RunKeepsInv` | gtests/net/packetdrill/run_system_call.c:7081-7391 | The invariant holds after every sequence of steps |
| `HandoffTheorems.ReachableInv` | gtests/net/packetdrill/run_system_call.c:7330-7349 | The invariant holds in every state that is reachable from the state after thread creation, for every non-empty script |
| `HandoffTheorems.PhaseChangesUnderLock` | gtests/net/packetdrill/run_system_call.c:1654-1692 | In every interleaving the phase changes only along IDLE, ENQUEUED, RUNNING, DONE, IDLE or from IDLE to EXITING, only by the thread that owns the edge, with that thread holding the mutex before and after |
| `HandoffTheorems.AssertionsHold` | gtests/net/packetdrill/run_system_call.c:7258-7312 | In every reachable state: dispatch sees neither RUNNING nor DONE, a dispatched event is a blocking call, DONE implies that the syscall thread holds the mutex, and an assertion has failed only for a call without brackets, so never if all calls of the script are bracketed |
| `HandoffTheorems.NoLostWakeup` | gtests/net/packetdrill/run_system_call.c:7147-7161 | The threads are never both parked; a thread that is parked although its condition holds is about to be signalled by the other |
| `HandoffTheorems.RightEvent` | gtests/net/packetdrill/run_system_call.c:7278-7290 | The syscall thread works on the event enqueued last, and until begin_syscall that is still state->event |
| `HandoffTheorems.EventFrozenWhileEnqueued` | gtests/net/packetdrill/run.c:336-383 | However threads are scheduled, the event cursor does not move while the phase stays ENQUEUED, although the mutex is dropped in between |
| `HandoffTheorems.CallsOrdered` | gtests/net/packetdrill/run.c:385-427 | The reference list of blocking calls is increasing, sound and complete |
| `HandoffTheorems.CallLeftOnlyAtRest` | gtests/net/packetdrill/run_system_call.c:7163-7197 | In every run the script goes on behind a blocking call only after is_thread_sleeping was true, or the phase was IDLE, at that call |
| `HandoffTheorems.EventsUnderLock` | gtests/net/packetdrill/run.c:336-383 | In every reachable state an outbound packet is waited for and checked with the mutex held, and a timed event runs its action with the mutex held again |
| `HandoffTheorems.WhereMainDies` | gtests/net/packetdrill/run_system_call.c:7200-7209 | The main thread dies of an error reported at once, of a tear-down that timed out, or after the syscall thread has been joined; a call that cannot be handed over in time frees the state first |
| `HandoffTheorems.IdleIsClean` | gtests/net/packetdrill/run_system_call.c:7304-7315 | While the phase is IDLE no call is recorded, nor the end time of the last one |
| `HandoffTheorems.CallsCompleteInOrder` | gtests/net/packetdrill/run_system_call.c:7131-7161 | Completed, started and enqueued calls are prefixes of the blocking calls of the script, and at most one call is in flight |
| `HandoffTheorems.EveryCallExecutedOnce` | gtests/net/packetdrill/run_system_call.c:7351-7391 | A run that ends normally has executed every blocking call of the script exactly once, in order |
| `HandoffTheorems.CanAlwaysFinish` | gtests/net/packetdrill/run_system_call.c:7351-7391 | From every reachable live state some run without errors and timeouts reaches the end, and the normal end with all calls executed if all calls are bracketed and the main thread had not given up |
| `HandoffTheorems.RunsAreBounded` | gtests/net/packetdrill/run_system_call.c:7081-7391 | Under every scheduler, fair or not, a run without errors and timeouts has a bounded number of steps, plus a fixed number for each spurious wakeup and each further round of the yield loop |
| `HandoffTheorems.StuckIsEnded` | gtests/net/packetdrill/run_system_call.c:7081-7391 | No deadlock and no livelock: every such run that cannot go on is at an end, and at the normal one with every blocking call executed once if all calls are bracketed and the main thread had not given up |
| `HandoffTheorems.AbortsIff` | gtests/net/packetdrill/run_system_call.c:7293-7293 | A failed assertion of the syscall thread is reachable for a script if and only if the script has a blocking call whose handler does not call begin_syscall and end_syscall |
| `HandoffTheorems.UnbracketedCallAborts` | gtests/net/packetdrill/run_system_call.c:6852-6871 | The script of one blocking sctp_freepaddrs reaches a failed assertion |
| `HandoffTheorems.ReportedCallIff` | gtests/net/packetdrill/run_system_call.c:7355-7361 | In every reachable state in which syscalls_free reports that a call is in progress, there is no call whose line number it could read if and only if the phase is IDLE |
| `HandoffTheorems.LateCallHasNoEvent` | gtests/net/packetdrill/run_system_call.c:7355-7361 | Such a state is reachable with the script of one blocking call |
| `Layers.HeaderAtFits` | gtests/net/packetdrill/packet_parser.c:177-741 | Every header found has at least four bytes, no more than its total length, and stays in the packet, and so does what it allots to the next header |
| `Chains.RunIff` | gtests/net/packetdrill/packet_parser.c:146-171 | parse_packet accepts a buffer and reports a header list if and only if the buffer holds that list as a well-formed chain of at most six headers, announced by the Ethernet type |
| `Chains.UnknownIff` | gtests/net/packetdrill/packet_parser.c:699-741 | parse_packet calls a packet unknown exactly when its headers are right as far as they go, and the last of them, or the Ethernet type, announces a number that is not in the list |
| `Chains.LinkedIff` | gtests/net/packetdrill/packet_parser.c:61-117 | Both characterizations in one, over headers said in numbers: lengths, protocol and Ethernet type numbers, fragment bits, checksums |
| `Chains.Ipv4FieldsIff` | gtests/net/packetdrill/packet_parser.c:190-226 | The tests of parse_ipv4: total length, more-fragments bit and offset zero, and a header checksum that adds up to zero in one's complement |
| `Chains.GreBytesIs` | gtests/net/packetdrill/gre.h:66-82 | Each of the three optional fields of a GRE header takes exactly four bytes |
| `Corruption.Ipv4HeadersValid` | gtests/net/packetdrill/packet_parser.c:177-226 | Every IPv4 header of a packet that is not rejected, at any depth: its lengths, no fragment, and a header checksum that verifies |
| `Corruption.Ipv4WordRejected` | gtests/net/packetdrill/packet_parser.c:215-226 | A packet that is not rejected is, once a 16-bit word of one of its IPv4 headers, at any depth, is changed to a value that is not congruent modulo 65535 |
| `Corruption.SctpBurstRejected` | gtests/net/packetdrill/packet_parser.c:360-378 | ... and once its SCTP packet is changed within four consecutive bytes, inside or outside the checksum field |
| `Corruption.Derails` | gtests/net/packetdrill/packet_parser.c:146-175 | A packet is bad if one of its headers, reached over the same bytes, is |
| `Chains.ChainIsFound` | gtests/net/packetdrill/packet_parser.c:61-741 | Every well-formed chain with room for its headers is accepted and reported |
| `Chains.FoundIsChain` | gtests/net/packetdrill/packet_parser.c:61-741 | Everything that is accepted is a well-formed chain of at most six headers |
| `Chains.CarriesIff` | gtests/net/packetdrill/packet_parser.c:699-741 | A header carries the next one in the declarative sense exactly when dispatching on its protocol field leads to that kind with those lengths |
| `Chains.StackIff` | gtests/net/packetdrill/packet_parser.c:658-684 | The walk over a label stack stops exactly behind the first bottom bit |
| `ParserTheorems.RunTiles` | gtests/net/packetdrill/packet_parser.c:146-741 | For every input and every outcome the reported headers tile the buffer without gaps, stay in the packet, and are at most six with those read before |
| `ParserTheorems.SlackIgnored` | gtests/net/packetdrill/packet_parser.c:730-733 | The byte behind the packet, which the IP-in-IP entry may look at, makes no difference |
| `ParserTheorems.ChainNested` | gtests/net/packetdrill/packet_parser.c:699-741 | In an accepted chain the last header is layer 4, the one below layer 4 is IP, and all others are tunnels, except for UDP around encapsulated SCTP or TCP |
| `Parser.Packet.constructor` | gtests/net/packetdrill/packet.c:54-61 | A new packet has no headers and no pointers |
| `Parser.Packet.AppendHeader` | gtests/net/packetdrill/packet.c:105-127 | Fails exactly when there are six headers or the buffer is full; otherwise the new header starts at ip_bytes, which moves behind it |
| `Parser.Packet.Push` | gtests/net/packetdrill/packet.c:105-127 | While the two cursors agree, appending fails only because there are six headers, and records the parse cursor |
| `Parser.Packet.ParsePacket` | gtests/net/packetdrill/packet_parser.c:146-171 | For every buffer: no byte changes, result and headers are those of the reference reader, ip_bytes is the total length of an outermost IP header, and on success exactly one IP and one layer-4 pointer are set, to the innermost IP header and the last header; an accepted packet is flagged as encapsulated exactly when its last header is carried in UDP |
| `Parser.Packet.ParseLayer3ByProto` | gtests/net/packetdrill/packet_parser.c:61-117 | Computes the reference reader for an Ethernet type at the cursor, with both cursors in step and the buffer unchanged |
| `Parser.Packet.ParseLayer3` | gtests/net/packetdrill/packet_parser.c:119-144 | The same for an IP header of either version |
| `Parser.Packet.ParseIpv4` | gtests/net/packetdrill/packet_parser.c:177-268 | The same for an IPv4 header; sets the pointer if layer 4 is right inside, and ip_bytes if it is outermost |
| `Parser.Packet.CheckIpv4` | gtests/net/packetdrill/packet_parser.c:188-226 | Accepts exactly the headers whose lengths fit, that are no fragments and whose checksum verifies; the buffer is as before on every path |
| `Parser.Packet.ExpectedChecksum` | gtests/net/packetdrill/packet_parser.c:217-226 | The received and the expected checksum for the error message, with the field restored |
| `Parser.Packet.ParseIpv6` | gtests/net/packetdrill/packet_parser.c:275-342 | The same for an IPv6 header |
| `Parser.Packet.ParseSctp` | gtests/net/packetdrill/packet_parser.c:345-385 | Accepts exactly when the common header is there and the CRC matches; the zeroed field is restored |
| `Parser.Packet.CheckCrc` | gtests/net/packetdrill/packet_parser.c:357-367 | True exactly when the field holds the CRC of the packet with the field zeroed; the buffer is as before |
| `Parser.Packet.ParseTcp` | gtests/net/packetdrill/packet_parser.c:388-426 | Computes the reference reader for TCP |
| `Parser.Packet.ParseUdp` | gtests/net/packetdrill/packet_parser.c:429-487 | Computes the reference reader for UDP, with encapsulated SCTP or TCP inside, and sets the encapsulation flag |
| `Parser.Packet.ParseEncapsulated` | gtests/net/packetdrill/packet_parser.c:467-476 | Computes the reference reader for the SCTP or TCP packet inside UDP |
| `Parser.Packet.ParseUdpLite` | gtests/net/packetdrill/packet_parser.c:490-527 | Computes the reference reader for UDP-Lite |
| `Parser.Packet.ParseIcmpv4` | gtests/net/packetdrill/packet_parser.c:530-566 | Computes the reference reader for ICMPv4, which must come right after IPv4 |
| `Parser.Packet.ParseIcmpv6` | gtests/net/packetdrill/packet_parser.c:569-604 | Computes the reference reader for ICMPv6, which must come right after IPv6 |
| `Parser.Packet.ParseGre` | gtests/net/packetdrill/packet_parser.c:607-656 | Computes the reference reader for GRE |
| `Parser.Packet.ParseMpls` | gtests/net/packetdrill/packet_parser.c:658-697 | Computes the reference reader for a label stack |
| `Parser.Packet.WalkStack` | gtests/net/packetdrill/packet_parser.c:667-680 | The loop over the label stack finds its length, or that an entry overflows the packet |
| `Parser.Packet.ParseLayer4` | gtests/net/packetdrill/packet_parser.c:699-741 | Computes the reference reader for the protocol, and tells whether layer 4 is right inside |
| `Encapsulation.EncapsulateThenParse` | gtests/net/packetdrill/packet.c:239-286 | Encapsulate then parse is the identity: for every legally nested stack of at most six headers, outermost IP or MPLS, at most 65535 bytes, around a well-formed layer-4 packet, parsing the finished bytes succeeds and reports the finished headers, each with its kind, offset and length and spanning the rest |
| `Encapsulation.ReadBackIff` | gtests/net/packetdrill/gre_packet.c:30-54 | A stack as the append functions leave it is read back as it was finished if and only if the checksum, routing, key, sequence and version bits of every GRE header in it are zero |
| `Encapsulation.FinishStack` | gtests/net/packetdrill/packet.c:239-256 | Finishing a legal stack from the inside out leaves a well-formed chain and touches nothing before it |
| `Encapsulation.FinishedHeaderOk` | gtests/net/packetdrill/packet.c:239-256 | Each finished tunnel header satisfies the checks of the parser |
| `Encapsulation.FinishedCarries` | gtests/net/packetdrill/packet.c:40-52 | Each finished header names the header inside it in its protocol field |
| `Encapsulation.Ipv4Window` | gtests/net/packetdrill/ip_packet.c:187-203 | A finished IPv4 header has the total length, the protocol and a checksum that verifies, and keeps version, header length and fragment field |
| `Encapsulation.Ipv6Window` | gtests/net/packetdrill/ip_packet.c:205-220 | A finished IPv6 header has the payload length and the next header |
| `Encapsulation.GreWindow` | gtests/net/packetdrill/gre_packet.c:43-54 | A finished GRE header has the protocol and keeps its flags |
| `Encapsulation.MplsWindow` | gtests/net/packetdrill/mpls_packet.c:69-77 | Finishing a label stack changes no byte |
| `Encapsulation.WindowKeeps` | gtests/net/packetdrill/ip_packet.c:187-220 | Finishing keeps every byte of a header but length, protocol and checksum of IPv4, length and next header of IPv6, and the protocol of GRE |
| `Encapsulation.FinishKeeps` | gtests/net/packetdrill/packet.c:219-249 | ... and every other byte of the packet |
| `Builder.Ipv4HeaderFinish` | gtests/net/packetdrill/ip_packet.c:187-203 | In place, the buffer becomes the one with the IPv4 header finished |
| `Builder.Ipv6HeaderFinish` | gtests/net/packetdrill/ip_packet.c:205-220 | The same for IPv6 |
| `Builder.GreHeaderFinish` | gtests/net/packetdrill/gre_packet.c:43-54 | The same for GRE |
| `Builder.FinishAt` | gtests/net/packetdrill/packet.c:245-255 | One turn of the loop finishes one header, in the buffer and in the header list |
| `Builder.FinishEncapsulationHeaders` | gtests/net/packetdrill/packet.c:239-256 | The backward loop finishes all headers, as the recursive definition says |
| `Builder.CopyWithHeadroom` | gtests/net/packetdrill/packet.c:142-231 | The copy holds the bytes, the headers and the pointers of the packet behind the headroom |
| `Builder.Encapsulate` | gtests/net/packetdrill/packet.c:258-286 | The result holds outer and inner bytes end to end with all headers finished, the joined header list, the shifted pointers, and the sum of the lengths |
| `Builder.EncapsulateSendParse` | gtests/net/packetdrill/packet.c:258-286 | End to end: what is encapsulated, sent and parsed comes back accepted, with the same headers and lengths and with the innermost headers named, and with the same total length if IP is outermost; the parser sets the pointers that the encapsulated packet has, and of the joined bytes only lengths, protocols and checksums of tunnel headers have changed |
| `Appending.PackUnpack` | gtests/net/packetdrill/mpls.h:56-88 | Packing a label stack entry and its four accessors are inverse, for every entry in range and for every 32-bit word |
| `Appending.EntryOnWire` | gtests/net/packetdrill/mpls.h:43-49 | The four bytes of a label stack entry as RFC 3032 lays them out |
| `Appending.NewStackEntryExact` | gtests/net/packetdrill/mpls_packet.c:29-50 | Values are accepted exactly when some label stack entry holds them; then the word that is built is the only one from which the four accessors read them |
| `Appending.LabelStack.Append` | gtests/net/packetdrill/mpls.h:106-112 | Appends unless there are six entries |
| `Appending.StackOkIff` | gtests/net/packetdrill/mpls_packet.c:52-67 | A copied label stack is one the parser walks to its end exactly when the bottom bit is on the last entry and on no other |
| `Appending.AppendBytes` | gtests/net/packetdrill/ip_packet.c:125-185 | Appends a header with given contents at ip_bytes, or fails and changes nothing |
| `Appending.AppendedIsBuilt` | gtests/net/packetdrill/ip_packet.c:125-185 | Appended IPv4 and IPv6 headers and proper label stacks are fit for encapsulation; a GRE header exactly when the bits that the parser looks at are zero |
| `Appending.GreExampleReadBack` | gtests/net/packetdrill/gre_packet.c:30-41 | A concrete packet with arbitrary bytes in the GRE flags: it comes back exactly when the flags are clear, so not with a key bit, but with a reserved bit |
| `Checksum.IpChecksumPartial` | gtests/net/packetdrill/checksum.c:34-54 | The loop adds up all 32-bit words and the trailing bytes, in the byte order of the host |
| `Checksum.AddTrailingBytes` | gtests/net/packetdrill/checksum.c:42-51 | The end of the loop for one, two or three bytes |
| `Checksum.IpChecksumFold` | gtests/net/packetdrill/checksum.c:56-64 | Both loops end, and the result is the complement of the one's-complement normal form of the sum |
| `Checksum.Ipv4Checksum` | gtests/net/packetdrill/checksum.c:113-117 | For every byte string below 2^32 bytes the accumulator does not overflow, and what is stored is the RFC 1071 checksum in network byte order on hosts of either byte order |
| `Checksum.TransportChecksum` | gtests/net/packetdrill/checksum.c:66-102 | Summing the pseudo-header and then the payload gives the checksum of the two laid end to end |
| `Checksum.Sum32IsSum16` | gtests/net/packetdrill/checksum.c:37-40 | 32-bit loads change the sum of 16-bit words by a multiple of 65535 only, and zero stays zero |
| `Checksum.ByteOrder` | gtests/net/packetdrill/checksum.c:34-54 | Loading words in the other byte order multiplies the sum by 256 modulo 65535 |
| `Checksum.Sum32Concat` | gtests/net/packetdrill/checksum.c:95-102 | The sum over a concatenation is the sum of the sums when the first part is a multiple of four bytes |
| `Checksum.ChecksumVerifies` | gtests/net/packetdrill/ip_packet.c:196-198 | Zero the field, compute, store, recompute: exactly zero, for every string and every even offset |
| `Checksum.VerifiesIff` | gtests/net/packetdrill/packet_parser.c:215-216 | Recomputing gives zero exactly when the field holds the checksum, or the other representation of zero |
| `Checksum.WordChanged` | gtests/net/packetdrill/checksum.c:31-66 | A message that verifies still does after a word is changed if and only if the new value is congruent modulo 65535, unless only zeros are left |
| `Checksum.PaddedSum` | gtests/net/packetdrill/checksum.c:31-66 | An odd byte at the end counts as if a zero followed it |
| `Crc32c.SctpCrc32c` | gtests/net/packetdrill/checksum.c:239-255 | The table-driven loop computes the bit-at-a-time reflected division by 0x82F63B78, for every message |
| `Crc32c.TableStepIsEightBits` | gtests/net/packetdrill/checksum.c:170-237 | One table step equals eight bit steps, for every register and every byte |
| `Crc32c.TableIsShift8` | gtests/net/packetdrill/checksum.c:172-237 | Each of the 256 table entries is its index after eight bit steps |
| `Crc32c.BurstDetected` | gtests/net/packetdrill/checksum.c:239-255 | Messages of equal length that differ, but only inside four consecutive bytes, have different checksums |
| `CrcOnWire.CrcBytes` | gtests/net/packetdrill/checksum.c:248-254 | Byte k of the checksum field in memory is bits 8k to 8k+7 of the complemented register |
| `CrcOnWire.CrcMatchesIff` | gtests/net/packetdrill/packet_parser.c:360-378 | The test of parse_sctp, byte by byte |
| `CrcOnWire.ResidueIff` | gtests/net/packetdrill/checksum.c:239-255 | A message and four bytes behind it leave 0xb798b438 in the bit-serial register if and only if the four bytes are its checksum in the order in which it is sent |
| `CrcOnWire.WidenIsByte` | gtests/net/packetdrill/checksum.c:245-247 | A byte enters the register as the number that it is |
| `KnownAnswers.SctpAnswer` | gtests/net/packetdrill/checksum_test.c:119-134 | The CRC that the program's own test expects, and the packet of the test verifies |
| `KnownAnswers.TcpOverIpv4Answer` | gtests/net/packetdrill/checksum_test.c:37-66 | The IPv4 header and the TCP segment of the tests verify |
| `KnownAnswers.TcpOverIpv6Answer` | gtests/net/packetdrill/checksum_test.c:68-99 | The same over IPv6 |
| `KnownAnswers.LiteOverIpv4Answer` | gtests/net/packetdrill/checksum_test.c:136-161 | The UDP-Lite packet of the test, whose last bytes are not covered, verifies |
| `KnownAnswers.LiteOverIpv6Answer` | gtests/net/packetdrill/checksum_test.c:163-191 | The same over IPv6 |
| `PacketChecksum.BurstBreaksCrc` | gtests/net/packetdrill/packet_parser.c:359-367 | A valid SCTP packet changed inside four consecutive bytes, all inside or all outside the checksum field, no longer matches |
| `PacketChecksum.BurstRejected` | gtests/net/packetdrill/packet_parser.c:359-367 | ... and parse_sctp returns PACKET_BAD for it |
| `PacketChecksum.StoreSum` | gtests/net/packetdrill/packet_checksum.c:38-40 | Zeroing, computing and storing a 16-bit checksum makes recomputation yield zero, and touches only the field |
| `PacketChecksum.SumOkIff` | gtests/net/packetdrill/checksum.c:66-107 | Adding up pseudo-header and packet yields zero if and only if the two addresses, the protocol, the length and the packet add up to zero in one's complement, for both versions of IP |
| `PacketChecksum.PseudoSum` | gtests/net/packetdrill/checksum.c:66-93 | What the pseudo-header contributes: addresses, protocol and length |
| `PacketChecksum.CrcStoredMatches` | gtests/net/packetdrill/packet_checksum.c:48-60 | With the CRC stored, or one more if a bad one is asked for, the test of parse_sctp succeeds exactly in the first case |
| `PacketChecksum.StoreCrc` | gtests/net/packetdrill/packet_checksum.c:52-60 | The stored CRC matches exactly when the bad-CRC flag is clear, and only the field is touched |
| `PacketChecksum.StoreTransport` | gtests/net/packetdrill/packet_checksum.c:92-99 | The checksum with the IPv4 or IPv6 pseudo-header verifies afterwards |
| `PacketChecksum.ChecksumLayer4` | gtests/net/packetdrill/packet_checksum.c:47-121 | Every checksum that the receiver of an SCTP, TCP, UDP, UDP-Lite or ICMP packet tests verifies afterwards, the SCTP CRC exactly when the flag is clear; nothing but the check fields is touched |
| `PacketChecksum.ChecksumPacket` | gtests/net/packetdrill/packet_checksum.c:34-212 | The same for the whole packet, with the IPv4 header checksum, plain or in UDP; nothing but the check fields is touched |
| `PacketChecksum.StoreLite` | gtests/net/packetdrill/packet_checksum.c:100-113 | The UDP-Lite field holds the checksum of the pseudo-header and the covered bytes, and recomputing yields zero if the field is covered |
| `Sealing.SealSendParse` | gtests/net/packetdrill/packet_checksum.c:48-68 | An SCTP packet over IPv4 or IPv6, plain or in UDP, is given its checksums, sent and parsed: it is accepted exactly when the bad-CRC flag is clear, and then with its headers |
| `Sealing.SealedOutcome` | gtests/net/packetdrill/packet_parser.c:345-385 | What parse_packet makes of such a packet, headers and outcome |
| `Sealing.RegionIsPayload` | gtests/net/packetdrill/packet_checksum.c:34-46 | What checksum_packet takes for layer 4 is what parse_packet has found behind the IP header |
| `Sealing.Layer4IsLast` | gtests/net/packetdrill/packet_checksum.c:48-121 | ... and of the kind of the last header that it has found |
| `Murmur.MurmurHash3` | gtests/net/packetdrill/hash.c:99-155 | The block loop, tail and finalization over the bytes of a key compute the fold of rounds over its words, for keys of any length and hosts of either byte order |
| `Murmur.FmixInverse` | gtests/net/packetdrill/hash.c:73-82 | The finalization has an inverse |
| `Murmur.UnhashInverse` | gtests/net/packetdrill/hash.c:99-155 | A 4-byte key can be computed back from its hash, whatever the seed |
| `Murmur.HashKeyIs` | gtests/net/packetdrill/hash_map.c:34-39 | Hashing the four bytes of a key in memory is the same on hosts of either byte order |
| `Murmur.KnownHashes` | gtests/net/packetdrill/hash.c:99-155 | The values published for MurmurHash3_x86_32, for keys with and without tail |
| `Murmur.HashKeyInjective` | gtests/net/packetdrill/hash_map.c:34-39 | hash_key has no collisions on 32-bit keys |
| `HashMap.MaskIsRemainder` | gtests/net/packetdrill/hash_map.c:42-46 | Masking with a power of two less one is the remainder |
| `HashMap.BucketIsRemainder` | gtests/net/packetdrill/hash_map.c:42-46 | The bucket number is the hash modulo the number of buckets |
| `HashMap.PickBucketCount` | gtests/net/packetdrill/hash_map.c:51-57 | The smallest power of two that is at least the number of keys, or the cap of 2^30 |
| `HashMap.HashMap.constructor` | gtests/net/packetdrill/hash_map.c:59-66 | A new map is valid and stands for the empty map |
| `HashMap.HashMap.Link` | gtests/net/packetdrill/hash_map.c:88-94 | Putting a node in front of its list keeps the structure and adds exactly that node |
| `HashMap.HashMap.Grow` | gtests/net/packetdrill/hash_map.c:100-121 | Relinking in place keeps the structure and exactly the same nodes, in twice the buckets |
| `HashMap.HashMap.MoveList` | gtests/net/packetdrill/hash_map.c:109-117 | The inner loop moves every node of an old list and no other |
| `HashMap.HashMap.Insert` | gtests/net/packetdrill/hash_map.c:124-136 | Inserting a key that is not there adds it to the abstract map, and keeps the load factor |
| `HashMap.HashMap.Find` | gtests/net/packetdrill/hash_map.c:138-149 | The walk finds the node of a key exactly when the key is in the map |
| `HashMap.HashMap.Set` | gtests/net/packetdrill/hash_map.c:138-149 | The abstract map is updated at the key, and every invariant is kept, growth included |
| `HashMap.HashMap.Get` | gtests/net/packetdrill/hash_map.c:151-162 | Finds a value exactly when the abstract map has the key, and returns that value |
| `HashMap.HashMap.CountsNodes` | gtests/net/packetdrill/hash_map.c:88-136 | No key occurs twice, every key sits in the list of its hash modulo the number of buckets, and num_keys is the number of nodes |
| `HashMap.AfterIsLatest` | gtests/net/packetdrill/hash_map.c:138-162 | The abstract map after a sequence of calls holds the latest value set for each key |
| `HashMap.Replay` | gtests/net/packetdrill/hash_map.c:59-162 | For every sequence of set and get calls on a new map, each get finds the latest value set for its key, and nothing exactly when there is none |
| `SctpIterator.Iterator.GetCurrent` | gtests/net/packetdrill/sctp_iterator.c:33-54 | Null exactly at the end; an item without error lies inside |
| `SctpIterator.Iterator.Begin` | gtests/net/packetdrill/sctp_iterator.c:56-65 | The same at the beginning; the parameter and cause iterators are the same code |
| `SctpIterator.Iterator.Next` | gtests/net/packetdrill/sctp_iterator.c:67-87 | Advances to the next multiple of four behind the item, or to the end if that is nearer, and reads the item there |
| `SctpIterator.Visit` | gtests/net/packetdrill/sctp_iterator.c:33-204 | For every buffer the iterators visit exactly the items of the reference walk, and end as it does |
| `SctpIterator.ItemsInside` | gtests/net/packetdrill/sctp_iterator.c:67-87 | Every item visited is complete and has its own bytes inside the buffer: together they take no more than was walked over |
| `SctpIterator.SerializedWalk` | gtests/net/packetdrill/sctp_iterator.c:33-204 | A serialized list of padded items yields exactly that list and then the end without error, with the last padding present, partial or missing |
| `SctpIterator.PaddingIs` | gtests/net/packetdrill/sctp_iterator.c:76-86 | Padding leads to the least multiple of four that holds the item |
| `SctpIterator.ItemsPlaced` | gtests/net/packetdrill/sctp_iterator.c:33-87 | Every item of a walk starts a multiple of four bytes behind the first one, right behind the padding of the item before it, and is read from there |
| `SctpMap.PacketReturnsIff` | gtests/net/packetdrill/run_packet.c:1064-1209 | A well-formed packet of all kinds of chunks mapped inbound and then outbound from the other end comes back byte for byte if and only if no chunk of it is lost: by the length test on the unconverted field of RE-CONFIG, by NR gap blocks in front of duplicates, or by an initiate tag that is not renamed back |
| `SctpMap.ReturnsForAll` | gtests/net/packetdrill/run_packet.c:707-712 | It comes back for all initial TSNs if and only if it does where the live ones are one ahead |
| `SctpMap.ChunkReturns` | gtests/net/packetdrill/run_packet.c:1076-1207 | The same for one chunk, whose header is never changed |
| `SctpMap.LosesTagIff` | gtests/net/packetdrill/run_packet.c:232-235 | Where the remote tags agree, as they do once recorded, a tag is lost exactly when it is the local tag of the script and the live one differs |
| `SctpMap.SkippedLengths` | gtests/net/packetdrill/run_packet.c:1142-1142 | The skipped RE-CONFIG chunks are those of 256, 512, 768 and 1024 bytes on little-endian hosts, and none on big-endian hosts |
| `SctpMap.ExampleDoesNotReturn` | gtests/net/packetdrill/run_packet.c:1142-1142 | A concrete well-formed packet that does not come back on a little-endian host |
| `SctpMap.NrSackDoesNotReturn` | gtests/net/packetdrill/run_packet.c:769-773 | A well-formed NR-SACK with one NR gap block and one duplicate does not come back on any host |
| `SctpMap.ParamBack` | gtests/net/packetdrill/run_packet.c:848-902 | Each RE-CONFIG parameter comes back, responses of length 12 and 20 included |
| `SctpMap.InboundKeepsDistance` | gtests/net/packetdrill/run_packet.c:707-826 | An inbound packet keeps the distance of its TSN from the initial TSN of the end that owns it |
| `SctpMap.DuplicatesKeepDistance` | gtests/net/packetdrill/run_packet.c:749-775 | ... and so does every duplicate TSN of a SACK; one of an NR-SACK does if and only if there are no NR gap blocks or the local TSNs agree |
| `SctpNumbers.PacketTranslatedIn` | gtests/net/packetdrill/run_packet.c:696-912 | In a well-formed inbound packet exactly the numbers that the tables list, by type code, offset and owner, are translated, each keeping its distance from the base of its end; tags are renamed, and no other byte changes |
| `SctpNumbers.PacketTranslatedOut` | gtests/net/packetdrill/run_packet.c:1064-1211 | The same outbound, with the bases exchanged; the mapping succeeds |
| `SctpNumbers.ChunkTranslatedIn` | gtests/net/packetdrill/run_packet.c:713-826 | The same for one inbound chunk of every type; of an NR-SACK with NR gap blocks only the cumulative TSN |
| `SctpNumbers.ChunkTranslatedOut` | gtests/net/packetdrill/run_packet.c:1076-1139 | The same for one outbound chunk; of a RE-CONFIG chunk of the four lengths nothing on little-endian hosts |
| `SctpNumbers.ParamTranslatedIn` | gtests/net/packetdrill/run_packet.c:848-902 | The numbers of RE-CONFIG parameters 0x000d to 0x0012, inbound |
| `SctpNumbers.ParamTranslatedOut` | gtests/net/packetdrill/run_packet.c:1156-1200 | The same outbound |
| `SctpNumbers.OutboundSucceedsIff` | gtests/net/packetdrill/run_packet.c:1064-1074 | An outbound packet that is mapped item by item is rejected exactly when some chunk, or some parameter that is looked at, is partial |
| `SctpNumbers.ChunkOkIff` | gtests/net/packetdrill/run_packet.c:713-826 | Which chunks are well-formed, in numbers |
| `SctpNumbers.ParamOkIff` | gtests/net/packetdrill/run_packet.c:848-902 | Which parameters are well-formed, in numbers |
| `SctpRaw.InboundParamStaysIff` | gtests/net/packetdrill/run_packet.c:848-902 | Inbound, for a parameter anywhere in a buffer, its last bytes included: mapping finishes and leaves all bytes outside it for all differences, if and only if it is not a response of less than 8 or of 16 to 19 bytes |
| `SctpRaw.OutboundParamStaysIff` | gtests/net/packetdrill/run_packet.c:1156-1200 | Outbound, the same if and only if the parameter is long enough for the fields of its kind |
| `SctpRaw.InboundChunkStaysIff` | gtests/net/packetdrill/run_packet.c:713-826 | Inbound, for a chunk anywhere in a buffer: mapping finishes and leaves all bytes outside it for all differences and tags, if and only if it is not an NR-SACK whose length leaves out the NR gap blocks in front of duplicates |
| `SctpRaw.OutboundChunkStaysIff` | gtests/net/packetdrill/run_packet.c:1076-1139 | Outbound, the same if and only if the counts of a SACK lie in the buffer and the chunk is long enough for the fields of its kind, all duplicates included |
| `SctpRaw.ShortResponseSpills` | gtests/net/packetdrill/run_packet.c:881-883 | A concrete response of 16 bytes whose mapping changes the header of the parameter behind it |
| `SctpRaw.LastResponseOverruns` | gtests/net/packetdrill/run_packet.c:881-883 | The same response at the end of a buffer is written behind the buffer, for all differences |
| `SctpRaw.ShortRequestSpills` | gtests/net/packetdrill/run_packet.c:1188-1192 | A concrete outbound request of 4 bytes whose mapping changes the parameter behind it |
| `SctpRaw.ShortSackSpills` | gtests/net/packetdrill/run_packet.c:1101-1103 | A concrete outbound SACK whose mapping changes the chunk behind it |
| `SctpRaw.LastSackOverruns` | gtests/net/packetdrill/run_packet.c:1099-1100 | An outbound SACK of 8 bytes at the end of a buffer has its counts read behind the buffer, for all differences and tags |
| `SctpRaw.NrSackSpills` | gtests/net/packetdrill/run_packet.c:769-773 | A concrete inbound NR-SACK whose mapping changes the chunk behind it |
| `SctpRefine.RawIsMapIn` | gtests/net/packetdrill/run_packet.c:696-912 | Where no item is written outside, the memory after the inbound loop holds the packet mapped item by item, tags and NR-SACK included, and nothing else has changed |
| `SctpRefine.RawIsMapOut` | gtests/net/packetdrill/run_packet.c:1064-1211 | The same for the outbound loop, failures included |
| `SctpRefine.SafeInIff` | gtests/net/packetdrill/run_packet.c:713-826 | A chunk can be mapped by itself inbound exactly when nothing outside it is written |
| `SctpRefine.SafeOutIff` | gtests/net/packetdrill/run_packet.c:1076-1139 | ... and outbound exactly when its counts are in it and nothing outside it is written |
| `SctpMapInPlace.MapPacket` | gtests/net/packetdrill/run_packet.c:696-912 | For every buffer, both loops over the chunks do what the byte-level definition says, in place: they stop or fail at an incomplete chunk, and end in the assertion on a length below four |
| `SctpMapInPlace.MapThereAndBack` | gtests/net/packetdrill/run_packet.c:1064-1211 | Both loops on one buffer that holds a well-formed packet, inbound and then outbound from the other end: both finish, and the buffer is what it was if and only if no chunk is lost |
| `SctpMapInPlace.MapChunk` | gtests/net/packetdrill/run_packet.c:1076-1207 | One turn of either loop, with the length test on the unconverted field |
| `SctpMapInPlace.MapChunkIn` | gtests/net/packetdrill/run_packet.c:713-826 | One inbound chunk, with its length tests, SACK and NR-SACK duplicates and initiate tags |
| `SctpMapInPlace.MapChunkOut` | gtests/net/packetdrill/run_packet.c:1076-1139 | One outbound chunk, without length tests |
| `SctpMapInPlace.MapParams` | gtests/net/packetdrill/run_packet.c:836-906 | The loops over the parameters of RE-CONFIG, for every buffer |
| `SctpMapInPlace.MapParam` | gtests/net/packetdrill/run_packet.c:847-902 | One parameter, inbound or outbound |
| `SctpMapInPlace.MapDuplicates` | gtests/net/packetdrill/run_packet.c:1101-1103 | The loop over the duplicate TSNs rewrites each of them |
| `TcpRun.RemoteIsnsAgree` | gtests/net/packetdrill/run_packet.c:3335-3341 | In every reachable state the remote ISN of the script and the live one are equal |
| `TcpRun.AckedIsFinal` | gtests/net/packetdrill/run_packet.c:3335-3341 | Once the SYN-ACK has been received, no packet changes anything about the connection |
| `TcpRun.OpeningKeeps` | gtests/net/packetdrill/run_packet.c:449-514 | Before it, retransmitted SYNs and other packets leave the recorded ISNs alone |
| `TcpRun.ActiveOpen` | gtests/net/packetdrill/run_packet.c:363-446 | After every handshake, whatever follows, the recorded ISNs are those of the two SYNs and of the SYN-ACK |
| `TcpRun.AcceptsExactly` | gtests/net/packetdrill/run_packet.c:2588-2664 | verify_tcp accepts exactly a header with the script's fields and with the translation of the script's numbers modulo 2^32, for every setting of the flags by which window, options or sequence number are not compared or not mapped |
| `TcpRun.OutboundAfterOpen` | gtests/net/packetdrill/run_packet.c:1248-1263 | After the handshake the header of an outbound packet is accepted exactly when the kernel's has the script's fields and its numbers moved by the kernel's ISN and by the SYN-ACK, for every ISN |
| `TcpRun.InboundAfterOpen` | gtests/net/packetdrill/run_packet.c:990-1004 | What is injected after the handshake: sequence numbers moved by the SYN-ACK, acknowledgements and SACK edges by the kernel's ISN |
| `TcpRun.AnyIsnAccepted` | gtests/net/packetdrill/run_packet.c:449-500 | Every ISN that the kernel chooses for its SYN is accepted, unless the script gives an absolute number |
| `TcpRun.TranslationInverse` | gtests/net/packetdrill/socket.h:304-328 | The four offset functions are pairwise inverse, on numbers and on SACK edges |
| `TcpRun.OutboundSacks` | gtests/net/packetdrill/run_packet.c:1257-1263 | Outbound, both edges of every SACK block lose what the script's numbers are behind the live ones |
| `TcpRun.AcknowledgementsComeBack` | gtests/net/packetdrill/run_packet.c:999-1004 | Acknowledgements and SACK edges go through the inbound mapping of one end and the outbound mapping of the other unchanged |
| `TcpRun.OffsetSackBlocks` | gtests/net/packetdrill/run_packet.c:572-597 | The loop adds the offset to both edges of every block |
| `TcpRun.Socket.Sniff` | gtests/net/packetdrill/run_packet.c:2997-3032 | The loop skips packets that are not for the socket and learns from the first SYN |
| `TcpRun.Socket.RunOutbound` | gtests/net/packetdrill/run_packet.c:3096-3299 | State change and verdict for an outbound packet are those of the step function |
| `TcpRun.Socket.RunInbound` | gtests/net/packetdrill/run_packet.c:3319-3341 | State change and injected packet for an inbound packet are those of the step function |
| `Timestamps.EchoIsLatest` | gtests/net/packetdrill/run_packet.c:1015-1032 | After every run an echo reply of the script becomes the value that the kernel sent in the latest packet for which the script has the value echoed, and it is an error exactly when there is no such packet; without ACK flag or echo reply, or with an absolute one, the packet stays as it is |
| `Timestamps.OthersChangeNothing` | gtests/net/packetdrill/run_packet.c:1266-1273 | Packets without both timestamps, and replies, change nothing; the former are shown as they are |
| `Timestamps.ShownIsAdvance` | gtests/net/packetdrill/run_packet.c:1269-1295 | The value compared with the script's is as far from it as the clock of the kernel has run ahead of the script's since the first packet with both, modulo 2^32; it is equal exactly when both have advanced alike |
| `Timestamps.ValuesAreLatest` | gtests/net/packetdrill/run_packet.c:529-537 | The values kept after a run are those of the latest packet for each value of the script |
| `Timestamps.BaselineIsFirst` | gtests/net/packetdrill/run_packet.c:1282-1287 | The baseline is the first packet with both timestamps, whether or not its value is kept |
| `Timestamps.Socket.MapOutbound` | gtests/net/packetdrill/run_packet.c:1269-1295 | State change and value shown are those of the step function, on the hash map of the socket |
| `Timestamps.Socket.MapInbound` | gtests/net/packetdrill/run_packet.c:1010-1032 | The echo reply injected, or the error, is that of the step function |
| `Timestamps.Replay` | gtests/net/packetdrill/socket.c:31-38 | Every run of packets on a new socket and its hash map gives the results of the step function |
| `MemStream.GrowthIsLinear` | gtests/net/packetdrill/open_memstream.c:52-78 | After any non-empty sequence of writes the capacity holds the data and the null byte, is at most 1024 or twice the data, and is at least the sum of all earlier capacities |
| `MemStream.Stream.Grow` | gtests/net/packetdrill/open_memstream.c:52-78 | Makes room, keeps the data, or fails and changes nothing |
| `MemStream.Stream.Write` | gtests/net/packetdrill/open_memstream.c:85-100 | The buffer holds everything written and a null byte behind it, and the size is reported; a failed write changes nothing |
| `MemStream.WriteAll` | gtests/net/packetdrill/open_memstream.c:85-140 | After any sequence of writes: contents, size, null byte, and capacity and copying linear in the data |

## Left out

- Argument decoding, the bodies of system calls and the checks of their results: plumbing over foreign structures. A blocking call is an arbitrary delay, between begin and end if its handler has them.
- Cancelling the syscall thread and testing whether it sleeps: cancellation is terminal, and the test has an arbitrary result.
- Scripts without any event: the interpreter reads the first event unconditionally.
- That pthread_create precedes the initialization of the condition variables in syscalls_new: the model starts with all of them ready.
- The alignment assertion of ip_checksum_partial: pointers are offsets here and have no alignment.
- PacketChecksum.ChecksumPacket: pointers are taken to be where the IP and UDP lengths put them, and the layer-4 packet to be as long as its header.
- UDP's rule that a zero checksum is sent as all ones: the program does not implement it.
- Builder.CopyWithHeadroom: the lists of SCTP chunks and the locations of TCP timestamps are not copied, and the first header is at offset zero.
- Builder.Encapsulate: takes IPv4 headers without options, as all append functions build them.
- Encapsulation.EncapsulateThenParse: with MPLS outermost the parser does not record the total length, so `Builder.EncapsulateSendParse` states it for an outermost IP header only.
- SctpRefine.RawIsMapIn: excludes packets with an item that is written outside, which no mapping item by item describes; `SctpRaw.RawPacket` covers them.
- SctpRefine.RawIsMapOut: excludes the same, and SACKs whose counts are read from the chunk behind.
- Verification tags in the common header of SCTP, and the flag by which generic packets are not mapped at all.
- TcpRun.OutboundAfterOpen: is about the TCP header; the IP header, the options, the payload and the time of the packet are checked by other functions.
- TcpRun.Socket.RunOutbound: its verdict is that of verify_tcp without encapsulation in UDP.
- Timestamps.ShownIsAdvance: the tolerance that is applied to the difference, and finding the option in the packet, are not part of it.
- Passive opening: the ISN is written to the listening socket before the child socket exists, and the child's remote ISN stays zero.
- Splicing prepared COOKIE-ECHO and HEARTBEAT-ACK chunks into packets.
- HashMap.HashMap.Set: allocation does not fail; hash_map_free is not modelled.
- MemStream.WriteAll: the writes it makes do not fail; failing ones are covered by `MemStream.Stream.Write`.
- The 128-bit variants of MurmurHash3, which the map does not use.
- Devices, packet sockets, packet dumps, configuration, symbols, logging and formatting.
