# xtraceroute hop discovery, modelled in Dafny

xtraceroute finds the routers between this host and a destination. Its TTL sweep runs rounds for
TTL 1 to 64. Round `ttl` sends `tries_per_hop` ICMP Echo Requests with that TTL, numbering probe
`i` with sequence `(ttl - 1) * tries_per_hop + i`. It then collects the ICMP Time Exceeded and
Echo Reply messages that come back, and drops the ones whose sequence number belongs to another
round. At most one hop result is recorded per round. The sweep stops at the first round in which
the destination itself answered.

This project models that hop-discovery core and proves properties of the model:

- `wire.dfy` (`Wire`): bytes, big-endian 16-bit fields, addresses, and `Option`/`Result`.
  A Rust panic (`expect`, a slice out of range, a Duration divided by zero) is `Result.Panic`.
  It ends the run; it is never a dropped reply.
- `checksum.dfy` (`InternetChecksum`): the Internet checksum of RFC 1071, section 1.
  Word `skip` is left out, as pnet's `util::checksum(data, 1)` does.
- `icmp.dfy` (`Icmp`): `create_icmp_packet` as writes into the two reused byte arrays, at the
  field offsets of RFC 791, section 3.1 (IPv4) and RFC 792 (Echo Request).
- `replies.dfy` (`Replies`): probe numbering and round windows, reply decoding
  (`process_reply` and the receive step), and `filter_out_unhandled_packets`.
- `rounds.dfy` (`Rounds`): `duration_to_string` and the hop result of one round.
- `traceroute.dfy` (`Traceroute`): `send_requests` as a loop over the buffers, the receive loop,
  and `trace_route` as a loop over rounds. The two buffers are zero-filled once
  (`[0u8; 64]`, `[0u8; 40]`) and reused, so every probe sent is a fixed byte sequence. Both loops are proved equal to specification functions, and the
  properties of the sweep are proved as lemmas about those functions.

The network is a parameter. `inbox[ttl - 1]` is the sequence of datagrams that reach round `ttl`
before its timeout, each with its sender and elapsed time. Every datagram handed to `send_to` is
returned in a log, round by round. Durations are natural numbers of nanoseconds.

Some points where the code is followed as written:

- Header length: `IPV4_HEADER_LEN` is 21, and `set_header_length(21)` writes into the 4-bit IHL
  field. pnet's setter keeps the low four bits, so the field holds 5 and the ICMP message starts
  at byte 20. The total-length field is written as 21 + 8 + 32 = 61.
- A reply too short for the packet view it is read through makes the program panic. It is not
  dropped.
- `tries_per_hop as u32` keeps the low 32 bits. A round with every probe answered panics when
  those bits are zero (`Duration / 0`).

## Model

| member | source | states |
|---|---|---|
| Wire.ReadU16Injective | src/icmp.rs:38 | a big-endian 16-bit field such as the sequence number fixes its two bytes: two fields read equal exactly when their byte pairs are equal |
| InternetChecksum.Fold | src/icmp.rs:40 | the end-around-carry fold is congruent to its input modulo 0xFFFF, fits in 16 bits, and is zero only for a zero sum |
| InternetChecksum.ChecksumIgnoresField | src/icmp.rs:40 | the checksum computed with word 1 skipped does not depend on what bytes 2-3 held before, so a reused buffer gets the same checksum |
| InternetChecksum.StoredChecksumVerifies | src/icmp.rs:40-42 | once the checksum is stored big-endian in bytes 2-3, the RFC 1071 receiver check over the whole message (no word skipped) gives 0 |
| InternetChecksum.ChecksumComplements | src/icmp.rs:40 | `checksum(data, 1)` is the one's complement of the folded sum of the other words: checksum plus sum is a multiple of 0xFFFF, and the checksum is 0xFFFF exactly when that sum is 0 |
| Icmp.CreateIcmpPacket | src/icmp.rs:17-46 | the IPv4 buffer holds a finished probe: version 4, IHL 21 mod 16, total length 61, the given TTL, protocol 1, the destination octets, and at offset 20 the Echo Request (type 8, the sequence big-endian in bytes 6-7, a checksum that passes the receiver check). The ICMP buffer changes only in bytes 0, 2, 3, 6 and 7 and equals the IPv4 payload. No other IPv4 byte changes. When every unwritten byte of both buffers is zero, it stays zero and the buffers hold exactly ProbeBytes and EchoRequestBytes |
| Icmp.EchoRequestBytes | src/icmp.rs:34-42 | the Echo Request built in a zero-filled buffer: type 8, code 0, identifier 0, the sequence number, 32 zero data bytes, and the checksum computed with word 1 skipped |
| Icmp.ProbeHeader | src/icmp.rs:24-32 | the 20 header bytes built in a zero-filled buffer: byte 0 is version 4 with IHL 21 mod 16, total length 61, the TTL, protocol 1, the destination; TOS, identification, flags, header checksum and source are 0 |
| Icmp.ProbeBytes | src/icmp.rs:17-46 | the whole 64-byte probe: a finished probe for that destination, TTL and sequence, zero wherever create_icmp_packet does not write, whose payload is EchoRequestBytes |
| Icmp.CleanProbeBytes | src/icmp.rs:17-46 | a finished probe whose unwritten bytes are zero and whose stored checksum is computed with word 1 skipped is exactly ProbeBytes: no byte is left free |
| Icmp.ProbesAgree | src/icmp.rs:17-46 | two such probes for the same destination, TTL and sequence are equal |
| Icmp.HeadersAgree | src/icmp.rs:24-32 | two such probes have the same 20 header bytes |
| Icmp.EchoRequestsAgree | src/icmp.rs:34-42 | two clean Echo Requests with the same sequence number and checksums computed with word 1 skipped are equal |
| Icmp.SetIpv4Fields | src/icmp.rs:24-32 | the MutableIpv4Packet setters write version, IHL, total length, TTL, protocol and destination at their RFC 791 offsets and touch no other byte |
| Icmp.SetEchoRequestFields | src/icmp.rs:34-42 | the Echo Request setters and the checksum leave a valid Echo Request with the given sequence number, whose stored checksum is the one computed with word 1 skipped; no other byte changes |
| Icmp.SetPayload | src/icmp.rs:43 | the 40 ICMP bytes land at the payload offset of the IPv4 buffer and nothing else changes |
| Replies.SequenceForCast | src/traceroute.rs:176 | the `as u16` sequence number is at most the probe number `(ttl - 1) * k + i`, differs from it by a multiple of 65536, and equals it when it fits in 16 bits |
| Replies.WindowIsRound | src/traceroute.rs:164-165 | probe number `(ttl - 1) * k + i` is in the window of round `ttl` exactly when `i < k`; a number in the window is that of probe `sequence - (ttl - 1) * k`, whose `as u16` value is the number mod 65536 |
| Replies.SequenceNoWrap | src/traceroute.rs:170-176 | probe `i` of round `ttl` carries `(ttl - 1) * k + i` unchanged by the `as u16` cast whenever `64 * k <= 65536` |
| Replies.WindowsDisjoint | src/traceroute.rs:162-176 | under that bound, a probe of round `ttl` lies in the window of round `ttl'` exactly when `ttl' == ttl` |
| Replies.SequenceInjective | src/traceroute.rs:170-176 | under that bound, no two probes of the sweep share a sequence number |
| Replies.ProcessReply | src/traceroute.rs:127-153 | Time Exceeded yields the sender, the elapsed time and the sequence number of the Echo Request quoted at offset 28. Echo Reply yields its own sequence number. Any other type yields None. It panics exactly when Time Exceeded is shorter than 36 bytes or Echo Reply shorter than 8 |
| Replies.ReceiveReply | src/traceroute.rs:67-73 | a datagram shorter than 24 bytes panics; otherwise the result is that of process_reply on the bytes after offset 20 |
| Replies.TimeExceededQuotesProbe | src/traceroute.rs:129-138 | a Time Exceeded message quoting the IPv4 header and first 8 data bytes of one of our probes is classified with that probe's sequence number, sender and elapsed time |
| Replies.EchoReplyEchoesProbe | src/traceroute.rs:140-149 | an Echo Reply that echoes a probe's identifier and sequence number is classified with that sequence number |
| Replies.FilterOutUnhandledPackets | src/traceroute.rs:162-167 | every kept reply lies in the window `[(ttl - 1) * k, ttl * k)` of its round, and every reply in that window is kept |
| Replies.FilterCounts | src/traceroute.rs:162-167 | each reply in the window is kept as many times as it arrived; every other reply is gone |
| Replies.FilterAppend | src/traceroute.rs:162-167 | filtering a concatenation is the concatenation of the filtered parts, so arrival order is preserved |
| Replies.FilterFirst | src/traceroute.rs:162-167 | the first kept reply is the earliest arrival that lies in the window |
| Rounds.ClockOf | src/traceroute.rs:155-158 | minutes and seconds are below 60, and `h * 3600 + m * 60 + s` equals the whole seconds of the duration |
| Rounds.ClockUnique | src/traceroute.rs:155-158 | that decomposition is the only one with minutes and seconds below 60 |
| Rounds.Decimal | src/traceroute.rs:159 | `{}` of an integer is a non-empty string of decimal digits without a leading zero |
| Rounds.DecimalRoundTrip | src/traceroute.rs:159 | reading the printed digits back gives the number printed |
| Rounds.DurationToString | src/traceroute.rs:155-160 | the text has at least five characters, each a decimal digit or a colon, with exactly two colons |
| Rounds.DurationToStringRoundTrip | src/traceroute.rs:155-160 | the `h:m:s` text parses back to exactly the hours, minutes and seconds of the duration |
| Rounds.UnknownIsNoClock | src/traceroute.rs:95 | the `*` of an incomplete round never reads as a time |
| Rounds.SumBoundsReplyTimes | src/traceroute.rs:100-101 | the summed reply time bounds every reply time, and is 0 exactly when every reply time is 0 |
| Rounds.MeanReplyTime | src/traceroute.rs:100-101 | the mean is the floor of the summed reply times divided by the divisor |
| Rounds.AggregateRound | src/traceroute.rs:87-109 | with n filtered replies and k probes: n = 0 and n > k give no hop result, 0 < n < k gives `(ttl, replies[0].hop_addr, "*")`, and n == k gives `(ttl, replies[0].hop_addr, h:m:s of the mean)`. n == k panics exactly when `k as u32` is 0 |
| Traceroute.RoundDatagrams | src/traceroute.rs:169-181 | round `ttl` consists of `k` datagrams; datagram `i` is ProbeBytes for TTL `ttl as u8` and sequence `((ttl - 1) * k + i) as u16`, a finished probe |
| Traceroute.SendRequests | src/traceroute.rs:169-181 | the loop sends exactly RoundDatagrams, in probe order, and leaves the unwritten bytes of both buffers zero |
| Traceroute.CollectReplies | src/traceroute.rs:64-78 | the receive loop does not panic exactly when no received datagram panics |
| Traceroute.CollectMembers | src/traceroute.rs:64-78 | when it does not panic, a reply is kept exactly when some received datagram is classified as that reply |
| Traceroute.CollectAppend | src/traceroute.rs:64-78 | replies are kept in arrival order: the replies of a concatenation are those of the first part followed by those of the second, and a panic in the first part ends the loop |
| Traceroute.DestinationReachedAppend | src/traceroute.rs:82 | `any` over the replies: it holds exactly when some reply is an Echo Reply, and of a concatenation exactly when of one of the parts |
| Traceroute.EchoReplyStopsRound | src/traceroute.rs:64-85 | a received Echo Reply with a sequence number in the round's window, in a round whose receive loop does not panic, stops the sweep at that round |
| Traceroute.ReceiveRound | src/traceroute.rs:64-78 | the receive loop, pushing the interpreted replies in arrival order, computes the receive specification |
| Traceroute.RunRound | src/traceroute.rs:64-109 | a round stops the sweep exactly when its receive loop does not panic and its filtered replies contain an Echo Reply. A hop result it produces carries the round's TTL |
| Traceroute.SweepRound | src/traceroute.rs:58-109 | one iteration of the loop sends RoundDatagrams for its TTL, keeps both buffers clean, and decides what round `ttl` of the sweep specification decides |
| Traceroute.TraceRoute | src/traceroute.rs:39-119 | with both buffers zero-filled as at lines 51-52, the while loop computes the sweep specification and sends at most 64 rounds; everything sent is SweepDatagrams, round `r` being RoundDatagrams of TTL `r`. A sweep that does not panic sends exactly as many rounds as it ran |
| Traceroute.SweepTermination | src/traceroute.rs:58-112 | the sweep ends at a TTL in `[ttl, 65]`. Every round before it went on. The round it ends at, if at most 64, reached the destination. A panicking sweep panicked in a round after rounds that all went on |
| Traceroute.StopsAtFirstReached | src/traceroute.rs:82-116 | the sweep stops at the first round that reached the destination. It runs past 64 exactly when no round did |
| Traceroute.TtlExceededIffNeverReached | src/traceroute.rs:82-116 | "TTL value exceeded!" is printed exactly when no round from 1 to 64 reached the destination. Otherwise the final TTL is the first round that did |
| Traceroute.SweepCollects | src/traceroute.rs:87-111 | the hop results of a sweep are the results pushed so far, followed by those of the rounds it ran, in round order |
| Traceroute.ProducedOrdered | src/traceroute.rs:93-111 | those results are in strictly increasing TTL order, each from its own round |
| Traceroute.OrderedCons | src/traceroute.rs:93-111 | a round's result labelled with its TTL can go in front of the ordered results of later rounds |
| Traceroute.ProducedComplete | src/traceroute.rs:93-111 | every result such a round produced is among them |
| Traceroute.HopResultsOf | src/traceroute.rs:93-111 | for any sequence of round outcomes the hop results are increasing, each within `[1, final ttl)` and the result of its own round, and complete |
| Traceroute.RoundOutcomesLabelled | src/traceroute.rs:93-106 | every hop result a round pushes is labelled with that round's TTL |
| Traceroute.HopResultsOrdered | src/traceroute.rs:58-111 | `hop_results` holds at most one entry per TTL, in strictly increasing TTL order, every TTL in `[1, 64]` and below the final TTL. Each entry is what its round produced, and no round's result is missing |
| Traceroute.TimeExceededCountsForItsRound | src/traceroute.rs:162-176 | when `64 * k <= 65536`, a router's Time Exceeded for probe `i` of round `ttl` is classified and survives the filter of round `ttl'` exactly when `ttl' == ttl` |

## Left out

- Sockets: opening the transport channel and its `expect`, `send_to` and its "Sending packet failed!" panic, and the receive error panic are not modelled. Sending always succeeds, and what each round receives is the `inbox` parameter.
- Time: `Instant`, the timeout and `next_with_timeout` are not modelled. Which datagrams arrive before a round's timeout, and their elapsed times, are part of the input. `Config.timeout` is carried but unused.
- Packet bytes: the bytes of `reply.packet()` are taken as the transport delivers them. How pnet's `icmp_packet_iter` frames a datagram is not part of this model.
- What the kernel does to a raw IPv4 datagram after `send_to` is not modelled: the log holds the bytes as create_icmp_packet leaves them, with TOS, identification, flags, header checksum and source address all zero. On Linux the raw socket fills in the identification and the source when they are zero, always computes the header checksum and overwrites the total length.
- Output: all `println!` output and `print_results_with_location` are not modelled. The value printed is the sweep's `Trace`. src/location.rs, src/dns.rs and src/main.rs are not part of this model.
- The `MutableIpv4Packet::new`, `MutableEchoRequestPacket::new` and `set_payload` length checks are not modelled. They cannot fail for the 64- and 40-byte buffers: the payload area after offset 20 has room for 41 bytes and 40 are copied.
- pnet's odd-length checksum path is not modelled, because the ICMP buffer is 40 bytes.
- Replies.FilterOutUnhandledPackets: the window bounds are unbounded integers, so a `usize` overflow of `ttl * tries_per_hop` (possible only for enormous `tries_per_hop`) is not modelled.
- Rounds.MeanReplyTime: the sum of reply times is an unbounded integer, so the overflow panic of `Duration` addition (beyond 2^64 seconds) is not modelled.
