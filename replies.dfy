/** Probe numbering, reply classification and the stray-reply filter of src/traceroute.rs. */
module Replies {
  import opened Wire
  import Icmp

  const MAX_TTL: nat := 64

  /** ICMP types trace_route interprets (RFC 792). */
  const ECHO_REPLY: byte := 0
  const TIME_EXCEEDED: byte := 11

  /** The ICMP message of a received datagram starts after a 20-byte IPv4 header. */
  const REPLY_ICMP_OFFSET: nat := 20
  /** A Time Exceeded message quotes the original Echo Request after its own 8-byte header and
      the 20-byte IPv4 header of the original datagram. */
  const QUOTED_REQUEST_OFFSET: nat := 28
  /** The shortest buffers pnet's IcmpPacket (type, code, checksum) and the Echo packets
      (type, code, checksum, identifier, sequence number) accept. */
  const ICMP_MIN_LEN: nat := 4
  const ECHO_MIN_LEN: nat := 8

  /** One classified reply: who sent it, when it arrived (nanoseconds since the round started),
      its ICMP type and the sequence number of the probe it answers. */
  datatype TraceHop = TraceHop(hopAddr: IpAddr, replyTime: nat, replyType: byte, sequenceNumber: u16)

  /** A datagram as the receive loop gets it, with its sender and the time elapsed in the round. */
  datatype RawReply = RawReply(packet: seq<byte>, host: IpAddr, elapsed: nat)

  /** The wire sequence number of probe `i` of round `ttl`; `as u16` keeps the low 16 bits. */
  function SequenceFor(ttl: nat, triesPerHop: nat, i: nat): u16
    requires 1 <= ttl
  {
    ((ttl - 1) * triesPerHop + i) % 0x1_0000
  }

  /** The sequence numbers that belong to round `ttl`. */
  predicate InWindow(triesPerHop: nat, ttl: nat, sequence: nat)
    requires 1 <= ttl
  {
    (ttl - 1) * triesPerHop <= sequence < ttl * triesPerHop
  }

  /** Every probe number of the sweep fits in 16 bits when `MAX_TTL * triesPerHop <= 2^16`. */
  lemma SequenceNoWrap(ttl: nat, triesPerHop: nat, i: nat)
    requires 1 <= ttl <= MAX_TTL && i < triesPerHop && MAX_TTL * triesPerHop <= 0x1_0000
    ensures SequenceFor(ttl, triesPerHop, i) == (ttl - 1) * triesPerHop + i
  {
    var start := (ttl - 1) * triesPerHop;
    assert start + i < 0x1_0000 by {
      MulSucc(ttl - 1, triesPerHop);
      MulMonotone(ttl, MAX_TTL, triesPerHop);
    }
    SmallMod(start + i);
  }

  lemma MulSucc(a: nat, k: nat)
    ensures (a + 1) * k == a * k + k
  {
  }

  lemma SmallMod(s: nat)
    requires s < 0x1_0000
    ensures s % 0x1_0000 == s
  {
  }

  /** The `as u16` cast: the wire number is the probe number minus a multiple of 2^16, and the
      probe number itself whenever it fits in 16 bits. */
  lemma {:induction false} SequenceForCast(ttl: nat, triesPerHop: nat, i: nat)
    requires 1 <= ttl
    ensures SequenceFor(ttl, triesPerHop, i) <= (ttl - 1) * triesPerHop + i
    ensures ((ttl - 1) * triesPerHop + i - SequenceFor(ttl, triesPerHop, i)) % 0x1_0000 == 0
    ensures (ttl - 1) * triesPerHop + i < 0x1_0000 ==> SequenceFor(ttl, triesPerHop, i) == (ttl - 1) * triesPerHop + i
  {
  }

  /** The window of round `ttl` holds exactly the numbers of its probes `0 .. triesPerHop - 1`,
      before the cast: a number in it is that of probe `sequence - (ttl - 1) * triesPerHop`. */
  lemma {:induction false} WindowIsRound(triesPerHop: nat, ttl: nat, i: nat, sequence: nat)
    requires 1 <= ttl
    ensures InWindow(triesPerHop, ttl, (ttl - 1) * triesPerHop + i) <==> i < triesPerHop
    ensures InWindow(triesPerHop, ttl, sequence) ==>
              triesPerHop > 0 && sequence - (ttl - 1) * triesPerHop < triesPerHop
              && SequenceFor(ttl, triesPerHop, sequence - (ttl - 1) * triesPerHop) == sequence % 0x1_0000
  {
  }

  /** Window disjointness: a probe of round `ttl` passes the filter of round `ttl'` exactly when
      `ttl' == ttl`. */
  lemma WindowsDisjoint(ttl: nat, ttl': nat, triesPerHop: nat, i: nat)
    requires 1 <= ttl <= MAX_TTL && 1 <= ttl' <= MAX_TTL
    requires i < triesPerHop && MAX_TTL * triesPerHop <= 0x1_0000
    ensures InWindow(triesPerHop, ttl', SequenceFor(ttl, triesPerHop, i)) <==> ttl' == ttl
  {
    SequenceNoWrap(ttl, triesPerHop, i);
    var s := (ttl - 1) * triesPerHop + i;
    assert ttl * triesPerHop == (ttl - 1) * triesPerHop + triesPerHop;
    assert ttl' * triesPerHop == (ttl' - 1) * triesPerHop + triesPerHop;
    if ttl' < ttl {
      assert ttl' * triesPerHop <= (ttl - 1) * triesPerHop by {
        MulMonotone(ttl', ttl - 1, triesPerHop);
      }
    } else if ttl' > ttl {
      assert ttl * triesPerHop <= (ttl' - 1) * triesPerHop by {
        MulMonotone(ttl, ttl' - 1, triesPerHop);
      }
    }
  }

  lemma MulMonotone(a: nat, b: nat, k: nat)
    requires a <= b
    ensures a * k <= b * k
  {
  }

  /** No two probes of the sweep share a sequence number. */
  lemma SequenceInjective(ttl: nat, i: nat, ttl': nat, i': nat, triesPerHop: nat)
    requires 1 <= ttl <= MAX_TTL && 1 <= ttl' <= MAX_TTL
    requires i < triesPerHop && i' < triesPerHop && MAX_TTL * triesPerHop <= 0x1_0000
    requires SequenceFor(ttl, triesPerHop, i) == SequenceFor(ttl', triesPerHop, i')
    ensures ttl == ttl' && i == i'
  {
    WindowsDisjoint(ttl, ttl', triesPerHop, i);
    WindowsDisjoint(ttl', ttl', triesPerHop, i');
    SequenceNoWrap(ttl, triesPerHop, i);
    SequenceNoWrap(ttl', triesPerHop, i');
  }

  /** process_reply: a Time Exceeded message yields the sequence number of the Echo Request it
      quotes, an Echo Reply its own; both keep the sender and the elapsed time. Any other ICMP
      type is not interpreted. A message too short for the packet view it is read through makes
      the source panic. */
  function ProcessReply(reply: seq<byte>, host: IpAddr, duration: nat): (r: Result<Option<TraceHop>>)
    requires |reply| >= ICMP_MIN_LEN
    ensures r.Panic? <==>
              (Icmp.IcmpType(reply) == TIME_EXCEEDED && |reply| < QUOTED_REQUEST_OFFSET + ECHO_MIN_LEN)
              || (Icmp.IcmpType(reply) == ECHO_REPLY && |reply| < ECHO_MIN_LEN)
    ensures r == Ok(None) <==> Icmp.IcmpType(reply) != TIME_EXCEEDED && Icmp.IcmpType(reply) != ECHO_REPLY
    ensures r.Ok? && r.value.Some? ==>
              var hop := r.value.value;
              hop.hopAddr == host && hop.replyTime == duration
              && hop.replyType == Icmp.IcmpType(reply)
              && hop.sequenceNumber == (if hop.replyType == TIME_EXCEEDED
                                        then Icmp.EchoSequence(reply[QUOTED_REQUEST_OFFSET..])
                                        else Icmp.EchoSequence(reply))
  {
    if reply[0] == TIME_EXCEEDED then
      if |reply| < QUOTED_REQUEST_OFFSET then Panic("range start index out of range")
      else
        var request := reply[QUOTED_REQUEST_OFFSET..];
        if |request| < ECHO_MIN_LEN then Panic("Parsing echo request packet failed!")
        else Ok(Some(TraceHop(host, duration, TIME_EXCEEDED, ReadU16(request, 6))))
    else if reply[0] == ECHO_REPLY then
      if |reply| < ECHO_MIN_LEN then Panic("Parsing echo reply packet failed!")
      else Ok(Some(TraceHop(host, duration, ECHO_REPLY, ReadU16(reply, 6))))
    else
      Ok(None)
  }

  /** One step of trace_route's receive loop: view the bytes after the IPv4 header as an ICMP
      message (panicking if there are not enough of them) and classify it. */
  function ReceiveReply(raw: RawReply): (r: Result<Option<TraceHop>>)
    ensures |raw.packet| < REPLY_ICMP_OFFSET + ICMP_MIN_LEN ==> r.Panic?
    ensures |raw.packet| >= REPLY_ICMP_OFFSET + ICMP_MIN_LEN ==>
              r == ProcessReply(raw.packet[REPLY_ICMP_OFFSET..], raw.host, raw.elapsed)
  {
    if |raw.packet| < REPLY_ICMP_OFFSET then Panic("range start index out of range")
    else
      var icmp := raw.packet[REPLY_ICMP_OFFSET..];
      if |icmp| < ICMP_MIN_LEN then Panic("Parsing icmp reply failed!")
      else ProcessReply(icmp, raw.host, raw.elapsed)
  }

  /** A router's Time Exceeded message for one of our probes carries, after its 8-byte header,
      the IPv4 header (20 bytes) and the first 64 bits of the probe's data (RFC 792); received
      behind any 20-byte IPv4 header, it is classified with the probe's sequence number. */
  lemma TimeExceededQuotesProbe(probe: seq<byte>, dest: Ipv4Addr, ttl: byte, sequence: u16,
                                outer: seq<byte>, header: seq<byte>, quotedIp: seq<byte>,
                                rest: seq<byte>, host: IpAddr, elapsed: nat)
    requires Icmp.IsProbe(probe, dest, ttl, sequence)
    requires |outer| == REPLY_ICMP_OFFSET && |header| == 8 && header[0] == TIME_EXCEEDED
    requires |quotedIp| == 20
    ensures ReceiveReply(RawReply(outer + header + quotedIp
                                  + probe[Icmp.PAYLOAD_OFFSET..Icmp.PAYLOAD_OFFSET + 8] + rest,
                                  host, elapsed))
            == Ok(Some(TraceHop(host, elapsed, TIME_EXCEEDED, sequence)))
  {
    var quoted := probe[Icmp.PAYLOAD_OFFSET..Icmp.PAYLOAD_OFFSET + 8];
    var message := probe[Icmp.PAYLOAD_OFFSET..Icmp.PAYLOAD_OFFSET + Icmp.ICMP_BUFFER_LEN];
    var packet := outer + header + quotedIp + quoted + rest;
    var icmp := packet[REPLY_ICMP_OFFSET..];
    assert icmp == header + quotedIp + quoted + rest;
    assert icmp[QUOTED_REQUEST_OFFSET..][6] == quoted[6] == message[6];
    assert icmp[QUOTED_REQUEST_OFFSET..][7] == quoted[7] == message[7];
  }

  /** The destination's Echo Reply returns the identifier and sequence number of the request
      (RFC 792); received behind any 20-byte IPv4 header, it is classified with the probe's
      sequence number. */
  lemma EchoReplyEchoesProbe(probe: seq<byte>, dest: Ipv4Addr, ttl: byte, sequence: u16,
                             outer: seq<byte>, header: seq<byte>, data: seq<byte>,
                             host: IpAddr, elapsed: nat)
    requires Icmp.IsProbe(probe, dest, ttl, sequence)
    requires |outer| == REPLY_ICMP_OFFSET && |header| == 4 && header[0] == ECHO_REPLY
    ensures ReceiveReply(RawReply(outer + header
                                  + probe[Icmp.PAYLOAD_OFFSET + 4..Icmp.PAYLOAD_OFFSET + 8] + data,
                                  host, elapsed))
            == Ok(Some(TraceHop(host, elapsed, ECHO_REPLY, sequence)))
  {
    var echoed := probe[Icmp.PAYLOAD_OFFSET + 4..Icmp.PAYLOAD_OFFSET + 8];
    var message := probe[Icmp.PAYLOAD_OFFSET..Icmp.PAYLOAD_OFFSET + Icmp.ICMP_BUFFER_LEN];
    var packet := outer + header + echoed + data;
    var icmp := packet[REPLY_ICMP_OFFSET..];
    assert icmp == header + echoed + data;
    assert icmp[6] == echoed[2] == message[6];
    assert icmp[7] == echoed[3] == message[7];
  }

  /** filter_out_unhandled_packets: keeps the replies whose sequence number lies in the window
      of round `ttl`, dropping stray replies to other rounds, in arrival order. */
  function FilterOutUnhandledPackets(triesPerHop: nat, ttl: nat, replies: seq<TraceHop>): (kept: seq<TraceHop>)
    requires 1 <= ttl
    ensures forall h :: h in kept ==> InWindow(triesPerHop, ttl, h.sequenceNumber)
    ensures forall h :: h in replies && InWindow(triesPerHop, ttl, h.sequenceNumber) ==> h in kept
  {
    if replies == [] then []
    else
      assert replies == [replies[0]] + replies[1..];
      (if InWindow(triesPerHop, ttl, replies[0].sequenceNumber) then [replies[0]] else [])
      + FilterOutUnhandledPackets(triesPerHop, ttl, replies[1..])
  }

  /** The filter drops no reply of the round's window and no duplicate of one: each such reply
      is kept exactly as often as it arrived, and every other reply is gone. */
  lemma {:induction false} FilterCounts(triesPerHop: nat, ttl: nat, replies: seq<TraceHop>, h: TraceHop)
    requires 1 <= ttl
    ensures multiset(FilterOutUnhandledPackets(triesPerHop, ttl, replies))[h]
            == if InWindow(triesPerHop, ttl, h.sequenceNumber) then multiset(replies)[h] else 0
  {
    if replies != [] {
      assert replies == [replies[0]] + replies[1..];
      FilterCounts(triesPerHop, ttl, replies[1..], h);
    }
  }

  /** Filtering commutes with arrival: the kept replies of a longer receive run are those of its
      first part followed by those of the rest, so arrival order is preserved. */
  lemma {:induction false} FilterAppend(triesPerHop: nat, ttl: nat, a: seq<TraceHop>, b: seq<TraceHop>)
    requires 1 <= ttl
    ensures FilterOutUnhandledPackets(triesPerHop, ttl, a + b)
            == FilterOutUnhandledPackets(triesPerHop, ttl, a) + FilterOutUnhandledPackets(triesPerHop, ttl, b)
  {
    if a == [] {
      assert a + b == b;
    } else {
      assert (a + b)[0] == a[0] && (a + b)[1..] == a[1..] + b;
      FilterAppend(triesPerHop, ttl, a[1..], b);
    }
  }

  /** The first kept reply is the first reply, in arrival order, that lies in the window. */
  lemma {:induction false} FilterFirst(triesPerHop: nat, ttl: nat, replies: seq<TraceHop>)
    requires 1 <= ttl
    requires FilterOutUnhandledPackets(triesPerHop, ttl, replies) != []
    ensures exists j :: 0 <= j < |replies|
              && FilterOutUnhandledPackets(triesPerHop, ttl, replies)[0] == replies[j]
              && (forall j' :: 0 <= j' < j ==> !InWindow(triesPerHop, ttl, replies[j'].sequenceNumber))
  {
    if !InWindow(triesPerHop, ttl, replies[0].sequenceNumber) {
      FilterFirst(triesPerHop, ttl, replies[1..]);
      var j :| 0 <= j < |replies[1..]|
               && FilterOutUnhandledPackets(triesPerHop, ttl, replies[1..])[0] == replies[1..][j]
               && (forall j' :: 0 <= j' < j ==> !InWindow(triesPerHop, ttl, replies[1..][j'].sequenceNumber));
      assert replies[j + 1] == replies[1..][j];
      assert forall j' :: 0 < j' < j + 1 ==> replies[j'] == replies[1..][j' - 1];
    } else {
      assert FilterOutUnhandledPackets(triesPerHop, ttl, replies)[0] == replies[0];
    }
  }
}
