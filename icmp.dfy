/** Probe construction (src/icmp.rs): an ICMP Echo Request (RFC 792) inside an IPv4 datagram
    (RFC 791, section 3.1), written into the two byte buffers the caller owns and reuses.
    pnet's packet setters are modelled by their effect: writes at the standard field offsets. */
module Icmp {
  import opened Wire
  import opened InternetChecksum

  const IPV4_HEADER_LEN: nat := 21
  const ICMP_HEADER_LEN: nat := 8
  const ICMP_PAYLOAD_LEN: nat := 32

  /** Sizes of the buffers trace_route allocates once and reuses for every probe. */
  const IP_BUFFER_LEN: nat := 64
  const ICMP_BUFFER_LEN: nat := 40

  /** ICMP type of an Echo Request, and the IPv4 protocol number of ICMP. */
  const ECHO_REQUEST: byte := 8
  const PROTOCOL_ICMP: byte := 1

  /** The header-length (IHL) field is four bits wide; pnet's setter keeps the low four bits of
      the value it is given, so the field holds 21 mod 16. */
  const HEADER_LENGTH_FIELD: nat := IPV4_HEADER_LEN % 16
  /** The payload starts where the IHL field (in 32-bit words) says the header ends. */
  const PAYLOAD_OFFSET: nat := 4 * HEADER_LENGTH_FIELD
  /** The total-length value written into the header. */
  const TOTAL_LENGTH: u16 := IPV4_HEADER_LEN + ICMP_HEADER_LEN + ICMP_PAYLOAD_LEN

  // IPv4 header fields (RFC 791, section 3.1).
  function Version(p: seq<byte>): nat requires |p| >= 1 { p[0] / 16 }
  function HeaderLength(p: seq<byte>): nat requires |p| >= 1 { p[0] % 16 }
  function TotalLength(p: seq<byte>): u16 requires |p| >= 4 { ReadU16(p, 2) }
  function TimeToLive(p: seq<byte>): byte requires |p| >= 9 { p[8] }
  function Protocol(p: seq<byte>): byte requires |p| >= 10 { p[9] }
  function Destination(p: seq<byte>): seq<byte> requires |p| >= 20 { p[16..20] }

  // Echo Request / Echo Reply fields (RFC 792).
  function IcmpType(m: seq<byte>): byte requires |m| >= 1 { m[0] }
  function IcmpCode(m: seq<byte>): byte requires |m| >= 2 { m[1] }
  function IcmpChecksum(m: seq<byte>): u16 requires |m| >= 4 { ReadU16(m, 2) }
  function EchoIdentifier(m: seq<byte>): u16 requires |m| >= 6 { ReadU16(m, 4) }
  function EchoSequence(m: seq<byte>): u16 requires |m| >= 8 { ReadU16(m, 6) }

  /** A finished Echo Request message: its type, its sequence number and a checksum that passes
      the RFC 1071 receiver check. */
  predicate IsEchoRequest(m: seq<byte>, sequence: u16)
  {
    |m| == ICMP_BUFFER_LEN && IcmpType(m) == ECHO_REQUEST && EchoSequence(m) == sequence
    && ChecksumValid(m)
  }

  /** A finished probe datagram, as create_icmp_packet leaves the IPv4 buffer. */
  predicate IsProbe(p: seq<byte>, dest: Ipv4Addr, ttl: byte, sequence: u16)
  {
    |p| == IP_BUFFER_LEN
    && Version(p) == 4 && HeaderLength(p) == HEADER_LENGTH_FIELD
    && TotalLength(p) == TOTAL_LENGTH && TimeToLive(p) == ttl
    && Protocol(p) == PROTOCOL_ICMP && Destination(p) == dest.Octets()
    && IsEchoRequest(p[PAYLOAD_OFFSET..PAYLOAD_OFFSET + ICMP_BUFFER_LEN], sequence)
  }

  /** create_icmp_packet: fills in the IPv4 header fields and the Echo Request fields, computes
      the checksum over the ICMP buffer skipping word 1 (the checksum field), stores it, and
      copies the finished ICMP bytes into the IPv4 payload. Every other byte keeps the value it
      had, which matters because the buffers are reused from probe to probe. */
  method CreateIcmpPacket(bufIp: array<byte>, bufIcmp: array<byte>, dest: Ipv4Addr, ttl: byte,
                          sequenceNumber: u16)
    requires bufIp.Length == IP_BUFFER_LEN && bufIcmp.Length == ICMP_BUFFER_LEN
    modifies bufIp, bufIcmp
    ensures IsProbe(bufIp[..], dest, ttl, sequenceNumber)
    ensures IsEchoRequest(bufIcmp[..], sequenceNumber)
    ensures IcmpChecksum(bufIcmp[..]) == Checksum(bufIcmp[..], 1)
    ensures forall j :: 0 <= j < ICMP_BUFFER_LEN && !IsEchoFieldByte(j) ==> bufIcmp[j] == old(bufIcmp[j])
    ensures bufIp[PAYLOAD_OFFSET..PAYLOAD_OFFSET + ICMP_BUFFER_LEN] == bufIcmp[..]
    ensures forall j :: 0 <= j < PAYLOAD_OFFSET && !IsHeaderFieldByte(j) ==> bufIp[j] == old(bufIp[j])
    ensures forall j :: PAYLOAD_OFFSET + ICMP_BUFFER_LEN <= j < IP_BUFFER_LEN
              ==> bufIp[j] == old(bufIp[j])
    ensures CleanIp(old(bufIp[..])) && CleanIcmp(old(bufIcmp[..])) ==>
              CleanIp(bufIp[..]) && CleanIcmp(bufIcmp[..])
              && bufIp[..] == ProbeBytes(dest, ttl, sequenceNumber)
              && bufIcmp[..] == EchoRequestBytes(sequenceNumber)
  {
    SetIpv4Fields(bufIp, dest, ttl);
    SetEchoRequestFields(bufIcmp, sequenceNumber);
    ghost var header := bufIp[..PAYLOAD_OFFSET];
    SetPayload(bufIp, bufIcmp);
    assert bufIp[..PAYLOAD_OFFSET] == header;
    assert Destination(bufIp[..]) == dest.Octets();
    if CleanIp(old(bufIp[..])) && CleanIcmp(old(bufIcmp[..])) {
      CleanProbeBytes(bufIp[..], dest, ttl, sequenceNumber);
    }
  }

  /** Byte offsets of the Echo Request that create_icmp_packet writes. */
  predicate IsEchoFieldByte(j: nat)
  {
    j == 0 || j == 2 || j == 3 || j == 6 || j == 7
  }

  /** An ICMP buffer whose bytes create_icmp_packet never writes still hold the zeros
      trace_route allocated it with. */
  predicate CleanIcmp(m: seq<byte>)
  {
    |m| == ICMP_BUFFER_LEN && forall j :: 0 <= j < ICMP_BUFFER_LEN && !IsEchoFieldByte(j) ==> m[j] == 0
  }

  /** The same for the IPv4 buffer: zeros outside the written header fields and the payload. */
  predicate CleanIp(p: seq<byte>)
  {
    |p| == IP_BUFFER_LEN
    && forall j :: (0 <= j < IP_BUFFER_LEN && !IsHeaderFieldByte(j)
                    && !(PAYLOAD_OFFSET <= j < PAYLOAD_OFFSET + ICMP_BUFFER_LEN)) ==> p[j] == 0
  }

  /** The Echo Request create_icmp_packet builds in a zero-filled buffer: type 8, code 0,
      identifier 0, the sequence number, 32 zero data bytes, and the checksum computed with
      word 1 skipped. */
  function EchoRequestBytes(sequence: u16): (m: seq<byte>)
    ensures IsEchoRequest(m, sequence) && CleanIcmp(m)
    ensures IcmpCode(m) == 0 && EchoIdentifier(m) == 0
    ensures m[ICMP_HEADER_LEN..] == seq(ICMP_PAYLOAD_LEN, _ => 0)
    ensures IcmpChecksum(m) == Checksum(m, 1)
  {
    var unsummed: seq<byte> := [ECHO_REQUEST, 0, 0, 0, 0, 0] + U16Bytes(sequence) + seq(ICMP_PAYLOAD_LEN, _ => 0);
    var c := Checksum(unsummed, 1);
    var m := unsummed[2 := U16Bytes(c)[0]][3 := U16Bytes(c)[1]];
    StoredChecksumVerifies(unsummed, m);
    ChecksumIgnoresField(unsummed, m);
    assert m[6..8] == U16Bytes(sequence);
    assert m[2..4] == U16Bytes(c);
    m
  }

  /** The IPv4 header create_icmp_packet leaves in a zero-filled buffer: version 4 and the
      truncated IHL, the total length, the TTL, protocol ICMP and the destination; TOS,
      identification, flags, header checksum and source stay zero. */
  function ProbeHeader(dest: Ipv4Addr, ttl: byte): (h: seq<byte>)
    ensures |h| == PAYLOAD_OFFSET
    ensures h[0] == 4 * 16 + HEADER_LENGTH_FIELD && h[2..4] == U16Bytes(TOTAL_LENGTH)
    ensures h[8] == ttl && h[9] == PROTOCOL_ICMP && h[16..20] == dest.Octets()
    ensures forall j :: 0 <= j < PAYLOAD_OFFSET && !IsHeaderFieldByte(j) ==> h[j] == 0
  {
    [4 * 16 + HEADER_LENGTH_FIELD, 0] + U16Bytes(TOTAL_LENGTH)
    + [0, 0, 0, 0, ttl, PROTOCOL_ICMP, 0, 0, 0, 0, 0, 0] + dest.Octets()
  }

  /** The probe datagram create_icmp_packet builds in zero-filled buffers: the header, the
      Echo Request, and four zero bytes. */
  function ProbeBytes(dest: Ipv4Addr, ttl: byte, sequence: u16): (p: seq<byte>)
    ensures IsProbe(p, dest, ttl, sequence) && CleanIp(p)
    ensures p[PAYLOAD_OFFSET..PAYLOAD_OFFSET + ICMP_BUFFER_LEN] == EchoRequestBytes(sequence)
  {
    var h := ProbeHeader(dest, ttl);
    var e := EchoRequestBytes(sequence);
    var p := h + e + [0, 0, 0, 0];
    AssembledProbe(h, e, p, dest, ttl, sequence);
    p
  }

  /** A header with the probe's fields, followed by a clean Echo Request and four zero bytes,
      is a clean probe. */
  lemma AssembledProbe(h: seq<byte>, e: seq<byte>, p: seq<byte>, dest: Ipv4Addr, ttl: byte, sequence: u16)
    requires |h| == PAYLOAD_OFFSET
    requires h[0] == 4 * 16 + HEADER_LENGTH_FIELD && h[2..4] == U16Bytes(TOTAL_LENGTH)
    requires h[8] == ttl && h[9] == PROTOCOL_ICMP && h[16..20] == dest.Octets()
    requires forall j :: 0 <= j < PAYLOAD_OFFSET && !IsHeaderFieldByte(j) ==> h[j] == 0
    requires IsEchoRequest(e, sequence) && p == h + e + [0, 0, 0, 0]
    ensures IsProbe(p, dest, ttl, sequence) && CleanIp(p)
    ensures p[PAYLOAD_OFFSET..PAYLOAD_OFFSET + ICMP_BUFFER_LEN] == e
  {
    assert p[PAYLOAD_OFFSET..PAYLOAD_OFFSET + ICMP_BUFFER_LEN] == e;
    assert forall j :: 0 <= j < PAYLOAD_OFFSET ==> p[j] == h[j];
    assert CleanIp(p) by {
      assert forall j :: PAYLOAD_OFFSET + ICMP_BUFFER_LEN <= j < IP_BUFFER_LEN ==> p[j] == 0;
    }
    assert TotalLength(p) == TOTAL_LENGTH by {
      assert p[2..4] == h[2..4];
    }
    assert Destination(p) == dest.Octets() by {
      assert p[16..20] == h[16..20];
    }
  }

  /** Every byte of a finished probe is fixed once the unwritten bytes are zero and the stored
      checksum is the one computed with word 1 skipped: it is exactly ProbeBytes. */
  lemma CleanProbeBytes(p: seq<byte>, dest: Ipv4Addr, ttl: byte, sequence: u16)
    requires IsProbe(p, dest, ttl, sequence) && CleanIp(p)
    requires CleanIcmp(p[PAYLOAD_OFFSET..PAYLOAD_OFFSET + ICMP_BUFFER_LEN])
    requires IcmpChecksum(p[PAYLOAD_OFFSET..PAYLOAD_OFFSET + ICMP_BUFFER_LEN])
             == Checksum(p[PAYLOAD_OFFSET..PAYLOAD_OFFSET + ICMP_BUFFER_LEN], 1)
    ensures p == ProbeBytes(dest, ttl, sequence)
  {
    ProbesAgree(p, ProbeBytes(dest, ttl, sequence), dest, ttl, sequence);
  }

  /** Two clean probes with the same destination, TTL and sequence number, whose stored
      checksums are the ones computed with word 1 skipped, are equal. */
  lemma ProbesAgree(p: seq<byte>, q: seq<byte>, dest: Ipv4Addr, ttl: byte, sequence: u16)
    requires IsProbe(p, dest, ttl, sequence) && CleanIp(p)
    requires IsProbe(q, dest, ttl, sequence) && CleanIp(q)
    requires CleanIcmp(p[PAYLOAD_OFFSET..PAYLOAD_OFFSET + ICMP_BUFFER_LEN])
    requires CleanIcmp(q[PAYLOAD_OFFSET..PAYLOAD_OFFSET + ICMP_BUFFER_LEN])
    requires IcmpChecksum(p[PAYLOAD_OFFSET..PAYLOAD_OFFSET + ICMP_BUFFER_LEN])
             == Checksum(p[PAYLOAD_OFFSET..PAYLOAD_OFFSET + ICMP_BUFFER_LEN], 1)
    requires IcmpChecksum(q[PAYLOAD_OFFSET..PAYLOAD_OFFSET + ICMP_BUFFER_LEN])
             == Checksum(q[PAYLOAD_OFFSET..PAYLOAD_OFFSET + ICMP_BUFFER_LEN], 1)
    ensures p == q
  {
    var m := p[PAYLOAD_OFFSET..PAYLOAD_OFFSET + ICMP_BUFFER_LEN];
    var e := q[PAYLOAD_OFFSET..PAYLOAD_OFFSET + ICMP_BUFFER_LEN];
    EchoRequestsAgree(m, e, sequence);
    HeadersAgree(p, q, dest, ttl, sequence);
    assert p[PAYLOAD_OFFSET + ICMP_BUFFER_LEN..] == q[PAYLOAD_OFFSET + ICMP_BUFFER_LEN..];
    assert p == p[..PAYLOAD_OFFSET] + m + p[PAYLOAD_OFFSET + ICMP_BUFFER_LEN..];
    assert q == q[..PAYLOAD_OFFSET] + e + q[PAYLOAD_OFFSET + ICMP_BUFFER_LEN..];
  }

  /** Two clean probes with the same destination, TTL and sequence number share their header. */
  lemma HeadersAgree(p: seq<byte>, q: seq<byte>, dest: Ipv4Addr, ttl: byte, sequence: u16)
    requires IsProbe(p, dest, ttl, sequence) && CleanIp(p)
    requires IsProbe(q, dest, ttl, sequence) && CleanIp(q)
    ensures p[..PAYLOAD_OFFSET] == q[..PAYLOAD_OFFSET]
  {
    ReadU16Injective(p, 2, q, 2);
    forall j | 0 <= j < PAYLOAD_OFFSET
      ensures p[j] == q[j]
    {
      if j == 0 {
        assert p[0] == p[0] / 16 * 16 + p[0] % 16;
        assert q[0] == q[0] / 16 * 16 + q[0] % 16;
      } else if j == 2 || j == 3 {
        assert p[j] == p[2..4][j - 2] && q[j] == q[2..4][j - 2];
      } else if 16 <= j < 20 {
        assert p[j] == Destination(p)[j - 16] && q[j] == Destination(q)[j - 16];
      }
    }
  }

  /** Two clean Echo Requests with the same sequence number and the checksum computed with
      word 1 skipped are equal. */
  lemma EchoRequestsAgree(m: seq<byte>, e: seq<byte>, sequence: u16)
    requires IsEchoRequest(m, sequence) && IsEchoRequest(e, sequence) && CleanIcmp(m) && CleanIcmp(e)
    requires IcmpChecksum(m) == Checksum(m, 1) && IcmpChecksum(e) == Checksum(e, 1)
    ensures m == e
  {
    ReadU16Injective(m, 6, e, 6);
    forall j | 0 <= j < ICMP_BUFFER_LEN && j != 2 && j != 3
      ensures m[j] == e[j]
    {
      if j == 6 || j == 7 {
        assert m[j] == m[6..8][j - 6] && e[j] == e[6..8][j - 6];
      }
    }
    ChecksumIgnoresField(m, e);
    ReadU16Injective(m, 2, e, 2);
    assert m[2] == m[2..4][0] && e[2] == e[2..4][0];
    assert m[3] == m[2..4][1] && e[3] == e[2..4][1];
  }

  /** set_payload: copies the ICMP buffer into the IPv4 buffer after the header. */
  method SetPayload(bufIp: array<byte>, bufIcmp: array<byte>)
    requires bufIp.Length == IP_BUFFER_LEN && bufIcmp.Length == ICMP_BUFFER_LEN
    modifies bufIp
    ensures bufIp[PAYLOAD_OFFSET..PAYLOAD_OFFSET + ICMP_BUFFER_LEN] == bufIcmp[..]
    ensures forall j :: 0 <= j < IP_BUFFER_LEN && !(PAYLOAD_OFFSET <= j < PAYLOAD_OFFSET + ICMP_BUFFER_LEN)
              ==> bufIp[j] == old(bufIp[j])
    ensures CleanIp(old(bufIp[..])) ==> CleanIp(bufIp[..])
  {
    forall j | 0 <= j < ICMP_BUFFER_LEN {
      bufIp[PAYLOAD_OFFSET + j] := bufIcmp[j];
    }
  }

  /** Byte offsets of the IPv4 header that create_icmp_packet writes. */
  predicate IsHeaderFieldByte(j: nat)
  {
    j == 0 || j == 2 || j == 3 || j == 8 || j == 9 || 16 <= j < 20
  }

  /** The MutableIpv4Packet setters of create_icmp_packet, in the order the source calls them. */
  method SetIpv4Fields(bufIp: array<byte>, dest: Ipv4Addr, ttl: byte)
    requires bufIp.Length == IP_BUFFER_LEN
    modifies bufIp
    ensures Version(bufIp[..]) == 4 && HeaderLength(bufIp[..]) == HEADER_LENGTH_FIELD
    ensures TotalLength(bufIp[..]) == TOTAL_LENGTH && TimeToLive(bufIp[..]) == ttl
    ensures Protocol(bufIp[..]) == PROTOCOL_ICMP
    ensures bufIp[16] == dest.a && bufIp[17] == dest.b && bufIp[18] == dest.c && bufIp[19] == dest.d
    ensures forall j :: 0 <= j < IP_BUFFER_LEN && !IsHeaderFieldByte(j) ==> bufIp[j] == old(bufIp[j])
    ensures CleanIp(old(bufIp[..])) ==> CleanIp(bufIp[..])
  {
    bufIp[0] := 4 * 16 + bufIp[0] % 16;                          // set_version(4)
    bufIp[0] := bufIp[0] / 16 * 16 + IPV4_HEADER_LEN % 16;       // set_header_length(21)
    bufIp[2], bufIp[3] := TOTAL_LENGTH / 256, TOTAL_LENGTH % 256;
    bufIp[8] := ttl;
    bufIp[9] := PROTOCOL_ICMP;
    bufIp[16], bufIp[17], bufIp[18], bufIp[19] := dest.a, dest.b, dest.c, dest.d;
  }

  /** The MutableEchoRequestPacket setters and the checksum of create_icmp_packet. */
  method SetEchoRequestFields(bufIcmp: array<byte>, sequenceNumber: u16)
    requires bufIcmp.Length == ICMP_BUFFER_LEN
    modifies bufIcmp
    ensures IsEchoRequest(bufIcmp[..], sequenceNumber)
    ensures IcmpChecksum(bufIcmp[..]) == Checksum(bufIcmp[..], 1)
    ensures forall j :: 0 <= j < ICMP_BUFFER_LEN && !IsEchoFieldByte(j) ==> bufIcmp[j] == old(bufIcmp[j])
    ensures CleanIcmp(old(bufIcmp[..])) ==> CleanIcmp(bufIcmp[..])
  {
    bufIcmp[0] := ECHO_REQUEST;
    bufIcmp[6], bufIcmp[7] := sequenceNumber / 256, sequenceNumber % 256;
    ghost var unsummed: seq<byte> := bufIcmp[..];
    var checksum := Checksum(bufIcmp[..], 1);
    bufIcmp[2], bufIcmp[3] := checksum / 256, checksum % 256;
    assert bufIcmp[..] == unsummed[2 := U16Bytes(checksum)[0]][3 := U16Bytes(checksum)[1]];
    StoredChecksumVerifies(unsummed, bufIcmp[..]);
    ChecksumIgnoresField(unsummed, bufIcmp[..]);
  }
}
