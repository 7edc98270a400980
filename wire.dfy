/** Bytes, big-endian 16-bit fields, IP addresses and the result wrappers used by the model. */
module Wire {

  type byte = b: int | 0 <= b < 256
  type u16 = n: int | 0 <= n < 0x1_0000

  /** The unsigned 16-bit value stored big-endian (network order) at `s[off]`, `s[off + 1]`. */
  function ReadU16(s: seq<byte>, off: nat): u16
    requires off + 2 <= |s|
  {
    (s[off] as int) * 256 + s[off + 1] as int
  }

  /** The two network-order bytes of `v`. */
  function U16Bytes(v: u16): (r: seq<byte>)
    ensures |r| == 2 && ReadU16(r, 0) == v
  {
    [v / 256, v % 256]
  }

  /** Two big-endian fields are equal exactly when their byte pairs are. */
  lemma ReadU16Injective(s: seq<byte>, off: nat, t: seq<byte>, off': nat)
    requires off + 2 <= |s| && off' + 2 <= |t|
    ensures ReadU16(s, off) == ReadU16(t, off') <==> s[off..off + 2] == t[off'..off' + 2]
  {
    if ReadU16(s, off) == ReadU16(t, off') {
      assert s[off] == ReadU16(s, off) / 256 && s[off + 1] == ReadU16(s, off) % 256;
      assert t[off'] == ReadU16(t, off') / 256 && t[off' + 1] == ReadU16(t, off') % 256;
    }
    if s[off..off + 2] == t[off'..off' + 2] {
      assert s[off] == s[off..off + 2][0] && s[off + 1] == s[off..off + 2][1];
    }
  }

  /** std::net::Ipv4Addr: four octets, most significant first. */
  datatype Ipv4Addr = Ipv4Addr(a: byte, b: byte, c: byte, d: byte) {
    function Octets(): (r: seq<byte>)
      ensures |r| == 4 && r[0] == a && r[3] == d
    {
      [a, b, c, d]
    }
  }

  /** std::net::IpAddr, the source address a reply arrives from. */
  datatype IpAddr = V4(v4: Ipv4Addr) | V6(segments: seq<u16>)

  datatype Option<T> = None | Some(value: T)

  /** A computation that either yields a value or panics (an `expect`, an out-of-range slice,
      a division by zero); a panic ends the whole process. */
  datatype Result<T> = Ok(value: T) | Panic(message: string)
}
