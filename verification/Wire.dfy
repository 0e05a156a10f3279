/** Machine words, their byte order in memory, and the address notation built from them. */
module Wire {
  import opened ByteStrings

  type U16 = x: int | 0 <= x < 0x1_0000
  type U32 = x: int | 0 <= x < 0x1_0000_0000

  function Octet(x: int): Byte { (x % 256) as char }

  function Encode16(x: U16): (b: seq<Byte>)
    ensures |b| == 2
  {
    [Octet(x), Octet(x / 256)]
  }

  function Encode32(x: U32): (b: seq<Byte>)
    ensures |b| == 4
  {
    [Octet(x), Octet(x / 256), Octet(x / 256 / 256), Octet(x / 256 / 256 / 256)]
  }

  /** Little-endian loads. */
  function Load16(b: seq<Byte>): U16
    requires |b| == 2
  {
    b[0] as int + 256 * b[1] as int
  }

  function Load32(b: seq<Byte>): U32
    requires |b| == 4
  {
    b[0] as int + 256 * (b[1] as int + 256 * (b[2] as int + 256 * b[3] as int))
  }

  /** A word in network byte order, as `bpf_ntohs` of the loaded word gives it. */
  function Network16(b: seq<Byte>): U16
    requires |b| == 2
  {
    0x100 * b[0] as int + b[1] as int
  }

  lemma Load16OfEncode(x: U16)
    ensures Load16(Encode16(x)) == x
  {
  }

  lemma Load32OfEncode(x: U32)
    ensures Load32(Encode32(x)) == x
  {
    assert x / 256 / 256 / 256 < 256;
  }

  lemma OctetOf(c: Byte, rest: nat)
    ensures Octet(c as int + 256 * rest) == c
    ensures (c as int + 256 * rest) / 256 == rest
  {
  }

  /** Storing a loaded word puts the same four bytes back. */
  lemma EncodeOfLoad32(b: seq<Byte>)
    requires |b| == 4
    ensures Encode32(Load32(b)) == b
  {
    hide Octet;
    var t3 := b[3] as int;
    var t2 := b[2] as int + 256 * t3;
    var t1 := b[1] as int + 256 * t2;
    OctetOf(b[3], 0);
    OctetOf(b[2], t3);
    OctetOf(b[1], t2);
    OctetOf(b[0], t1);
    assert Encode32(Load32(b)) == [b[0], b[1], b[2], b[3]];
  }

  /** Dotted-decimal notation of four octets. */
  function Dotted(b: seq<Byte>): string
    requires |b| == 4
  {
    Decimal(b[0] as int) + "." + Decimal(b[1] as int) + "." + Decimal(b[2] as int) + "." + Decimal(b[3] as int)
  }

  /** `ipStr` of a word. */
  function IpStr(ip: U32): string { Dotted(Encode32(ip)) }

  /** The address is printed in the order of its bytes on the wire, which is that of the word's octets
      from the lowest up. */
  lemma IpStrWireOrder(b: seq<Byte>)
    requires |b| == 4
    ensures Load32(b) == b[0] as int + 0x100 * b[1] as int + 0x1_0000 * b[2] as int + 0x100_0000 * b[3] as int
    ensures IpStr(Load32(b)) ==
            Decimal(b[0] as int) + "." + Decimal(b[1] as int) + "." + Decimal(b[2] as int) + "." + Decimal(b[3] as int)
    ensures IpStr(Load32(b)) == Dotted(b)
  {
    EncodeOfLoad32(b);
  }
}
