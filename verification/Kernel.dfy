/** The kernel hook: from the bytes of a frame to a record in the ring buffer. */
module Kernel {
  import opened ByteStrings
  import opened Wire
  import opened Loader

  const ETH_LEN := 14
  const IP_MIN := 20
  const TCP_MIN := 20
  const ETHERTYPE_IPV4 := 0x0800
  const PROTO_TCP := 6
  const EVENT_SIZE := HEADER_SIZE + MAX_PAYLOAD

  /** A packet buffer: all bytes of the frame, of which the first `linear` can be read in place. */
  datatype Buffer = Buffer(bytes: seq<Byte>, linear: nat)

  type Skb = s: Buffer | s.linear <= |s.bytes| witness Buffer([], 0)

  // ---------------------------------------------------------------- header arithmetic

  /** Length of the IPv4 header, from the low four bits of its first byte. */
  function IpLen(skb: Skb): (n: nat)
    requires skb.linear >= ETH_LEN + IP_MIN
    ensures n <= 60
  {
    skb.bytes[ETH_LEN] as int % 16 * 4
  }

  function TcpStart(skb: Skb): nat
    requires skb.linear >= ETH_LEN + IP_MIN
  {
    ETH_LEN + IpLen(skb)
  }

  /** An IPv4 TCP frame with readable headers. */
  predicate IsTcp(skb: Skb) {
    && skb.linear >= ETH_LEN + IP_MIN
    && Network16(skb.bytes[12..14]) == ETHERTYPE_IPV4
    && skb.bytes[ETH_LEN + 9] as int == PROTO_TCP
    && TcpStart(skb) + TCP_MIN <= skb.linear
  }

  function SourcePort(skb: Skb): U16
    requires IsTcp(skb)
  {
    Network16(skb.bytes[TcpStart(skb)..TcpStart(skb) + 2])
  }

  function DestPort(skb: Skb): U16
    requires IsTcp(skb)
  {
    Network16(skb.bytes[TcpStart(skb) + 2..TcpStart(skb) + 4])
  }

  predicate Matches(skb: Skb, target: U16) { IsTcp(skb) && DestPort(skb) == target }

  /** Offset of the TCP payload. */
  function HdrOffset(skb: Skb): (n: nat)
    requires IsTcp(skb)
    ensures n <= 134
  {
    TcpStart(skb) + skb.bytes[TcpStart(skb) + 12] as int / 16 * 4
  }

  predicate HasPayload(skb: Skb)
    requires IsTcp(skb)
  {
    HdrOffset(skb) < |skb.bytes|
  }

  /** Bytes to copy: those after the headers, up to the size of the array. */
  function CopyLen(skb: Skb): (n: nat)
    requires IsTcp(skb) && HasPayload(skb)
    ensures 1 <= n <= MAX_PAYLOAD && HdrOffset(skb) + n <= |skb.bytes|
  {
    Min(|skb.bytes| - HdrOffset(skb), MAX_PAYLOAD)
  }

  function SourceAddress(skb: Skb): (a: seq<Byte>)
    requires IsTcp(skb)
    ensures |a| == 4
  {
    skb.bytes[ETH_LEN + 12..ETH_LEN + 16]
  }

  function DestAddress(skb: Skb): (a: seq<Byte>)
    requires IsTcp(skb)
    ensures |a| == 4
  {
    skb.bytes[ETH_LEN + 16..ETH_LEN + 20]
  }

  /** FIN, SYN, RST, PSH and ACK as they stand in the TCP header. */
  function Flags(skb: Skb): Byte
    requires IsTcp(skb)
  {
    (skb.bytes[TcpStart(skb) + 13] as int % 32) as char
  }

  // ---------------------------------------------------------------- the record

  /** The sixteen bytes before the payload array. */
  function RecordHeader(skb: Skb, payloadLen: U16): (h: seq<Byte>)
    requires IsTcp(skb)
    ensures |h| == HEADER_SIZE
  {
    Encode32(Load32(SourceAddress(skb))) + Encode32(Load32(DestAddress(skb)))
    + Encode16(SourcePort(skb)) + Encode16(DestPort(skb)) + Encode16(payloadLen) + [Flags(skb), '\0']
  }

  /** The bytes the hook takes off a frame. */
  function Captured(skb: Skb): (p: seq<Byte>)
    requires IsTcp(skb) && HasPayload(skb)
    ensures |p| == CopyLen(skb)
  {
    skb.bytes[HdrOffset(skb)..HdrOffset(skb) + CopyLen(skb)]
  }

  /** The record of a frame, in a slot with stale contents.  A copy that fails clears the bytes it was
      to fill, and the record has no payload. */
  function Record(skb: Skb, slot: seq<Byte>, loaded: bool): (r: seq<Byte>)
    requires IsTcp(skb) && HasPayload(skb) && |slot| == EVENT_SIZE
    ensures |r| == EVENT_SIZE
  {
    if loaded then RecordHeader(skb, CopyLen(skb)) + Captured(skb) + slot[HEADER_SIZE + CopyLen(skb)..]
    else RecordHeader(skb, 0) + Zeros(CopyLen(skb)) + slot[HEADER_SIZE + CopyLen(skb)..]
  }

  /** `s` with `b` written over it at `off`. */
  function Put(s: seq<Byte>, off: nat, b: seq<Byte>): (r: seq<Byte>)
    requires off + |b| <= |s|
    ensures |r| == |s|
  {
    s[..off] + b + s[off + |b|..]
  }

  /** A slot whose first bytes are `h` and whose other bytes are still the stale ones. */
  function Filled(h: seq<Byte>, stale: seq<Byte>): (r: seq<Byte>)
    requires |h| <= |stale|
    ensures |r| == |stale|
  {
    h + stale[|h|..]
  }

  lemma FillNext(h: seq<Byte>, b: seq<Byte>, stale: seq<Byte>)
    requires |h| + |b| <= |stale|
    ensures Put(Filled(h, stale), |h|, b) == Filled(h + b, stale)
  {
  }

  method Store(slot: array<Byte>, off: nat, b: seq<Byte>)
    requires off + |b| <= slot.Length
    modifies slot
    ensures slot[..] == Put(old(slot[..]), off, b)
  {
    forall i | 0 <= i < |b| {
      slot[off + i] := b[i];
    }
  }

  /** Writing the next field of a slot that is being filled from the front. */
  method StoreNext(slot: array<Byte>, ghost h: seq<Byte>, off: nat, b: seq<Byte>, ghost stale: seq<Byte>)
    requires off == |h| && off + |b| <= slot.Length == |stale|
    requires slot[..] == Filled(h, stale)
    modifies slot
    ensures slot[..] == Filled(h + b, stale)
  {
    Store(slot, off, b);
    FillNext(h, b, stale);
  }

  function Bit(b: Byte, weight: int): int
    requires weight > 0
  {
    b as int / weight % 2
  }

  lemma FlagBits(b: Byte)
    ensures Bit(b, 1) + 2 * Bit(b, 2) + 4 * Bit(b, 4) + 8 * Bit(b, 8) + 16 * Bit(b, 16) == b as int % 32
  {
    var x := b as int;
    var x2 := x / 2;
    var x4 := x2 / 2;
    var x8 := x4 / 2;
    var x16 := x8 / 2;
    assert x4 == x / 4 && x8 == x / 8 && x16 == x / 16 && x16 / 2 == x / 32;
  }

  /** Counters and ring of the attached program. */
  class Hook {
    const target: U16
    const capacity: nat
    var matched: nat
    var drops: nat
    var ring: seq<seq<Byte>>

    constructor (target: U16, capacity: nat)
      ensures matched == drops == 0 && ring == []
      ensures this.target == target && this.capacity == capacity
    {
      this.target, this.capacity := target, capacity;
      matched, drops, ring := 0, 0, [];
    }

    /** One frame.  `slot` is the memory a reservation would return, `loaded` whether copying the
        payload succeeds. */
    method MirrorIngress(skb: Skb, slot: array<Byte>, loaded: bool)
      requires slot.Length == EVENT_SIZE
      modifies this, slot
      ensures matched == old(matched) + if Matches(skb, target) then 1 else 0
      ensures drops == old(drops) +
                if Matches(skb, target) && HasPayload(skb) && |old(ring)| >= capacity then 1 else 0
      ensures ring == old(ring) +
                if Matches(skb, target) && HasPayload(skb) && |old(ring)| < capacity
                then [Record(skb, old(slot[..]), loaded)] else []
    {
      var b := skb.bytes;
      if ETH_LEN > skb.linear { return; }
      if Network16(b[12..14]) != ETHERTYPE_IPV4 { return; }
      if ETH_LEN + IP_MIN > skb.linear { return; }
      if b[ETH_LEN + 9] as int != PROTO_TCP { return; }
      var ipLen := b[ETH_LEN] as int % 16 * 4;
      var tcp := ETH_LEN + ipLen;
      if tcp + TCP_MIN > skb.linear { return; }
      if Network16(b[tcp + 2..tcp + 4]) != target { return; }
      matched := matched + 1;
      var tcpLen := b[tcp + 12] as int / 16 * 4;
      var hdrOffset := ETH_LEN + ipLen + tcpLen;
      var payLen := |b| - hdrOffset;
      if payLen <= 0 { return; }
      if payLen > MAX_PAYLOAD {
        payLen := MAX_PAYLOAD;
      }
      if |ring| >= capacity {
        drops := drops + 1;
        return;
      }
      FillSlot(skb, slot, payLen, loaded);
      ring := ring + [slot[..]];
    }

    method FillSlot(skb: Skb, slot: array<Byte>, copyLen: nat, loaded: bool)
      requires slot.Length == EVENT_SIZE
      requires IsTcp(skb) && HasPayload(skb) && copyLen == CopyLen(skb)
      modifies slot
      ensures slot[..] == Record(skb, old(slot[..]), loaded)
    {
      hide Encode16, Encode32, Load32, Network16, Filled, Put;
      ghost var stale := slot[..];
      var tcp := TcpStart(skb);
      var flags := skb.bytes[tcp + 13];
      FlagBits(flags);
      var bits := Bit(flags, 1) + 2 * Bit(flags, 2) + 4 * Bit(flags, 4) + 8 * Bit(flags, 8) + 16 * Bit(flags, 16);
      var src := Encode32(Load32(skb.bytes[ETH_LEN + 12..ETH_LEN + 16]));
      var dst := Encode32(Load32(skb.bytes[ETH_LEN + 16..ETH_LEN + 20]));
      var sport := Encode16(Network16(skb.bytes[tcp..tcp + 2]));
      var dport := Encode16(Network16(skb.bytes[tcp + 2..tcp + 4]));
      FilledWithNothing(stale);
      StoreNext(slot, [], 0, src, stale);
      StoreNext(slot, [] + src, 4, dst, stale);
      StoreNext(slot, [] + src + dst, 8, sport, stale);
      StoreNext(slot, [] + src + dst + sport, 10, dport, stale);
      StoreNext(slot, [] + src + dst + sport + dport, 12, Encode16(copyLen), stale);
      StoreNext(slot, [] + src + dst + sport + dport + Encode16(copyLen), 14, [bits as char, '\0'], stale);
      ghost var h := RecordHeader(skb, copyLen);
      assert [] + src + dst + sport + dport + Encode16(copyLen) + [bits as char, '\0'] == h;
      if loaded {
        StoreNext(slot, h, HEADER_SIZE, skb.bytes[HdrOffset(skb)..HdrOffset(skb) + copyLen], stale);
        FilledReads(h + Captured(skb), stale);
      } else {
        StoreNext(slot, h, HEADER_SIZE, Zeros(copyLen), stale);
        Store(slot, 12, Encode16(0));
        HeaderWithoutPayload(skb, copyLen, Zeros(copyLen), stale);
        FilledReads(RecordHeader(skb, 0) + Zeros(copyLen), stale);
      }
    }
  }

  lemma FilledWithNothing(stale: seq<Byte>)
    ensures Filled([], stale) == stale
  {
  }

  lemma FilledReads(h: seq<Byte>, stale: seq<Byte>)
    requires |h| <= |stale|
    ensures Filled(h, stale) == h + stale[|h|..]
  {
  }

  /** Overwriting the length field clears the length and nothing else. */
  lemma HeaderWithoutPayload(skb: Skb, len: U16, data: seq<Byte>, stale: seq<Byte>)
    requires IsTcp(skb) && HEADER_SIZE + |data| <= |stale|
    ensures Put(Filled(RecordHeader(skb, len) + data, stale), 12, Encode16(0)) ==
            Filled(RecordHeader(skb, 0) + data, stale)
  {
    hide Encode16, Encode32, Load32, Network16, IsTcp, TcpStart, Flags;
  }

  // ---------------------------------------------------------------- decoding inverts the record

  /** The loader reads back exactly what the hook saw: the addresses as words, the ports as numbers,
      the flags, the length, and the captured bytes in front of zeros. */
  lemma CodecInverse(skb: Skb, slot: seq<Byte>, loaded: bool)
    requires IsTcp(skb) && HasPayload(skb) && |slot| == EVENT_SIZE
    ensures var len := if loaded then CopyLen(skb) else 0;
            Decode(Record(skb, slot, loaded)) ==
            Some(Event(Load32(SourceAddress(skb)), Load32(DestAddress(skb)), SourcePort(skb), DestPort(skb),
                       len, Flags(skb), Captured(skb)[..len] + Zeros(MAX_PAYLOAD - len)))
  {
    hide Encode16, Encode32, Load16, Load32, Network16, Zeros, HdrOffset, TcpStart;
    var len := if loaded then CopyLen(skb) else 0;
    var r := Record(skb, slot, loaded);
    var src, dst := Load32(SourceAddress(skb)), Load32(DestAddress(skb));
    assert r[0..4] == Encode32(src) && r[4..8] == Encode32(dst);
    assert r[8..10] == Encode16(SourcePort(skb)) && r[10..12] == Encode16(DestPort(skb));
    assert r[12..14] == Encode16(len) && r[14] == Flags(skb);
    Load32OfEncode(src);
    Load32OfEncode(dst);
    Load16OfEncode(SourcePort(skb));
    Load16OfEncode(DestPort(skb));
    Load16OfEncode(len);
    assert r[HEADER_SIZE..HEADER_SIZE + len] == Captured(skb)[..len];
  }

  // ---------------------------------------------------------------- what TCP sent

  /** End of the IP datagram in the frame, by its total-length field. */
  function DatagramEnd(skb: Skb): nat
    requires IsTcp(skb)
  {
    ETH_LEN + Network16(skb.bytes[ETH_LEN + 2..ETH_LEN + 4])
  }

  /** The frame ends where its datagram ends: no padding, no trailer. */
  predicate Unpadded(skb: Skb)
    requires IsTcp(skb)
  {
    |skb.bytes| == DatagramEnd(skb)
  }

  /** The payload of the TCP segment: the datagram without its headers. */
  function TcpPayload(skb: Skb): seq<Byte>
    requires IsTcp(skb) && HdrOffset(skb) <= DatagramEnd(skb) <= |skb.bytes|
  {
    skb.bytes[HdrOffset(skb)..DatagramEnd(skb)]
  }

  /** Off an unpadded frame the hook takes the front of the TCP payload; all of it exactly if it is
      no longer than the array. */
  lemma CaptureOfUnpadded(skb: Skb)
    requires IsTcp(skb) && HasPayload(skb) && Unpadded(skb)
    ensures Captured(skb) == TcpPayload(skb)[..Min(|TcpPayload(skb)|, MAX_PAYLOAD)]
    ensures Captured(skb) == TcpPayload(skb) <==> |TcpPayload(skb)| <= MAX_PAYLOAD
  {
    hide HdrOffset, DatagramEnd, IsTcp;
    UnpaddedSlices(skb.bytes, HdrOffset(skb));
  }

  lemma UnpaddedSlices(b: seq<Byte>, start: nat)
    requires start <= |b|
    ensures var n := Min(|b| - start, MAX_PAYLOAD);
            b[start..start + n] == b[start..|b|][..Min(|b[start..|b|]|, MAX_PAYLOAD)]
  {
    var n := Min(|b| - start, MAX_PAYLOAD);
    assert |b[start..|b|]| == |b| - start;
    assert b[start..|b|][..n] == b[start..start + n];
  }

  /** With padding, the hook takes bytes TCP never sent, behind the payload, unless the payload alone
      fills the array. */
  lemma CaptureOfPadded(skb: Skb)
    requires IsTcp(skb) && HdrOffset(skb) <= DatagramEnd(skb) < |skb.bytes|
    ensures Captured(skb) == TcpPayload(skb) <==> |TcpPayload(skb)| == MAX_PAYLOAD
    ensures |TcpPayload(skb)| < MAX_PAYLOAD ==>
              && TcpPayload(skb) < Captured(skb)
              && Captured(skb)[|TcpPayload(skb)|..] <= skb.bytes[DatagramEnd(skb)..]
    ensures |TcpPayload(skb)| >= MAX_PAYLOAD ==> Captured(skb) == TcpPayload(skb)[..MAX_PAYLOAD]
  {
    hide HdrOffset, DatagramEnd, IsTcp;
    PaddedSlices(skb.bytes, HdrOffset(skb), DatagramEnd(skb));
  }

  lemma PaddedSlices(b: seq<Byte>, start: nat, end: nat)
    requires start <= end < |b|
    ensures var taken, payload := b[start..start + Min(|b| - start, MAX_PAYLOAD)], b[start..end];
            && (|payload| < MAX_PAYLOAD ==> payload < taken && taken[|payload|..] <= b[end..])
            && (|payload| >= MAX_PAYLOAD ==> taken == payload[..MAX_PAYLOAD])
  {
    var n := Min(|b| - start, MAX_PAYLOAD);
    var taken := b[start..start + n];
    if end - start < MAX_PAYLOAD {
      assert taken[..end - start] == b[start..end];
      assert taken[end - start..] == b[end..][..n - (end - start)];
    } else {
      assert b[start..end][..MAX_PAYLOAD] == taken;
    }
  }

  // ---------------------------------------------------------------- frames by their parts

  /** A frame as Ethernet, IP and TCP lay it out: three headers and what follows them. */
  datatype Parts = Parts(eth: seq<Byte>, ip: seq<Byte>, tcp: seq<Byte>, rest: seq<Byte>)

  /** The first byte of the IP header is its version, 4, and its length in words; the length of the TCP
      header in words is the upper half of its byte 12. */
  predicate WellFormedParts(p: Parts, ihl: nat, doff: nat, reserved: nat) {
    && 5 <= ihl <= 15 && 5 <= doff <= 15 && reserved <= 15
    && |p.eth| == 14 && |p.ip| == 4 * ihl && |p.tcp| == 4 * doff
    && p.ip[0] as int == 0x40 + ihl && p.tcp[12] as int == 0x10 * doff + reserved
  }

  function Bytes(p: Parts): seq<Byte> { p.eth + p.ip + p.tcp + p.rest }

  lemma PartsAt(p: Parts)
    ensures forall i :: 0 <= i < |p.eth| ==> Bytes(p)[i] == p.eth[i]
    ensures forall i :: 0 <= i < |p.ip| ==> Bytes(p)[|p.eth| + i] == p.ip[i]
    ensures forall i :: 0 <= i < |p.tcp| ==> Bytes(p)[|p.eth| + |p.ip| + i] == p.tcp[i]
    ensures Bytes(p)[|p.eth| + |p.ip| + |p.tcp|..] == p.rest
  {
    var b := Bytes(p);
    assert b == p.eth + (p.ip + p.tcp + p.rest);
    assert b == (p.eth + p.ip) + (p.tcp + p.rest);
  }

  lemma PartsHeaders(p: Parts, ihl: nat, doff: nat, reserved: nat, skb: Skb)
    requires WellFormedParts(p, ihl, doff, reserved) && skb.bytes == Bytes(p)
    ensures IsTcp(skb) <==>
            && skb.linear >= 14 + 4 * ihl + 20
            && p.eth[12] as int == 0x08 && p.eth[13] as int == 0x00 && p.ip[9] as int == 6
    ensures IsTcp(skb) ==> TcpStart(skb) == 14 + 4 * ihl && HdrOffset(skb) == 14 + 4 * ihl + 4 * doff
  {
    PartsAt(p);
    assert Bytes(p)[14 + 0] == p.ip[0] && Bytes(p)[14 + 9] == p.ip[9];
    assert Bytes(p)[14 + 4 * ihl + 12] == p.tcp[12];
    assert (0x40 + ihl) % 16 == ihl;
    assert (0x10 * doff + reserved) / 16 == doff;
  }

  lemma PartsFields(p: Parts, ihl: nat, doff: nat, reserved: nat, skb: Skb)
    requires WellFormedParts(p, ihl, doff, reserved) && skb.bytes == Bytes(p) && IsTcp(skb)
    ensures SourceAddress(skb) == p.ip[12..16] && DestAddress(skb) == p.ip[16..20]
    ensures DatagramEnd(skb) == 14 + 0x100 * p.ip[2] as int + p.ip[3] as int
    ensures SourcePort(skb) == 0x100 * p.tcp[0] as int + p.tcp[1] as int
    ensures DestPort(skb) == 0x100 * p.tcp[2] as int + p.tcp[3] as int
    ensures Flags(skb) as int == p.tcp[13] as int % 32
  {
    hide IsTcp, SourcePort, DestPort, Flags, Network16, WellFormedParts, Bytes;
    PartsHeaders(p, ihl, doff, reserved, skb);
    PartsSizes(p, ihl, doff, reserved);
    PartsAddresses(p);
    PartsPorts(p, ihl, doff, reserved, skb);
    PartsAt(p);
    NetworkAt(skb.bytes, 16);
    assert skb.bytes[14 + 2] == p.ip[2] && skb.bytes[14 + 3] == p.ip[3];
  }

  lemma PartsSizes(p: Parts, ihl: nat, doff: nat, reserved: nat)
    requires WellFormedParts(p, ihl, doff, reserved)
    ensures |p.eth| == 14 && |p.ip| == 4 * ihl >= 20 && |p.tcp| == 4 * doff >= 20
    ensures |Bytes(p)| == 14 + 4 * ihl + 4 * doff + |p.rest|
  {
  }

  lemma PartsPorts(p: Parts, ihl: nat, doff: nat, reserved: nat, skb: Skb)
    requires WellFormedParts(p, ihl, doff, reserved) && skb.bytes == Bytes(p) && IsTcp(skb)
    ensures SourcePort(skb) == 0x100 * p.tcp[0] as int + p.tcp[1] as int
    ensures DestPort(skb) == 0x100 * p.tcp[2] as int + p.tcp[3] as int
    ensures Flags(skb) as int == p.tcp[13] as int % 32
  {
    hide IsTcp, Network16, TcpStart, WellFormedParts, Bytes;
    PartsHeaders(p, ihl, doff, reserved, skb);
    PartsSizes(p, ihl, doff, reserved);
    PartsAt(p);
    var b, t := skb.bytes, 14 + 4 * ihl;
    NetworkAt(b, t);
    NetworkAt(b, t + 2);
    assert b[t + 0] == p.tcp[0] && b[t + 1] == p.tcp[1] && b[t + 2] == p.tcp[2] && b[t + 3] == p.tcp[3];
    assert b[t + 13] == p.tcp[13];
  }

  lemma PartsAddresses(p: Parts)
    requires |p.eth| == 14 && |p.ip| >= 20
    ensures Bytes(p)[26..30] == p.ip[12..16] && Bytes(p)[30..34] == p.ip[16..20]
  {
    var b := Bytes(p);
    assert b == p.eth + (p.ip + (p.tcp + p.rest));
  }

  lemma NetworkAt(b: seq<Byte>, i: nat)
    requires i + 2 <= |b|
    ensures Network16(b[i..i + 2]) == 0x100 * b[i] as int + b[i + 1] as int
  {
  }

  /** Which frames the hook takes, in terms of their parts: readable up to the fixed part of the TCP
      header, IPv4, TCP, and to the mirrored port.  It records those with a byte behind their headers. */
  lemma PartsMatch(p: Parts, ihl: nat, doff: nat, reserved: nat, skb: Skb, target: U16)
    requires WellFormedParts(p, ihl, doff, reserved) && skb.bytes == Bytes(p)
    ensures Matches(skb, target) <==>
            && skb.linear >= 14 + 4 * ihl + 20
            && p.eth[12] as int == 0x08 && p.eth[13] as int == 0x00 && p.ip[9] as int == 6
            && 0x100 * p.tcp[2] as int + p.tcp[3] as int == target
    ensures Matches(skb, target) ==> (HasPayload(skb) <==> p.rest != [])
  {
    hide IsTcp, DestPort, HdrOffset;
    PartsHeaders(p, ihl, doff, reserved, skb);
    if IsTcp(skb) { PartsFields(p, ihl, doff, reserved, skb); }
  }

  /** What such a frame's record decodes to: the addresses of the IP header as little-endian words, the
      ports of the TCP header in network order, its five low flag bits, and the first 1500 bytes behind
      the headers. */
  lemma PartsRecorded(p: Parts, ihl: nat, doff: nat, reserved: nat, skb: Skb, slot: seq<Byte>)
    requires WellFormedParts(p, ihl, doff, reserved) && skb.bytes == Bytes(p)
    requires IsTcp(skb) && HasPayload(skb) && |slot| == EVENT_SIZE
    ensures var taken := p.rest[..if |p.rest| < 1500 then |p.rest| else 1500];
            && Decode(Record(skb, slot, true)).Some?
            && var ev := Decode(Record(skb, slot, true)).value;
               && ev.srcIP == Load32(p.ip[12..16]) && ev.dstIP == Load32(p.ip[16..20])
               && ev.srcPort == 0x100 * p.tcp[0] as int + p.tcp[1] as int
               && ev.dstPort == 0x100 * p.tcp[2] as int + p.tcp[3] as int
               && ev.tcpFlags as int == p.tcp[13] as int % 32
               && ev.payloadLen == |taken| && ev.payload[..|taken|] == taken
  {
    hide IsTcp, SourcePort, DestPort, SourceAddress, DestAddress, Flags, Load32, Decode, Record, HdrOffset, Zeros;
    PartsHeaders(p, ihl, doff, reserved, skb);
    PartsFields(p, ihl, doff, reserved, skb);
    PartsAt(p);
    CodecInverse(skb, slot, true);
    var start, n := HdrOffset(skb), CopyLen(skb);
    assert skb.bytes[start..][..n] == skb.bytes[start..start + n];
  }
}
