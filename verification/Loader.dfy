/** Decoding of ring-buffer records into packet events. */
module Loader {
  import opened ByteStrings
  import opened Wire

  const MAX_PAYLOAD := 1500
  const HEADER_SIZE := 16

  datatype Event = Event(srcIP: U32, dstIP: U32, srcPort: U16, dstPort: U16,
                         payloadLen: U16, tcpFlags: Byte, payload: seq<Byte>)

  function Zeros(n: nat): (z: seq<Byte>)
    ensures |z| == n && forall i :: 0 <= i < n ==> z[i] == '\0'
  {
    seq(n, _ => '\0')
  }

  /** The payload array has a fixed size, and the decoder caps the length to it. */
  type PktEvent = e: Event | |e.payload| == MAX_PAYLOAD && e.payloadLen <= MAX_PAYLOAD
    witness Event(0, 0, 0, 0, 0, '\0', Zeros(MAX_PAYLOAD))

  function Min(a: int, b: int): int { if a < b then a else b }

  /** The length field of a record, capped. */
  function PayloadLength(raw: seq<Byte>): (n: nat)
    requires |raw| >= HEADER_SIZE
    ensures n <= MAX_PAYLOAD
  {
    Min(Load16(raw[12..14]), MAX_PAYLOAD)
  }

  /** The payload array: the bytes the record has, and zeros. */
  function PayloadArray(raw: seq<Byte>, n: nat): (p: seq<Byte>)
    requires HEADER_SIZE + n <= |raw| && n <= MAX_PAYLOAD
    ensures |p| == MAX_PAYLOAD
  {
    raw[HEADER_SIZE..HEADER_SIZE + n] + Zeros(MAX_PAYLOAD - n)
  }

  function DecodeFull(raw: seq<Byte>): PktEvent
    requires |raw| >= HEADER_SIZE
  {
    Event(Load32(raw[0..4]), Load32(raw[4..8]), Load16(raw[8..10]), Load16(raw[10..12]),
          PayloadLength(raw), raw[14], PayloadArray(raw, Min(PayloadLength(raw), |raw| - HEADER_SIZE)))
  }

  /** The event in a record; a record shorter than the header is skipped. */
  function Decode(raw: seq<Byte>): Option<PktEvent> {
    if |raw| < HEADER_SIZE then None else Some(DecodeFull(raw))
  }

  /** The decoded event in numbers: little-endian words at their offsets, a length of at most 1500, and
      in the array the bytes the record has, then zeros. */
  lemma DecodedFields(raw: seq<Byte>)
    ensures |raw| < 16 ==> Decode(raw) == None
    ensures |raw| >= 16 ==>
              var len := raw[12] as int + 0x100 * raw[13] as int;
              && Decode(raw).Some?
              && var ev := Decode(raw).value;
                 && ev.srcIP == raw[0] as int + 0x100 * raw[1] as int + 0x1_0000 * raw[2] as int + 0x100_0000 * raw[3] as int
                 && ev.dstIP == raw[4] as int + 0x100 * raw[5] as int + 0x1_0000 * raw[6] as int + 0x100_0000 * raw[7] as int
                 && ev.srcPort == raw[8] as int + 0x100 * raw[9] as int
                 && ev.dstPort == raw[10] as int + 0x100 * raw[11] as int
                 && ev.payloadLen == (if len < 1500 then len else 1500)
                 && ev.tcpFlags == raw[14]
                 && |ev.payload| == 1500
                 && forall i :: 0 <= i < 1500 ==>
                      ev.payload[i] as int == if i < ev.payloadLen && 16 + i < |raw| then raw[16 + i] as int else 0
  {
  }

  /** Decoding of one record of at least the header's size, field by field and byte by byte. */
  method DecodeRecord(raw: seq<Byte>) returns (ev: PktEvent)
    requires |raw| >= HEADER_SIZE
    ensures Decode(raw) == Some(ev)
  {
    var payload := new Byte[MAX_PAYLOAD](_ => '\0');
    var payloadLen := Load16(raw[12..14]);
    if payloadLen > MAX_PAYLOAD {
      payloadLen := MAX_PAYLOAD;
    }
    var available := |raw| - HEADER_SIZE;
    var copyLen := payloadLen;
    if copyLen > available {
      copyLen := available;
    }
    var i := 0;
    while i < copyLen
      invariant 0 <= i <= copyLen <= MAX_PAYLOAD && HEADER_SIZE + copyLen <= |raw|
      invariant payload[..] == PayloadArray(raw, i)
    {
      payload[i] := raw[HEADER_SIZE + i];
      i := i + 1;
    }
    ev := Event(Load32(raw[0..4]), Load32(raw[4..8]), Load16(raw[8..10]), Load16(raw[10..12]),
                payloadLen, raw[14], payload[..]);
  }

  function Events(ev: Option<PktEvent>): seq<PktEvent> {
    if ev.Some? then [ev.value] else []
  }

  function DecodeAll(records: seq<seq<Byte>>): seq<PktEvent> {
    if records == [] then []
    else DecodeAll(records[..|records| - 1]) + Events(Decode(records[|records| - 1]))
  }

  /** The read loop up to the closing of the reader: the events handed to the callback, in order. */
  method ReadEvents(records: seq<seq<Byte>>) returns (events: seq<PktEvent>)
    ensures events == DecodeAll(records)
  {
    events := [];
    var i := 0;
    while i < |records|
      invariant 0 <= i <= |records|
      invariant events == DecodeAll(records[..i])
    {
      assert records[..i + 1][..i] == records[..i];
      if |records[i]| >= HEADER_SIZE {
        var ev := DecodeRecord(records[i]);
        events := events + [ev];
      }
      i := i + 1;
    }
    assert records[..i] == records;
  }
}
