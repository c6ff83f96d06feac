/** The Guarch packet codec: an 18-byte header, the payload, the padding. */
module PacketCodec {
  import opened Bytes

  const PROTOCOL_VERSION: byte := 1
  const MAX_PAYLOAD_SIZE := 65535
  const MAX_PADDING_SIZE := 1024
  const HEADER_SIZE := 18

  const TYPE_DATA: byte := 1
  const TYPE_PADDING: byte := 2
  const TYPE_CLOSE: byte := 5
  const TYPE_PING: byte := 6
  const TYPE_PONG: byte := 7

  type u16 = n: nat | n < 0x1_0000
  type u32 = n: nat | n < 0x1_0000_0000
  type i64 = n: int | -0x8000_0000_0000_0000 <= n < 0x8000_0000_0000_0000

  datatype Packet = Packet(
    version: byte, kind: byte, seqNum: u32, timestamp: i64,
    payloadLen: u16, paddingLen: u16, payload: seq<byte>, padding: seq<byte>)

  datatype Error =
    | InvalidVersion
    | InvalidPacketType
    | PayloadMismatch
    | PaddingMismatch
    | PacketTooLarge
    | PacketTooShort
    | ShortHeader
    | ShortBody

  datatype Result<+T> = Ok(value: T) | Err(error: Error)

  datatype Check = Pass | Fail(error: Error)

  // ---------- the codec as functions ----------

  function Validate(p: Packet): Check {
    if p.version != PROTOCOL_VERSION then Fail(InvalidVersion)
    else if !(TYPE_DATA <= p.kind <= TYPE_PONG) then Fail(InvalidPacketType)
    else if p.payloadLen != |p.payload| then Fail(PayloadMismatch)
    else if p.paddingLen != |p.padding| then Fail(PaddingMismatch)
    else if p.payloadLen > MAX_PAYLOAD_SIZE then Fail(PacketTooLarge)
    else if p.paddingLen > MAX_PADDING_SIZE then Fail(PacketTooLarge)
    else Pass
  }

  predicate Valid(p: Packet) {
    Validate(p).Pass?
  }

  function ToU64(n: i64): nat {
    if n < 0 then n + 0x1_0000_0000_0000_0000 else n
  }

  function ToI64(n: nat): i64
    requires n < 0x1_0000_0000_0000_0000
  {
    if n >= 0x8000_0000_0000_0000 then n - 0x1_0000_0000_0000_0000 else n
  }

  function Header(p: Packet): (h: seq<byte>)
    ensures |h| == HEADER_SIZE
  {
    [p.version, p.kind] + Put32(p.seqNum) + Put64(ToU64(p.timestamp)) + Put16(p.payloadLen) + Put16(p.paddingLen)
  }

  /** The bytes of a packet whose length fields are right. */
  function Encode(p: Packet): seq<byte> {
    Header(p) + p.payload + p.padding
  }

  function TotalSize(p: Packet): nat {
    HEADER_SIZE + p.payloadLen + p.paddingLen
  }

  function Unmarshal(data: seq<byte>): Result<Packet> {
    if |data| < HEADER_SIZE then Err(PacketTooShort)
    else
      var payloadLen := Get16(data[14..16]);
      var paddingLen := Get16(data[16..18]);
      if payloadLen > MAX_PAYLOAD_SIZE || paddingLen > MAX_PADDING_SIZE then Err(PacketTooLarge)
      else
        var expected := HEADER_SIZE + payloadLen + paddingLen;
        if |data| < expected then Err(PacketTooShort)
        else
          var p := Packet(data[0], data[1], Get32(data[2..6]), ToI64(Get64(data[6..14])), payloadLen, paddingLen,
                          data[HEADER_SIZE..HEADER_SIZE + payloadLen], data[HEADER_SIZE + payloadLen..expected]);
          match Validate(p)
          case Pass => Ok(p)
          case Fail(e) => Err(e)
  }

  /** ReadPacket on a stream that holds `input`: the result and what is left to read. */
  function ReadFrom(input: seq<byte>): (Result<Packet>, seq<byte>) {
    if |input| < HEADER_SIZE then (Err(ShortHeader), [])
    else
      var payloadLen := Get16(input[14..16]);
      var paddingLen := Get16(input[16..18]);
      if payloadLen > MAX_PAYLOAD_SIZE || paddingLen > MAX_PADDING_SIZE then
        (Err(PacketTooLarge), input[HEADER_SIZE..])
      else
        var full := HEADER_SIZE + payloadLen + paddingLen;
        if |input| < full then (Err(ShortBody), [])
        else (Unmarshal(input[..full]), input[full..])
  }

  // ---------- constructors ----------

  function NewDataPacket(payload: seq<byte>, seqNum: u32, timestamp: i64): Result<Packet> {
    if |payload| > MAX_PAYLOAD_SIZE then Err(PacketTooLarge)
    else Ok(Packet(PROTOCOL_VERSION, TYPE_DATA, seqNum, timestamp, |payload|, 0, payload, []))
  }

  /** The padding a padding packet of the wanted size carries, cut from `random`. */
  function PaddingSize(size: int): nat {
    if size > MAX_PADDING_SIZE then MAX_PADDING_SIZE else if size <= 0 then 1 else size
  }

  function NewPaddingPacket(size: int, seqNum: u32, timestamp: i64, random: seq<byte>): Packet
    requires |random| == PaddingSize(size)
  {
    Packet(PROTOCOL_VERSION, TYPE_PADDING, seqNum, timestamp, 0, PaddingSize(size), [], random)
  }

  /** Ping, pong and close packets. */
  function NewEmptyPacket(kind: byte, seqNum: u32, timestamp: i64): Packet {
    Packet(PROTOCOL_VERSION, kind, seqNum, timestamp, 0, 0, [], [])
  }

  /** What the constructors make can be marshalled; a payload is refused exactly when it is too long. */
  lemma ConstructedIsValid(payload: seq<byte>, size: int, kind: byte, seqNum: u32, timestamp: i64, random: seq<byte>)
    requires |random| == PaddingSize(size) && kind in [TYPE_PING, TYPE_PONG, TYPE_CLOSE]
    ensures NewDataPacket(payload, seqNum, timestamp).Ok? <==> |payload| <= 65535
    ensures |payload| <= 65535 ==>
              var p := NewDataPacket(payload, seqNum, timestamp).value;
              Valid(p) && p.kind == 1 && p.seqNum == seqNum && p.timestamp == timestamp && p.payload == payload && p.padding == []
    ensures var p := NewEmptyPacket(kind, seqNum, timestamp);
            Valid(p) && TotalSize(p) == 18 && p.kind == kind && p.seqNum == seqNum && p.timestamp == timestamp
    ensures var p := NewPaddingPacket(size, seqNum, timestamp, random);
            && Valid(p) && p.kind == 2 && p.seqNum == seqNum && p.timestamp == timestamp && p.payload == []
            && p.padding == random && 1 <= |p.padding| <= 1024 && (1 <= size <= 1024 ==> |p.padding| == size)
            && (size > 1024 ==> |p.padding| == 1024)
  {
  }

  // ---------- the format, byte by byte ----------

  /** Where each field lies, the most significant byte first; the timestamp is in two's complement. */
  lemma Layout(p: Packet)
    ensures var h := Header(p);
            var t := if p.timestamp < 0 then p.timestamp + 0x1_0000_0000_0000_0000 else p.timestamp;
            && h[0] == p.version && h[1] == p.kind
            && p.seqNum == Weigh(h[2], h[3], h[4], h[5])
            && t == Weigh(h[6], h[7], h[8], h[9]) * 0x1_0000_0000 + Weigh(h[10], h[11], h[12], h[13])
            && p.payloadLen == Weigh(0, 0, h[14], h[15]) && p.paddingLen == Weigh(0, 0, h[16], h[17])
    ensures Encode(p)[..18] == Header(p) && Encode(p)[18..18 + |p.payload|] == p.payload
    ensures Encode(p)[18 + |p.payload|..] == p.padding
  {
    var h, t := Header(p), ToU64(p.timestamp);
    Put32Weights(p.seqNum);
    Put32Weights(t / 0x1_0000_0000);
    Put32Weights(t % 0x1_0000_0000);
    assert h[2..6] == Put32(p.seqNum) && h[14..16] == Put16(p.payloadLen) && h[16..18] == Put16(p.paddingLen);
    assert h[6..10] == Put32(t / 0x1_0000_0000) && h[10..14] == Put32(t % 0x1_0000_0000);
  }

  /** Which buffers Unmarshal accepts, and the first check that fails of the others. */
  lemma AcceptedBytes(data: seq<byte>)
    ensures Unmarshal(data).Ok? <==>
              && 18 <= |data| && data[0] == 1 && 1 <= data[1] <= 7 && Get16(data[16..18]) <= 1024
              && 18 + Get16(data[14..16]) + Get16(data[16..18]) <= |data|
    ensures Unmarshal(data).Err? ==>
              Unmarshal(data).error ==
              if |data| < 18 then PacketTooShort
              else if Get16(data[16..18]) > 1024 then PacketTooLarge
              else if |data| < 18 + Get16(data[14..16]) + Get16(data[16..18]) then PacketTooShort
              else if data[0] != 1 then InvalidVersion
              else InvalidPacketType
  {
  }

  /** The same for a stream, and what is left of it: a refused packet may have been taken in full. */
  lemma AcceptedStream(input: seq<byte>)
    ensures ReadFrom(input).0.Ok? <==>
              && 18 <= |input| && input[0] == 1 && 1 <= input[1] <= 7 && Get16(input[16..18]) <= 1024
              && 18 + Get16(input[14..16]) + Get16(input[16..18]) <= |input|
    ensures ReadFrom(input).0.Err? ==>
              ReadFrom(input).0.error ==
              if |input| < 18 then ShortHeader
              else if Get16(input[16..18]) > 1024 then PacketTooLarge
              else if |input| < 18 + Get16(input[14..16]) + Get16(input[16..18]) then ShortBody
              else if input[0] != 1 then InvalidVersion
              else InvalidPacketType
    ensures ReadFrom(input).1 ==
              if |input| < 18 then []
              else if Get16(input[16..18]) > 1024 then input[18..]
              else if |input| < 18 + Get16(input[14..16]) + Get16(input[16..18]) then []
              else input[18 + Get16(input[14..16]) + Get16(input[16..18])..]
  {
    if 18 <= |input| {
      var full := 18 + Get16(input[14..16]) + Get16(input[16..18]);
      if full <= |input| {
        AcceptedBytes(input[..full]);
        assert input[..full][14..16] == input[14..16] && input[..full][16..18] == input[16..18];
      }
    }
  }

  // ---------- what the codec promises ----------

  lemma HeaderFields(p: Packet, rest: seq<byte>)
    ensures var data := Header(p) + rest;
            && data[0] == p.version && data[1] == p.kind
            && data[2..6] == Put32(p.seqNum) && data[6..14] == Put64(ToU64(p.timestamp))
            && data[14..16] == Put16(p.payloadLen) && data[16..18] == Put16(p.paddingLen)
            && data[18..] == rest
  {
  }

  /** Decoding what was encoded gives the packet back, whatever follows it. */
  lemma UnmarshalEncode(p: Packet, rest: seq<byte>)
    requires Valid(p)
    ensures Unmarshal(Encode(p) + rest) == Ok(p)
    ensures |Encode(p)| == TotalSize(p)
  {
    var data := Encode(p) + rest;
    assert data == Header(p) + (p.payload + p.padding + rest);
    HeaderFields(p, p.payload + p.padding + rest);
    Get32Put32(p.seqNum);
    Get64Put64(ToU64(p.timestamp));
    assert data[18..18 + p.payloadLen] == p.payload;
    assert data[18 + p.payloadLen..18 + p.payloadLen + p.paddingLen] == p.padding;
  }

  /** Encoding an accepted buffer again gives the bytes that were consumed. */
  lemma EncodeUnmarshal(data: seq<byte>)
    requires Unmarshal(data).Ok?
    ensures var p := Unmarshal(data).value;
            Valid(p) && TotalSize(p) <= |data| && Encode(p) == data[..TotalSize(p)]
  {
    var p := Unmarshal(data).value;
    Put32Get32(data[2..6]);
    Put64Get64(data[6..14]);
    assert ToU64(p.timestamp) == Get64(data[6..14]);
    assert Header(p) == data[..18] by {
      assert data[..18] == [data[0], data[1]] + data[2..6] + data[6..14] + data[14..16] + data[16..18];
    }
    assert data[..TotalSize(p)] == data[..18] + data[18..18 + p.payloadLen] + data[18 + p.payloadLen..TotalSize(p)];
  }

  /** A buffer is decoded to p exactly when p is valid and its encoding begins the buffer. */
  lemma UnmarshalExactly(data: seq<byte>, p: Packet)
    ensures Unmarshal(data) == Ok(p) <==> Valid(p) && Encode(p) <= data
  {
    if Unmarshal(data) == Ok(p) {
      EncodeUnmarshal(data);
    }
    if Valid(p) && Encode(p) <= data {
      UnmarshalEncode(p, data[|Encode(p)|..]);
      assert data == Encode(p) + data[|Encode(p)|..];
    }
  }

  /** No encoding is a proper prefix of another, so a concatenation splits in one way only. */
  lemma EncodingsPrefixFree(p: Packet, q: Packet, x: seq<byte>, y: seq<byte>)
    requires Valid(p) && Valid(q) && Encode(p) + x == Encode(q) + y
    ensures p == q && x == y
  {
    UnmarshalEncode(p, x);
    UnmarshalEncode(q, y);
    assert x == (Encode(p) + x)[TotalSize(p)..];
    assert y == (Encode(q) + y)[TotalSize(q)..];
  }

  /** Reading from a stream takes one encoding off its front, and nothing else is accepted. */
  lemma ReadFromExactly(input: seq<byte>, p: Packet, rest: seq<byte>)
    ensures ReadFrom(input) == (Ok(p), rest) <==> Valid(p) && input == Encode(p) + rest
  {
    if Valid(p) && input == Encode(p) + rest {
      ReadFromEncoding(p, rest);
    }
    if ReadFrom(input) == (Ok(p), rest) {
      ReadFromAccepts(input);
    }
  }

  lemma ReadFromAccepts(input: seq<byte>)
    requires ReadFrom(input).0.Ok?
    ensures var (result, rest) := ReadFrom(input); Valid(result.value) && input == Encode(result.value) + rest
  {
    var full := HEADER_SIZE + Get16(input[14..16]) + Get16(input[16..18]);
    EncodeUnmarshal(input[..full]);
    assert input[..full][14..16] == input[14..16] && input[..full][16..18] == input[16..18];
    assert input == input[..full] + input[full..];
  }

  lemma ReadFromEncoding(p: Packet, rest: seq<byte>)
    requires Valid(p)
    ensures ReadFrom(Encode(p) + rest) == (Ok(p), rest)
  {
    var input := Encode(p) + rest;
    assert input == Header(p) + (p.payload + p.padding + rest);
    HeaderFields(p, p.payload + p.padding + rest);
    UnmarshalEncode(p, []);
    assert input[..TotalSize(p)] == Encode(p) + [];
    assert input[TotalSize(p)..] == rest;
  }

  /** A packet that was cut short is refused as too short, in a buffer and on a stream. */
  lemma TruncatedIsRefused(p: Packet, k: nat)
    requires Valid(p) && k < TotalSize(p)
    ensures |Encode(p)| == TotalSize(p)
    ensures Unmarshal(Encode(p)[..k]) == Err(PacketTooShort)
    ensures ReadFrom(Encode(p)[..k]) == (Err(if k < HEADER_SIZE then ShortHeader else ShortBody), [])
  {
    var data := Encode(p)[..k];
    assert Encode(p) == Header(p) + (p.payload + p.padding);
    HeaderFields(p, p.payload + p.padding);
    if k >= HEADER_SIZE {
      assert data[14..16] == Put16(p.payloadLen) && data[16..18] == Put16(p.paddingLen);
    }
  }

  /** What n calls of ReadPacket return on a stream. */
  function ReadMany(input: seq<byte>, n: nat): (seq<Result<Packet>>, seq<byte>)
    decreases n
  {
    if n == 0 then ([], input)
    else
      var (first, rest) := ReadFrom(input);
      var (more, left) := ReadMany(rest, n - 1);
      ([first] + more, left)
  }

  function Encodings(ps: seq<Packet>): seq<byte> {
    if ps == [] then [] else Encode(ps[0]) + Encodings(ps[1..])
  }

  /** Packets written one after the other are read back as they were, up to the last byte. */
  lemma {:induction false} ReadManyRoundTrip(ps: seq<Packet>, rest: seq<byte>)
    requires forall i :: 0 <= i < |ps| ==> Valid(ps[i])
    ensures var (results, left) := ReadMany(Encodings(ps) + rest, |ps|);
            && left == rest && |results| == |ps|
            && forall i :: 0 <= i < |ps| ==> results[i] == Ok(ps[i])
  {
    if ps == [] {
      assert Encodings(ps) + rest == rest;
    } else {
      EncodingsFirst(ps, rest);
      ReadManyFirst(ps[0], Encodings(ps[1..]) + rest, |ps| - 1);
      ReadManyRoundTrip(ps[1..], rest);
    }
  }

  lemma {:induction false} EncodingsFirst(ps: seq<Packet>, rest: seq<byte>)
    requires ps != []
    ensures Encodings(ps) + rest == Encode(ps[0]) + (Encodings(ps[1..]) + rest)
  {
    Associate(Encode(ps[0]), Encodings(ps[1..]), rest);
  }

  lemma {:induction false} ReadManyFirst(p: Packet, tail: seq<byte>, n: nat)
    requires Valid(p)
    ensures ReadMany(Encode(p) + tail, n + 1) == ([Ok(p)] + ReadMany(tail, n).0, ReadMany(tail, n).1)
  {
    ReadFromEncoding(p, tail);
  }

  // ---------- filling and consuming buffers ----------

  method CopyInto(buf: array<byte>, at: nat, src: seq<byte>)
    requires at + |src| <= buf.Length
    modifies buf
    ensures buf[..] == old(buf[..at]) + src + old(buf[at + |src|..])
  {
    var i := 0;
    while i < |src|
      invariant 0 <= i <= |src|
      invariant buf[..at] == old(buf[..at]) && buf[at..at + i] == src[..i]
      invariant buf[at + |src|..] == old(buf[at + |src|..])
    {
      buf[at + i] := src[i];
      i := i + 1;
    }
    assert buf[..] == buf[..at] + buf[at..at + |src|] + buf[at + |src|..];
  }

  /** The fixed fields, in the first eighteen bytes. */
  method FillHeader(buf: array<byte>, p: Packet)
    requires HEADER_SIZE <= buf.Length
    modifies buf
    ensures buf[..HEADER_SIZE] == Header(p)
  {
    CopyInto(buf, 0, [p.version, p.kind]);
    CopyInto(buf, 2, Put32(p.seqNum));
    CopyInto(buf, 6, Put64(ToU64(p.timestamp)));
    CopyInto(buf, 14, Put16(p.payloadLen));
    CopyInto(buf, 16, Put16(p.paddingLen));
    assert buf[..HEADER_SIZE] == Header(p);
  }

  /** Marshal: refuse an invalid packet, otherwise fill a buffer field by field. */
  method Marshal(p: Packet) returns (result: Result<seq<byte>>)
    ensures Valid(p) ==> result == Ok(Encode(p))
    ensures result.Ok? <==> p.version == 1 && 1 <= p.kind <= 7 && p.payloadLen == |p.payload|
                            && p.paddingLen == |p.padding| <= 1024
    ensures result.Err? ==>
              result.error ==
              if p.version != 1 then InvalidVersion
              else if !(1 <= p.kind <= 7) then InvalidPacketType
              else if p.payloadLen != |p.payload| then PayloadMismatch
              else if p.paddingLen != |p.padding| then PaddingMismatch
              else PacketTooLarge
  {
    match Validate(p) {
      case Fail(e) => return Err(e);
      case Pass =>
    }
    var buf := new byte[TotalSize(p)](_ => 0);
    FillHeader(buf, p);
    if p.payloadLen > 0 {
      CopyInto(buf, HEADER_SIZE, p.payload);
    }
    if p.paddingLen > 0 {
      CopyInto(buf, HEADER_SIZE + p.payloadLen, p.padding);
    }
    assert buf[..] == Encode(p);
    return Ok(buf[..]);
  }

  /** A byte stream that is read to exhaustion. */
  class ByteReader {
    var rest: seq<byte>

    constructor (input: seq<byte>)
      ensures rest == input
    {
      rest := input;
    }

    /** io.ReadFull: n bytes, or failure after taking all there are. */
    method ReadFull(n: nat) returns (ok: bool, bytes: seq<byte>)
      modifies this
      ensures ok <==> n <= |old(rest)|
      ensures ok ==> bytes == old(rest)[..n] && rest == old(rest)[n..]
      ensures !ok ==> rest == []
    {
      if n <= |rest| {
        ok, bytes := true, rest[..n];
        rest := rest[n..];
      } else {
        ok, bytes := false, rest;
        rest := [];
      }
    }

    method ReadPacket() returns (result: Result<Packet>)
      modifies this
      ensures (result, rest) == ReadFrom(old(rest))
    {
      ghost var input := rest;
      var ok, header := ReadFull(HEADER_SIZE);
      if !ok {
        return Err(ShortHeader);
      }
      var payloadLen := Get16(header[14..16]);
      var paddingLen := Get16(header[16..18]);
      assert header[14..16] == input[14..16] && header[16..18] == input[16..18];
      if payloadLen > MAX_PAYLOAD_SIZE || paddingLen > MAX_PADDING_SIZE {
        return Err(PacketTooLarge);
      }
      var bodyLen := payloadLen + paddingLen;
      var body := [];
      if bodyLen > 0 {
        ok, body := ReadFull(bodyLen);
        if !ok {
          return Err(ShortBody);
        }
      }
      assert header + body == input[..HEADER_SIZE + bodyLen];
      assert rest == input[HEADER_SIZE + bodyLen..];
      result := Unmarshal(header + body);
    }
  }
}
