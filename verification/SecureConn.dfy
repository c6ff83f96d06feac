/**
 The sealed channel: packets are encoded, sealed under their length, length-framed and
 written to a byte stream; the receiver undoes this and refuses replayed DATA packets.

 The AEAD is ideal: `SealLog` records what was sealed, by ciphertext and associated data,
 and Open succeeds exactly on what is recorded. The ciphertext is the outcome of the
 random nonce, given by the environment; an outcome of the wrong length or one that was
 produced before stands for a failure of the random source.
 */
module SecureChannel {
  import opened Bytes
  import opened PacketCodec

  const MAX_ENCRYPTED: nat := 1024 * 1024
  const MSG_LIMIT: nat := 0x4000_0000
  const BYTE_LIMIT: nat := 64 * 0x4000_0000
  const OVERHEAD: nat := 28
  const SEQ_MOD: nat := 0x1_0000_0000

  type SealLog = map<(seq<byte>, seq<byte>), seq<byte>>

  datatype SendState = SendState(sendSeq: u32, msgs: nat, bytes: nat)
  datatype RecvState = RecvState(lastSeq: nat, msgs: nat, bytes: nat)

  datatype ChanError = Codec(error: Error) | TooLarge | KeyExhausted | SealFailed | OpenFailed | Replay | EndOfStream

  datatype SendResult = Sent(packet: Packet) | NotSent(error: ChanError)
  datatype RecvResult = Received(packet: Packet) | NotReceived(error: ChanError)

  // ---------- the ideal cipher ----------

  predicate CanSeal(log: SealLog, plain: seq<byte>, aad: seq<byte>, ct: seq<byte>) {
    |ct| == |plain| + OVERHEAD && (ct, aad) !in log
  }

  class IdealCipher {
    var log: SealLog

    constructor ()
      ensures log == map[]
    {
      log := map[];
    }

    method SealWithAAD(plain: seq<byte>, aad: seq<byte>, ct: seq<byte>) returns (ok: bool)
      modifies this
      ensures ok <==> CanSeal(old(log), plain, aad, ct)
      ensures log == if ok then old(log)[(ct, aad) := plain] else old(log)
    {
      ok := CanSeal(log, plain, aad, ct);
      if ok {
        log := log[(ct, aad) := plain];
      }
    }

    method OpenWithAAD(ct: seq<byte>, aad: seq<byte>) returns (ok: bool, plain: seq<byte>)
      ensures ok <==> |ct| >= OVERHEAD && (ct, aad) in log
      ensures ok ==> plain == log[(ct, aad)]
    {
      if |ct| < OVERHEAD || (ct, aad) !in log {
        return false, [];
      }
      return true, log[(ct, aad)];
    }
  }

  // ---------- one operation, as functions ----------

  /** The length field that goes before a sealed packet, which is also its associated data. */
  function LenBuf(plain: seq<byte>): seq<byte>
    requires |plain| <= MAX_ENCRYPTED
  {
    Put32(OVERHEAD + |plain|)
  }

  function CountSend(st: SendState, n: nat): SendState {
    st.(msgs := st.msgs + 1, bytes := st.bytes + n)
  }

  /** The state, the seal log, the bytes written, and the result. */
  function SendRaw(st: SendState, log: SealLog, p: Packet, ct: seq<byte>)
    : (SendState, SealLog, seq<byte>, SendResult)
  {
    match Validate(p)
    case Fail(e) => (st, log, [], NotSent(Codec(e)))
    case Pass =>
      var data := Encode(p);
      if |data| > MAX_ENCRYPTED then (st, log, [], NotSent(TooLarge))
      else
        var st' := CountSend(st, |data|);
        if st'.msgs > MSG_LIMIT || st'.bytes > BYTE_LIMIT then (st', log, [], NotSent(KeyExhausted))
        else if !CanSeal(log, data, LenBuf(data), ct) then (st', log, [], NotSent(SealFailed))
        else (st', log[(ct, LenBuf(data)) := data], LenBuf(data) + ct, Sent(p))
  }

  /** Send: number the payload, even when it turns out not to fit a packet. */
  function Send(st: SendState, log: SealLog, payload: seq<byte>, timestamp: i64, ct: seq<byte>)
    : (SendState, SealLog, seq<byte>, SendResult)
  {
    var st1 := st.(sendSeq := (st.sendSeq + 1) % SEQ_MOD);
    match NewDataPacket(payload, st1.sendSeq, timestamp)
    case Err(e) => (st1, log, [], NotSent(Codec(e)))
    case Ok(p) => SendRaw(st1, log, p, ct)
  }

  function CountRecv(st: RecvState, n: nat): RecvState {
    st.(msgs := st.msgs + 1, bytes := st.bytes + n)
  }

  /** What is done with a sealed packet once it was read in full. */
  function Accept(st: RecvState, log: SealLog, lenBuf: seq<byte>, ct: seq<byte>): (RecvState, RecvResult) {
    var st' := CountRecv(st, |ct|);
    if st'.msgs > MSG_LIMIT || st'.bytes > BYTE_LIMIT then (st', NotReceived(KeyExhausted))
    else if |ct| < OVERHEAD || (ct, lenBuf) !in log then (st', NotReceived(OpenFailed))
    else
      match Unmarshal(log[(ct, lenBuf)])
      case Err(e) => (st', NotReceived(Codec(e)))
      case Ok(p) =>
        if p.kind == TYPE_DATA && p.seqNum > 0 then
          if p.seqNum <= st.lastSeq then (st', NotReceived(Replay))
          else (st'.(lastSeq := p.seqNum), Received(p))
        else (st', Received(p))
  }

  /** RecvPacket on a stream that holds `input`: the state, the result, and what is left to read. */
  function RecvPacket(st: RecvState, log: SealLog, input: seq<byte>): (RecvState, RecvResult, seq<byte>) {
    if |input| < 4 then (st, NotReceived(EndOfStream), [])
    else
      var length := Get32(input[..4]);
      if length > MAX_ENCRYPTED then (st, NotReceived(TooLarge), input[4..])
      else if |input| < 4 + length then (st, NotReceived(EndOfStream), [])
      else
        var (st', result) := Accept(st, log, input[..4], input[4..4 + length]);
        (st', result, input[4 + length..])
  }
}
