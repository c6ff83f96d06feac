/** The mutable SecureConn: each method does what the function of the same name says. */
module SecureConnObject {
  import opened Bytes
  import opened PacketCodec
  import opened S = SecureChannel

  class SecureConn {
    var sendSeq: u32
    var lastRecvSeq: nat
    var sendMsgCount: nat
    var recvMsgCount: nat
    var sendByteCount: nat
    var recvByteCount: nat
    var written: seq<byte>
    const raw: ByteReader
    const sendCipher: IdealCipher
    const recvCipher: IdealCipher

    ghost function SendSide(): SendState
      reads this
    {
      SendState(sendSeq, sendMsgCount, sendByteCount)
    }

    ghost function RecvSide(): RecvState
      reads this
    {
      RecvState(lastRecvSeq, recvMsgCount, recvByteCount)
    }

    constructor (raw: ByteReader, sendCipher: IdealCipher, recvCipher: IdealCipher)
      ensures SendSide() == SendState(0, 0, 0) && RecvSide() == RecvState(0, 0, 0) && written == []
      ensures this.raw == raw && this.sendCipher == sendCipher && this.recvCipher == recvCipher
    {
      sendSeq, lastRecvSeq := 0, 0;
      sendMsgCount, recvMsgCount, sendByteCount, recvByteCount := 0, 0, 0, 0;
      written := [];
      this.raw, this.sendCipher, this.recvCipher := raw, sendCipher, recvCipher;
    }

    method CheckSendKeyUsage(n: nat) returns (ok: bool)
      modifies this`sendMsgCount, this`sendByteCount
      ensures SendSide() == CountSend(old(SendSide()), n)
      ensures ok <==> sendMsgCount <= 1_073_741_824 && sendByteCount <= 68_719_476_736
    {
      sendMsgCount := sendMsgCount + 1;
      sendByteCount := sendByteCount + n;
      ok := sendMsgCount <= MSG_LIMIT && sendByteCount <= BYTE_LIMIT;
    }

    method CheckRecvKeyUsage(n: nat) returns (ok: bool)
      modifies this`recvMsgCount, this`recvByteCount
      ensures RecvSide() == CountRecv(old(RecvSide()), n)
      ensures ok <==> recvMsgCount <= 1_073_741_824 && recvByteCount <= 68_719_476_736
    {
      recvMsgCount := recvMsgCount + 1;
      recvByteCount := recvByteCount + n;
      ok := recvMsgCount <= MSG_LIMIT && recvByteCount <= BYTE_LIMIT;
    }

    /** SendPacket, and the last step of Send. */
    method SendPacket(p: Packet, ct: seq<byte>) returns (result: SendResult)
      modifies this`sendMsgCount, this`sendByteCount, this`written, sendCipher
      ensures var (st, log, bytes, r) := SendRaw(old(SendSide()), old(sendCipher.log), p, ct);
              SendSide() == st && sendCipher.log == log && written == old(written) + bytes && result == r
    {
      var marshalled := Marshal(p);
      if marshalled.Err? {
        return NotSent(Codec(marshalled.error));
      }
      var data := marshalled.value;
      if |data| > MAX_ENCRYPTED {
        return NotSent(TooLarge);
      }
      var ok := CheckSendKeyUsage(|data|);
      if !ok {
        return NotSent(KeyExhausted);
      }
      var lenBuf := Put32(OVERHEAD + |data|);
      ok := sendCipher.SealWithAAD(data, lenBuf, ct);
      if !ok {
        return NotSent(SealFailed);
      }
      written := written + lenBuf;
      written := written + ct;
      assert written == old(written) + (lenBuf + ct);
      return Sent(p);
    }

    method Send(payload: seq<byte>, timestamp: i64, ct: seq<byte>) returns (result: SendResult)
      modifies this`sendSeq, this`sendMsgCount, this`sendByteCount, this`written, sendCipher
      ensures var (st, log, bytes, r) := S.Send(old(SendSide()), old(sendCipher.log), payload, timestamp, ct);
              SendSide() == st && sendCipher.log == log && written == old(written) + bytes && result == r
    {
      sendSeq := (sendSeq + 1) % SEQ_MOD;
      var p := NewDataPacket(payload, sendSeq, timestamp);
      if p.Err? {
        return NotSent(Codec(p.error));
      }
      result := SendPacket(p.value, ct);
    }

    method RecvPacket() returns (result: RecvResult)
      modifies this`lastRecvSeq, this`recvMsgCount, this`recvByteCount, raw
      ensures var (st, r, rest) := S.RecvPacket(old(RecvSide()), recvCipher.log, old(raw.rest));
              RecvSide() == st && result == r && raw.rest == rest
    {
      ghost var input := raw.rest;
      var ok, lenBuf := raw.ReadFull(4);
      if !ok {
        return NotReceived(EndOfStream);
      }
      var length := Get32(lenBuf);
      if length > MAX_ENCRYPTED {
        return NotReceived(TooLarge);
      }
      var ct;
      ok, ct := raw.ReadFull(length);
      if !ok {
        return NotReceived(EndOfStream);
      }
      assert ct == input[4..4 + length] && raw.rest == input[4 + length..];
      ok := CheckRecvKeyUsage(|ct|);
      if !ok {
        return NotReceived(KeyExhausted);
      }
      var data;
      ok, data := recvCipher.OpenWithAAD(ct, lenBuf);
      if !ok {
        return NotReceived(OpenFailed);
      }
      var parsed := Unmarshal(data);
      if parsed.Err? {
        return NotReceived(Codec(parsed.error));
      }
      var p := parsed.value;
      if p.kind == TYPE_DATA && p.seqNum > 0 {
        if p.seqNum <= lastRecvSeq {
          return NotReceived(Replay);
        }
        lastRecvSeq := p.seqNum;
      }
      return Received(p);
    }
  }
}
