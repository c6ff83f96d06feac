/**
 What a sealed channel answers, for every state and every input, and how much one key may
 ever seal and accept: 2^30 packets and 64 GiB, in every run against hostile input.
 */
module SecureLimits {
  import opened Bytes
  import opened PacketCodec
  import opened SecureChannel
  import opened SecureRuns

  // ---------- the answers of RecvPacket ----------

  /** The frame at the front of the input is there in full. */
  predicate Framed(input: seq<byte>) {
    |input| >= 4 && Get32(input[..4]) <= 1_048_576 && |input| >= 4 + Get32(input[..4])
  }

  /** Without a whole frame nothing is counted, and the stream ends or is left behind the length field. */
  lemma UnframedIsRefused(r: RecvState, log: SealLog, input: seq<byte>)
    requires !Framed(input)
    ensures var tooLarge := |input| >= 4 && Get32(input[..4]) > 1_048_576;
            RecvPacket(r, log, input) ==
            if tooLarge then (r, NotReceived(TooLarge), input[4..]) else (r, NotReceived(EndOfStream), [])
  {
  }

  /** A whole frame is taken and counted, whatever becomes of it. */
  lemma FrameIsCounted(r: RecvState, log: SealLog, input: seq<byte>)
    requires Framed(input)
    ensures var (r', result, rest) := RecvPacket(r, log, input);
            var length := |FrameIn(input)|;
            && input == input[..4] + FrameIn(input) + rest
            && r'.msgs == r.msgs + 1 && r'.bytes == r.bytes + length
  {
  }

  /** One more packet of n bytes goes past what a key may be used for. */
  predicate PastLimit(msgs: nat, bytes: nat, n: nat) {
    msgs + 1 > 1_073_741_824 || bytes + n > 68_719_476_736
  }

  /** The plaintext that a frame was sealed from, if it was. */
  predicate Opens(log: SealLog, input: seq<byte>) {
    Framed(input) && |FrameIn(input)| >= 28 && (FrameIn(input), input[..4]) in log
  }

  /** A frame that was used up, or does not open, is refused. */
  lemma UnopenedIsRefused(r: RecvState, log: SealLog, input: seq<byte>)
    requires Framed(input)
    ensures var (r', result, rest) := RecvPacket(r, log, input);
            var past := PastLimit(r.msgs, r.bytes, |FrameIn(input)|);
            && (result == NotReceived(KeyExhausted) <==> past)
            && (result == NotReceived(OpenFailed) <==> !past && !Opens(log, input))
            && (past || !Opens(log, input) ==> r'.lastSeq == r.lastSeq)
  {
  }

  /** A DATA packet with a number is replayed unless it is above every number before. */
  predicate Replayed(r: RecvState, p: Packet) {
    p.kind == 1 && 0 < p.seqNum <= r.lastSeq
  }

  /**
   What opens is accepted as p exactly when the plaintext begins with the encoding of p, p
   is valid and p is not replayed; a replay and a plaintext that is no packet are told apart.
   */
  lemma OpenedIsJudged(r: RecvState, log: SealLog, input: seq<byte>, p: Packet)
    requires Opens(log, input) && !PastLimit(r.msgs, r.bytes, |FrameIn(input)|)
    ensures var (r', result, rest) := RecvPacket(r, log, input);
            var plain := log[(FrameIn(input), input[..4])];
            && (result == Received(p) <==> Valid(p) && Encode(p) <= plain && !Replayed(r, p))
            && (Valid(p) && Encode(p) <= plain && Replayed(r, p) ==> result == NotReceived(Replay))
            && (Valid(p) && Encode(p) <= plain ==>
                  r'.lastSeq == if p.kind == 1 && p.seqNum > r.lastSeq then p.seqNum else r.lastSeq)
            && (forall e :: Unmarshal(plain) == Err(e) ==> result == NotReceived(Codec(e)) && r'.lastSeq == r.lastSeq)
  {
    UnmarshalExactly(log[(FrameIn(input), input[..4])], p);
  }

  // ---------- the answers of SendPacket and Send ----------

  /** A valid packet is sealed exactly when the key is not used up and sealing works; it is counted in any case. */
  lemma ValidIsSealed(st: SendState, log: SealLog, p: Packet, ct: seq<byte>)
    requires Valid(p)
    ensures var (st', log', bytes, result) := SendRaw(st, log, p, ct);
            var past := PastLimit(st.msgs, st.bytes, TotalSize(p));
            && st' == SendState(st.sendSeq, st.msgs + 1, st.bytes + TotalSize(p))
            && (result == NotSent(KeyExhausted) <==> past)
            && (result == NotSent(SealFailed) <==> !past && !CanSeal(log, Encode(p), Put32(28 + TotalSize(p)), ct))
            && (result == Sent(p) <==> !past && CanSeal(log, Encode(p), Put32(28 + TotalSize(p)), ct))
            && bytes == if result == Sent(p) then Put32(28 + TotalSize(p)) + ct else []
  {
    SendRawCases(st, log, p, ct);
  }

  /** A packet that cannot be marshalled leaves everything as it was. */
  lemma InvalidIsRefused(st: SendState, log: SealLog, p: Packet, ct: seq<byte>)
    requires !Valid(p)
    ensures SendRaw(st, log, p, ct) == (st, log, [], NotSent(Codec(Validate(p).error)))
  {
  }

  /** Send spends one number on every call, and a payload that is too long goes no further. */
  lemma SendSpends(st: SendState, log: SealLog, payload: seq<byte>, timestamp: i64, ct: seq<byte>)
    ensures var (st', log', bytes, result) := Send(st, log, payload, timestamp, ct);
            && st'.sendSeq == (if st.sendSeq == 0xFFFF_FFFF then 0 else st.sendSeq + 1)
            && (|payload| > 65535 ==> st'.msgs == st.msgs && st'.bytes == st.bytes && log' == log && bytes == []
                                      && result == NotSent(Codec(PacketTooLarge)))
            && (result.Sent? ==> result.packet.seqNum == st'.sendSeq && result.packet.payload == payload && result.packet.kind == 1)
  {
    if |payload| <= 65535 {
      var p := SendCases(st, log, payload, timestamp, ct);
      SendRawCases(st.(sendSeq := p.seqNum), log, p, ct);
    }
  }

  // ---------- what one key is used for ----------

  function Sizes(ps: seq<Packet>): nat {
    if ps == [] then 0 else Sizes(ps[..|ps| - 1]) + TotalSize(ps[|ps| - 1])
  }

  lemma SizesSnoc(ps: seq<Packet>, p: Packet)
    ensures Sizes(ps + [p]) == Sizes(ps) + TotalSize(p)
  {
    assert (ps + [p])[..|ps|] == ps;
  }

  /** Every packet in `ps` was counted, with so many bytes more than its own, while the limits held. */
  ghost predicate Used(ps: seq<Packet>, extra: nat, msgs: nat, bytes: nat) {
    && |ps| <= msgs && Sizes(ps) + |ps| * extra <= bytes
    && |ps| <= 1_073_741_824 && Sizes(ps) + |ps| * extra <= 68_719_476_736
  }

  lemma UsedMore(ps: seq<Packet>, extra: nat, msgs: nat, bytes: nat, p: Packet)
    requires Used(ps, extra, msgs, bytes) && !PastLimit(msgs, bytes, TotalSize(p) + extra)
    ensures Used(ps + [p], extra, msgs + 1, bytes + TotalSize(p) + extra)
  {
    SizesSnoc(ps, p);
    assert |ps + [p]| * extra == |ps| * extra + extra;
  }

  lemma UsedLater(ps: seq<Packet>, extra: nat, msgs: nat, bytes: nat, msgs': nat, bytes': nat)
    requires Used(ps, extra, msgs, bytes) && msgs <= msgs' && bytes <= bytes'
    ensures Used(ps, extra, msgs', bytes')
  {
  }

  ghost predicate SenderUsed(s: Sender) {
    Used(s.sent, 0, s.st.msgs, s.st.bytes)
  }

  lemma RawUses(s: Sender, st: SendState, p: Packet, ct: seq<byte>)
    requires SenderUsed(s) && st.msgs == s.st.msgs && st.bytes == s.st.bytes
    ensures var (st', log, bytes, result) := SendRaw(st, s.log, p, ct);
            SenderUsed(Record(s, st', log, result, ct))
  {
    var (st', log, bytes, result) := SendRaw(st, s.log, p, ct);
    if Valid(p) {
      ValidIsSealed(st, s.log, p, ct);
      if result == Sent(p) {
        UsedMore(s.sent, 0, s.st.msgs, s.st.bytes, p);
      } else {
        UsedLater(s.sent, 0, s.st.msgs, s.st.bytes, st'.msgs, st'.bytes);
      }
    } else {
      InvalidIsRefused(st, s.log, p, ct);
    }
  }

  lemma SenderUses(s: Sender, op: SendOp)
    requires SenderUsed(s)
    ensures SenderUsed(SenderNext(s, op).0)
  {
    match op
    case Payload(payload, timestamp, ct) =>
      if |payload| <= 65535 {
        var p := SendCases(s.st, s.log, payload, timestamp, ct);
        RawUses(s, s.st.(sendSeq := p.seqNum), p, ct);
      }
    case Other(p, ct) =>
      if p.kind != TYPE_DATA {
        RawUses(s, s.st, p, ct);
      }
  }

  /** A sender never seals more than 2^30 packets or more than 64 GiB, however it is called. */
  lemma {:induction false} SealedWithinLimits(ops: seq<SendOp>)
    ensures var s := SenderOf(ops);
            |s.sent| <= 1_073_741_824 && Sizes(s.sent) <= 68_719_476_736
  {
    SenderAlwaysUsed(ops);
  }

  lemma {:induction false} SenderAlwaysUsed(ops: seq<SendOp>)
    ensures SenderUsed(SenderOf(ops))
  {
    if ops != [] {
      SenderAlwaysUsed(ops[..|ops| - 1]);
      SenderUses(SenderOf(ops[..|ops| - 1]), ops[|ops| - 1]);
    }
  }

  /** What opens is 28 bytes longer than the packet in it. */
  lemma OpenedSize(s: Sender, ct: seq<byte>, lenBuf: seq<byte>, p: Packet)
    requires CoreInv(s) && (ct, lenBuf) in s.log && Unmarshal(s.log[(ct, lenBuf)]) == Ok(p)
    ensures |ct| == TotalSize(p) + 28
  {
    OpenedWasSent(s, ct, lenBuf);
    var i := Position(s.cts, ct);
    assert SealedAs(s.log, s.sent[i], s.cts[i]);
    UnmarshalEncode(p, []);
  }

  lemma AcceptedFrame(n: Net, input: seq<byte>)
    requires CoreInv(n.s) && RecvPacket(n.r, n.s.log, input).1.Received?
    ensures var (r, result, rest) := RecvPacket(n.r, n.s.log, input);
            && !PastLimit(n.r.msgs, n.r.bytes, TotalSize(result.packet) + 28)
            && r.msgs == n.r.msgs + 1 && r.bytes == n.r.bytes + TotalSize(result.packet) + 28
  {
    var p := RecvPacket(n.r, n.s.log, input).1.packet;
    FrameIsCounted(n.r, n.s.log, input);
    UnopenedIsRefused(n.r, n.s.log, input);
    AcceptCases(n.r, n.s.log, input[..4], FrameIn(input));
    OpenedSize(n.s, FrameIn(input), input[..4], p);
  }

  ghost predicate ReceiverUsed(n: Net) {
    Used(n.got, 28, n.r.msgs, n.r.bytes)
  }

  lemma InUses(n: Net, input: seq<byte>)
    requires CoreInv(n.s) && ReceiverUsed(n)
    ensures ReceiverUsed(NetNext(n, In(input)))
  {
    var (r, result, rest) := RecvPacket(n.r, n.s.log, input);
    if result.Received? {
      AcceptedFrame(n, input);
      UsedMore(n.got, 28, n.r.msgs, n.r.bytes, result.packet);
    } else {
      if Framed(input) {
        FrameIsCounted(n.r, n.s.log, input);
      } else {
        UnframedIsRefused(n.r, n.s.log, input);
      }
      UsedLater(n.got, 28, n.r.msgs, n.r.bytes, r.msgs, r.bytes);
    }
  }

  lemma {:induction false} ReceiverAlwaysUsed(ops: seq<NetOp>)
    ensures ReceiverUsed(NetRun(ops))
  {
    if ops != [] {
      var init, op := ops[..|ops| - 1], ops[|ops| - 1];
      ReceiverAlwaysUsed(init);
      NetRunInv(init);
      if op.In? {
        InUses(NetRun(init), op.input);
      }
    }
  }

  /**
   Whatever bytes arrive, a receiver never accepts more than 2^30 packets, or packets whose
   frames have more than 64 GiB together.
   */
  lemma {:induction false} AcceptedWithinLimits(ops: seq<NetOp>)
    ensures var got := NetRun(ops).got;
            |got| <= 1_073_741_824 && Sizes(got) + 28 * |got| <= 68_719_476_736
  {
    ReceiverAlwaysUsed(ops);
  }
}
