/**
 Where at-most-once ends: a Send that refuses its payload still takes a number, so enough
 refusals bring the 32-bit number round.
 */
module SecureWrap {
  import opened Bytes
  import opened PacketCodec
  import opened SecureChannel
  import opened SecureRuns
  import opened SecureFifo
  import opened SecureOrder

  /** k calls of Send with a payload that does not fit. */
  function Refused(k: nat, tooLong: seq<byte>): seq<SendOp> {
    seq(k, _ => Payload(tooLong, 0, []))
  }

  lemma RefusedStep(s: Sender, tooLong: seq<byte>)
    requires |tooLong| > MAX_PAYLOAD_SIZE
    ensures SenderNext(s, Payload(tooLong, 0, [])).0 ==
            s.(st := s.st.(sendSeq := (s.st.sendSeq + 1) % SEQ_MOD), given := s.given + [tooLong])
  {
  }

  function AfterRefused(k: nat, tooLong: seq<byte>): Sender {
    Sender(SendState(k % SEQ_MOD, 0, 0), map[], [], [], seq(k, _ => tooLong))
  }

  lemma RefusedOnce(k: nat, tooLong: seq<byte>)
    requires |tooLong| > MAX_PAYLOAD_SIZE
    ensures SenderNext(AfterRefused(k, tooLong), Payload(tooLong, 0, [])).0 == AfterRefused(k + 1, tooLong)
  {
    RefusedStep(AfterRefused(k, tooLong), tooLong);
    NextModulo(k);
    assert seq(k + 1, _ => tooLong) == seq(k, _ => tooLong) + [tooLong];
  }

  lemma {:induction false} RefusedRun(k: nat, tooLong: seq<byte>)
    requires |tooLong| > MAX_PAYLOAD_SIZE
    ensures SenderOf(Refused(k, tooLong)) == AfterRefused(k, tooLong)
  {
    if k > 0 {
      RefusedRun(k - 1, tooLong);
      assert Refused(k, tooLong) == Refused(k - 1, tooLong) + [Payload(tooLong, 0, [])];
      SenderOfSnoc(Refused(k - 1, tooLong), Payload(tooLong, 0, []));
      RefusedOnce(k - 1, tooLong);
    } else {
      assert Refused(0, tooLong) == [] && seq(0, _ => tooLong) == [];
    }
  }

  /** One more payload that fits is sealed under the next number. */
  lemma OneMoreSealed(s: Sender, op: SendOp)
    requires CoreInv(s) && op.Payload? && ProperCall(op) && op.ct !in s.cts
    requires s.st.msgs <= 1 && s.st.bytes <= 2 * MAX_ENCRYPTED
    ensures var s', next := SenderNext(s, op).0, (s.st.sendSeq + 1) % SEQ_MOD;
            && s'.sent == s.sent + [CallPacket(op, next)] && s'.cts == s.cts + [op.ct]
            && s'.given == s.given + [op.payload]
            && s'.st == SendState(next, s.st.msgs + 1, s.st.bytes + CallSize(op))
  {
    CallIsSealed(s, op);
  }

  /** k refusals, and one payload. */
  lemma OneSealed(k: nat, tooLong: seq<byte>, op: SendOp)
    requires |tooLong| > MAX_PAYLOAD_SIZE && op.Payload? && ProperCall(op)
    ensures var s := SenderOf(Refused(k, tooLong) + [op]);
            && s.sent == [CallPacket(op, (k + 1) % SEQ_MOD)] && s.cts == [op.ct]
            && s.given == seq(k, _ => tooLong) + [op.payload]
            && s.st == SendState((k + 1) % SEQ_MOD, 1, CallSize(op))
  {
    var s := AfterRefused(k, tooLong);
    RefusedRun(k, tooLong);
    SenderOfSnoc(Refused(k, tooLong), op);
    SenderOfInv(Refused(k, tooLong));
    OneMoreSealed(s, op);
    NextModulo(k);
    assert [] + [CallPacket(op, (k + 1) % SEQ_MOD)] == [CallPacket(op, (k + 1) % SEQ_MOD)] && [] + [op.ct] == [op.ct];
  }

  // ---------- number zero ----------

  lemma {:induction false} SubseqCounts<T>(a: seq<T>, b: seq<T>)
    requires Subseq(a, b)
    ensures multiset(a) <= multiset(b)
    decreases |b|
  {
    if a != [] {
      assert b == b[..|b| - 1] + [b[|b| - 1]] && a == a[..|a| - 1] + [a[|a| - 1]];
      if Subseq(a, b[..|b| - 1]) {
        SubseqCounts(a, b[..|b| - 1]);
      } else {
        SubseqCounts(a[..|a| - 1], b[..|b| - 1]);
      }
    }
  }

  lemma TwiceIsNot(others: seq<seq<byte>>, payload: seq<byte>)
    requires payload !in others
    ensures !Subseq([payload, payload], others + [payload])
  {
    assert multiset(others + [payload])[payload] == 1 && multiset([payload, payload])[payload] == 2;
    if Subseq([payload, payload], others + [payload]) {
      SubseqCounts([payload, payload], others + [payload]);
    }
  }

  /**
   One input for which at-most-once fails, by payloads: after k refusals, a frame that is
   fed to the receiver twice is accepted twice if and only if k + 1 is a multiple of 2^32.
   */
  lemma AtMostOnceAfterRefusals(k: nat, tooLong: seq<byte>, op: SendOp)
    requires |tooLong| > MAX_PAYLOAD_SIZE && op.Payload? && ProperCall(op)
    ensures var n := NetRun(Attack(Refused(k, tooLong) + [op], Frame(op.ct), Frame(op.ct)));
            Subseq(Payloads(DataPackets(n.got)), n.s.given) <==> (k + 1) % SEQ_MOD != 0
  {
    var outs := Refused(k, tooLong) + [op];
    OneSealed(k, tooLong, op);
    if (k + 1) % SEQ_MOD != 0 {
      AcceptedOnce(outs, CallPacket(op, (k + 1) % SEQ_MOD), Frame(op.ct));
    } else {
      AcceptedTwice(outs, seq(k, _ => tooLong), CallPacket(op, 0), op.ct);
    }
  }

  lemma AcceptedOnce(outs: seq<SendOp>, p: Packet, frame: seq<byte>)
    requires SenderOf(outs).sent == [p] && p.seqNum > 0
    ensures var n := NetRun(Attack(outs, frame, frame)); Subseq(Payloads(DataPackets(n.got)), n.s.given)
  {
    SenderInRun(Attack(outs, frame, frame));
    AttackRun(outs, frame, frame);
    AtMostOnceInOrder(Attack(outs, frame, frame));
  }

  lemma AcceptedTwice(outs: seq<SendOp>, others: seq<seq<byte>>, p: Packet, ct: seq<byte>)
    requires SenderOf(outs).sent == [p] && SenderOf(outs).cts == [ct] && SenderOf(outs).given == others + [p.payload]
    requires p.kind == TYPE_DATA && p.seqNum == 0 && p.payload !in others
    ensures |ct| < SEQ_MOD
    ensures var n := NetRun(Attack(outs, Frame(ct), Frame(ct))); !Subseq(Payloads(DataPackets(n.got)), n.s.given)
  {
    BothAccepted(outs, 0, 0);
    var ops := Attack(outs, Frame(ct), Frame(ct));
    AttackRun(outs, Frame(ct), Frame(ct));
    SenderInRun(ops);
    NetRunInv(ops);
    TakenTwice(NetRun(ops), others, p);
  }

  lemma TakenTwice(n: Net, others: seq<seq<byte>>, p: Packet)
    requires TakenOk(n.s.sent, n.taken, n.got) && n.s.sent == [p] && n.taken == [0, 0]
    requires n.s.given == others + [p.payload] && p.payload !in others
    ensures !Subseq(Payloads(DataPackets(n.got)), n.s.given)
  {
    assert Picked([p], [0, 0]) == [p, p];
    assert Payloads([p, p]) == [p.payload, p.payload];
    TwiceIsNot(others, p.payload);
  }

  // ---------- a number that falls ----------

  /** Refusals up to the last number, a payload, one more refusal, and another payload. */
  function AcrossZero(k: nat, tooLong: seq<byte>, a: SendOp, c: SendOp): seq<SendOp> {
    Refused(k, tooLong) + [a] + [Payload(tooLong, 0, [])] + [c]
  }

  lemma TwoSealed(k: nat, tooLong: seq<byte>, a: SendOp, c: SendOp)
    requires k % SEQ_MOD == SEQ_MOD - 2 && |tooLong| > MAX_PAYLOAD_SIZE
    requires a.Payload? && c.Payload? && ProperCall(a) && ProperCall(c) && a.ct != c.ct
    ensures var s := SenderOf(AcrossZero(k, tooLong, a, c));
            s.sent == [CallPacket(a, SEQ_MOD - 1), CallPacket(c, 1)] && s.cts == [a.ct, c.ct]
  {
    OneSealed(k, tooLong, a);
    NextModulo(k);
    AcrossFrom(Refused(k, tooLong) + [a], CallPacket(a, SEQ_MOD - 1), a.ct, tooLong, c);
  }

  lemma AcrossFrom(outs: seq<SendOp>, p: Packet, ct: seq<byte>, tooLong: seq<byte>, c: SendOp)
    requires |tooLong| > MAX_PAYLOAD_SIZE && c.Payload? && ProperCall(c) && c.ct != ct
    requires var s := SenderOf(outs);
             && s.sent == [p] && s.cts == [ct]
             && s.st.sendSeq == SEQ_MOD - 1 && s.st.msgs == 1 && s.st.bytes <= MAX_ENCRYPTED
    ensures var s := SenderOf(outs + [Payload(tooLong, 0, [])] + [c]);
            s.sent == [p, CallPacket(c, 1)] && s.cts == [ct, c.ct]
  {
    SenderOfInv(outs);
    SenderOfSnoc(outs, Payload(tooLong, 0, []));
    SenderOfSnoc(outs + [Payload(tooLong, 0, [])], c);
    SealedAfterRefusal(SenderOf(outs), SenderOf(outs + [Payload(tooLong, 0, [])]), tooLong, c);
  }

  lemma SealedAfterRefusal(s: Sender, s1: Sender, tooLong: seq<byte>, op: SendOp)
    requires CoreInv(s) && s1 == SenderNext(s, Payload(tooLong, 0, [])).0 && |tooLong| > MAX_PAYLOAD_SIZE && op.Payload? && ProperCall(op) && op.ct !in s.cts
    requires s.st.msgs <= 1 && s.st.bytes <= 2 * MAX_ENCRYPTED && s.st.sendSeq == SEQ_MOD - 1
    ensures var s' := SenderNext(s1, op).0;
            s'.sent == s.sent + [CallPacket(op, 1)] && s'.cts == s.cts + [op.ct]
  {
    RefusedStep(s, tooLong);
    OneMoreSealed(s1, op);
  }

  /**
   Another input, without number zero: the numbers 2^32 - 1 and 1 are sealed in this
   order, and the two packets are accepted in the other.
   */
  lemma OrderLostAcrossZero(k: nat, tooLong: seq<byte>, a: SendOp, c: SendOp)
    requires k % SEQ_MOD == SEQ_MOD - 2 && |tooLong| > MAX_PAYLOAD_SIZE
    requires a.Payload? && c.Payload? && ProperCall(a) && ProperCall(c) && a.ct != c.ct
    ensures var outs := AcrossZero(k, tooLong, a, c);
            && (forall i :: 0 <= i < |SenderOf(outs).sent| ==> SenderOf(outs).sent[i].seqNum > 0)
            && NetRun(Attack(outs, Frame(c.ct), Frame(a.ct))).taken == [1, 0]
  {
    TwoSealed(k, tooLong, a, c);
    BothAccepted(AcrossZero(k, tooLong, a, c), 1, 0);
  }
}
