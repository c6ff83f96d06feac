/**
 The exact condition for at-most-once, in-order acceptance, for every history of a sender
 and every way its receiver may be attacked, and what keeps it.
 */
module SecureOrder {
  import opened Bytes
  import opened PacketCodec
  import opened SecureChannel
  import opened SecureRuns
  import opened SecureFifo

  /** What the sender does in a run. */
  function Outs(ops: seq<NetOp>): seq<SendOp> {
    if ops == [] then []
    else Outs(ops[..|ops| - 1]) + if ops[|ops| - 1].Out? then [ops[|ops| - 1].op] else []
  }

  lemma OutsSnoc(ops: seq<NetOp>, op: NetOp)
    ensures Outs(ops + [op]) == if op.Out? then Outs(ops) + [op.op] else Outs(ops)
  {
    assert (ops + [op])[..|ops|] == ops;
    assert Outs(ops) + [] == Outs(ops);
  }

  lemma {:induction false} SenderInRun(ops: seq<NetOp>)
    ensures NetRun(ops).s == SenderOf(Outs(ops))
  {
    if ops != [] {
      var init, op := ops[..|ops| - 1], ops[|ops| - 1];
      SenderInRun(init);
      assert init + [op] == ops;
      OutsSnoc(init, op);
      if op.Out? {
        SenderOfSnoc(Outs(init), op.op);
      }
    }
  }

  // ---------- attacks ----------

  function Frame(ct: seq<byte>): seq<byte>
    requires |ct| < SEQ_MOD
  {
    Put32(|ct|) + ct
  }

  lemma FrameInFrame(ct: seq<byte>)
    requires |ct| < SEQ_MOD
    ensures FrameIn(Frame(ct)) == ct
  {
    SplitFrame(ct, []);
    assert Frame(ct) + [] == Frame(ct);
  }

  /** Feeding the frame at place i to a receiver that has taken little so far. */
  lemma FrameArrives(n: Net, i: nat)
    requires CoreInv(n.s) && i < |n.s.sent| && n.s.sent[i].kind == TYPE_DATA && Lengths(n.s.cts)
    requires n.r.msgs < 2 && n.r.bytes <= MAX_ENCRYPTED
    ensures var n', p := NetNext(n, In(Frame(n.s.cts[i]))), n.s.sent[i];
            if Numbered(p) && p.seqNum <= n.r.lastSeq then n' == n.(r := n'.r)
            else && n'.s == n.s && n'.taken == n.taken + [i]
                 && n'.r.msgs == n.r.msgs + 1 && n'.r.bytes <= n.r.bytes + 66_605
                 && n'.r.lastSeq == if Numbered(p) then p.seqNum else n.r.lastSeq
  {
    var p, ct := n.s.sent[i], n.s.cts[i];
    assert SealedAs(n.s.log, p, ct);
    SealedLength(n.s.log, p, ct);
    RecvFrame(n.r, n.s.log, ct, []);
    assert Frame(ct) + [] == Frame(ct);
    AcceptSealed(n.r, n.s.log, p, ct);
    FrameInFrame(ct);
    PositionIs(n.s.cts, i);
  }

  function CallsOnly(outs: seq<SendOp>): seq<NetOp> {
    seq(|outs|, i requires 0 <= i < |outs| => Out(outs[i]))
  }

  lemma CallsOnlySnoc(outs: seq<SendOp>, op: SendOp)
    ensures CallsOnly(outs + [op]) == CallsOnly(outs) + [Out(op)]
  {
  }

  lemma {:induction false} CallsOnlyRun(outs: seq<SendOp>)
    ensures NetRun(CallsOnly(outs)) == Net(SenderOf(outs), QUIET, [], []) && Outs(CallsOnly(outs)) == outs
  {
    if outs == [] {
      assert CallsOnly(outs) == [];
    } else {
      var init, op := outs[..|outs| - 1], outs[|outs| - 1];
      CallsOnlyRun(init);
      assert init + [op] == outs;
      CallsOnlySnoc(init, op);
      NetRunSnoc(CallsOnly(init), Out(op));
      OutsSnoc(CallsOnly(init), Out(op));
      SenderOfSnoc(init, op);
    }
  }

  /** All calls of the sender, then two frames off the wire. */
  function Attack(outs: seq<SendOp>, a: seq<byte>, b: seq<byte>): seq<NetOp> {
    CallsOnly(outs) + [In(a)] + [In(b)]
  }

  lemma AttackRun(outs: seq<SendOp>, a: seq<byte>, b: seq<byte>)
    ensures NetRun(Attack(outs, a, b)) == NetNext(NetNext(Net(SenderOf(outs), QUIET, [], []), In(a)), In(b))
    ensures Outs(Attack(outs, a, b)) == outs
  {
    var ops := CallsOnly(outs);
    CallsOnlyRun(outs);
    NetRunSnoc(ops, In(a));
    NetRunSnoc(ops + [In(a)], In(b));
    OutsSnoc(ops, In(a));
    OutsSnoc(ops + [In(a)], In(b));
  }

  /** Two frames are both accepted, in the order they are fed, when the second number is larger or zero. */
  lemma BothAccepted(outs: seq<SendOp>, i: nat, j: nat)
    requires var sent := SenderOf(outs).sent;
             && i < |sent| && j < |sent| && sent[i].kind == TYPE_DATA && sent[j].kind == TYPE_DATA
             && (sent[j].seqNum == 0 || sent[j].seqNum > sent[i].seqNum)
    ensures |SenderOf(outs).cts| == |SenderOf(outs).sent| && Lengths(SenderOf(outs).cts)
    ensures var cts := SenderOf(outs).cts;
            NetRun(Attack(outs, Frame(cts[i]), Frame(cts[j]))).taken == [i, j]
  {
    var s := SenderOf(outs);
    SenderOfInv(outs);
    SealedLengths(s.log, s.sent, s.cts);
    AttackRun(outs, Frame(s.cts[i]), Frame(s.cts[j]));
    TwoArrive(Net(s, QUIET, [], []), i, j);
  }

  lemma TwoArrive(n: Net, i: nat, j: nat)
    requires CoreInv(n.s) && Lengths(n.s.cts) && n.r == QUIET && n.taken == []
    requires i < |n.s.sent| && j < |n.s.sent| && n.s.sent[i].kind == TYPE_DATA && n.s.sent[j].kind == TYPE_DATA
    requires n.s.sent[j].seqNum == 0 || n.s.sent[j].seqNum > n.s.sent[i].seqNum
    ensures NetNext(NetNext(n, In(Frame(n.s.cts[i]))), In(Frame(n.s.cts[j]))).taken == [i, j]
  {
    FrameArrives(n, i);
    FrameArrives(NetNext(n, In(Frame(n.s.cts[i]))), j);
  }

  /** When a number is zero or falls, some attack makes the receiver accept out of order or twice. */
  lemma BrokenByAttack(outs: seq<SendOp>) returns (ops: seq<NetOp>)
    requires !Rising(SenderOf(outs).sent)
    ensures Outs(ops) == outs && !InOrderOnce(NetRun(ops).taken)
  {
    var s := SenderOf(outs);
    SenderOfInv(outs);
    SealedLengths(s.log, s.sent, s.cts);
    var i: nat, j: nat := Culprits(s.sent);
    BothAccepted(outs, i, j);
    ops := Attack(outs, Frame(s.cts[i]), Frame(s.cts[j]));
    AttackRun(outs, Frame(s.cts[i]), Frame(s.cts[j]));
    assert NetRun(ops).taken[0] >= NetRun(ops).taken[1];
  }

  /** The frames to feed: one with number zero twice, or one with a smaller number before an earlier one. */
  lemma Culprits(sent: seq<Packet>) returns (i: nat, j: nat)
    requires !Rising(sent)
    ensures j <= i < |sent| && sent[i].kind == TYPE_DATA && sent[j].kind == TYPE_DATA
    ensures sent[j].seqNum == 0 || sent[j].seqNum > sent[i].seqNum
  {
    if k: nat :| k < |sent| && sent[k].kind == TYPE_DATA && sent[k].seqNum == 0 {
      i, j := k, k;
    } else {
      j, i :| 0 <= j < i < |sent| && sent[j].kind == TYPE_DATA && sent[i].kind == TYPE_DATA
              && sent[j].seqNum > sent[i].seqNum;
    }
  }

  /**
   The exact condition. For every history of the sender: however its turns are mixed with
   whatever bytes, the receiver accepts DATA packets in the order they were sealed and each
   at most once, if and only if no DATA packet was sealed with number zero or with a
   smaller number than one sealed before it.
   */
  lemma AtMostOnceExactly(outs: seq<SendOp>)
    ensures Rising(SenderOf(outs).sent) <==> forall ops :: Outs(ops) == outs ==> InOrderOnce(NetRun(ops).taken)
  {
    if Rising(SenderOf(outs).sent) {
      forall ops | Outs(ops) == outs ensures InOrderOnce(NetRun(ops).taken) {
        SenderInRun(ops);
        AtMostOnceInOrder(ops);
      }
    } else {
      var ops := BrokenByAttack(outs);
    }
  }

  /** The condition can be checked before every call: the number to be used is not below the last one sealed. */
  lemma RisingNext(sent: seq<Packet>, p: Packet)
    requires Rising(sent)
    ensures Rising(sent + [p]) <==>
            (p.kind == TYPE_DATA ==> p.seqNum > 0 && p.seqNum >= LastNumber(sent, |sent|))
  {
    var all := sent + [p];
    assert forall i :: 0 <= i < |sent| ==> all[i] == sent[i];
    assert all[|sent|] == p;
    LastIsTop(sent, |sent|);
  }

  lemma {:induction false} LastIsTop(sent: seq<Packet>, n: nat)
    requires n <= |sent| && Rising(sent)
    ensures forall i :: 0 <= i < n && sent[i].kind == TYPE_DATA ==> sent[i].seqNum <= LastNumber(sent, n)
    ensures LastNumber(sent, n) > 0 ==> exists i :: 0 <= i < n && Numbered(sent[i]) && sent[i].seqNum == LastNumber(sent, n)
  {
    if n > 0 {
      LastIsTop(sent, n - 1);
    }
  }

  // ---------- what keeps the numbers rising ----------

  /** How many payloads were refused because they do not fit a packet; each still takes a number. */
  function TooLong(given: seq<seq<byte>>): nat {
    if given == [] then 0
    else TooLong(given[..|given| - 1]) + if |given[|given| - 1]| > MAX_PAYLOAD_SIZE then 1 else 0
  }

  lemma TooLongSnoc(given: seq<seq<byte>>, payload: seq<byte>)
    ensures TooLong(given + [payload]) == TooLong(given) + if |payload| > MAX_PAYLOAD_SIZE then 1 else 0
  {
    assert (given + [payload])[..|given|] == given;
  }

  /** So many may be refused before a number can come round again within the message limit. */
  const REFUSALS: nat := SEQ_MOD - 1 - MSG_LIMIT

  /** Numbers grow strictly, up to the last one taken. */
  ghost predicate Ascending(sent: seq<Packet>, last: nat) {
    && (forall i :: 0 <= i < |sent| && sent[i].kind == TYPE_DATA ==> 0 < sent[i].seqNum <= last)
    && (forall i, j :: 0 <= i < j < |sent| && sent[i].kind == TYPE_DATA && sent[j].kind == TYPE_DATA ==>
          sent[i].seqNum < sent[j].seqNum)
  }

  ghost predicate NumbersOk(st: SendState, sent: seq<Packet>, refused: nat) {
    && (st.msgs <= MSG_LIMIT ==> st.sendSeq <= st.msgs + refused && Ascending(sent, st.sendSeq))
    && Ascending(sent, SEQ_MOD - 1)
  }

  /** What one call does to the numbers and to the packets sealed. */
  ghost predicate Counted(s: Sender, s': Sender, op: SendOp) {
    var next := (s.st.sendSeq + 1) % SEQ_MOD;
    if Fits(op) then
      && s.st.msgs <= s'.st.msgs && (op.Payload? ==> s'.st.msgs == s.st.msgs + 1)
      && s'.st.sendSeq == (if op.Payload? then next else s.st.sendSeq)
      && (s'.sent == s.sent
          || (s'.st.msgs <= MSG_LIMIT && |s'.sent| == |s.sent| + 1 && s'.sent[..|s.sent|] == s.sent
              && if op.Payload? then s'.sent[|s.sent|].kind == TYPE_DATA && s'.sent[|s.sent|].seqNum == next
                 else s'.sent[|s.sent|].kind != TYPE_DATA))
    else
      s'.st == s.st.(sendSeq := next) && s'.sent == s.sent
  }

  lemma CallCounts(s: Sender, op: SendOp)
    ensures Counted(s, SenderNext(s, op).0, op)
  {
    match op
    case Payload(payload, timestamp, ct) =>
      if |payload| <= MAX_PAYLOAD_SIZE {
        var p := SendCases(s.st, s.log, payload, timestamp, ct);
        SendRawCases(s.st.(sendSeq := p.seqNum), s.log, p, ct);
      }
    case Other(p, ct) =>
      if p.kind != TYPE_DATA && Valid(p) {
        SendRawCases(s.st, s.log, p, ct);
      }
  }

  lemma NumbersNext(s: Sender, s': Sender, op: SendOp, refused: nat, refused': nat)
    requires NumbersOk(s.st, s.sent, refused) && Counted(s, s', op)
    requires refused' == (if Fits(op) then refused else refused + 1) && refused' <= REFUSALS
    ensures NumbersOk(s'.st, s'.sent, refused')
  {
    if s'.sent != s.sent {
      var p := s'.sent[|s.sent|];
      assert s'.sent == s.sent + [p];
      AscendingSnoc(s.sent, s.st.sendSeq, p, s'.st.sendSeq);
    }
  }

  lemma AscendingSnoc(sent: seq<Packet>, last: nat, p: Packet, last': nat)
    requires Ascending(sent, last)
    requires if p.kind == TYPE_DATA then last < p.seqNum == last' else last' == last
    ensures Ascending(sent + [p], last')
  {
  }

  /**
   The numbers on the wire grow strictly as long as fewer than 3 * 2^30 payloads were
   refused: the limit of 2^30 messages then keeps them from coming round.
   */
  lemma {:induction false} FewRefusalsAscend(ops: seq<SendOp>)
    requires TooLong(SenderOf(ops).given) <= REFUSALS
    ensures NumbersOk(SenderOf(ops).st, SenderOf(ops).sent, TooLong(SenderOf(ops).given))
    ensures Rising(SenderOf(ops).sent) && Fresh(SenderOf(ops).sent, |SenderOf(ops).sent|)
  {
    if ops != [] {
      var s, op := SenderOf(ops[..|ops| - 1]), ops[|ops| - 1];
      RefusalsGrow(s, op);
      FewRefusalsAscend(ops[..|ops| - 1]);
      CallCounts(s, op);
      NumbersNext(s, SenderOf(ops), op, TooLong(s.given), TooLong(SenderOf(ops).given));
    }
  }

  lemma RefusalsGrow(s: Sender, op: SendOp)
    ensures TooLong(SenderNext(s, op).0.given) == TooLong(s.given) + if Fits(op) then 0 else 1
  {
    if op.Payload? {
      TooLongSnoc(s.given, op.payload);
    }
  }
}
