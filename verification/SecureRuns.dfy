/**
 Whole runs of a sealed channel in one direction: what a receiver may accept when the
 stream is in hostile hands, and what it gets when the stream is an honest FIFO.
 */
module SecureRuns {
  import opened Bytes
  import opened PacketCodec
  import opened SecureChannel

  /**
   A sender and its history: the packets that were sealed, their ciphertexts, and every
   payload ever given to Send.
   */
  datatype Sender = Sender(
    st: SendState, log: SealLog, sent: seq<Packet>, cts: seq<seq<byte>>, given: seq<seq<byte>>)

  /** SendPacket is used for padding, ping, pong and close packets, never for DATA. */
  datatype SendOp = Payload(payload: seq<byte>, timestamp: i64, ct: seq<byte>) | Other(packet: Packet, ct: seq<byte>)

  function Record(s: Sender, st: SendState, log: SealLog, result: SendResult, ct: seq<byte>): Sender {
    if result.Sent? then s.(st := st, log := log, sent := s.sent + [result.packet], cts := s.cts + [ct])
    else s.(st := st, log := log)
  }

  /** The sender after one operation, and the bytes it wrote. */
  function SenderNext(s: Sender, op: SendOp): (Sender, seq<byte>) {
    match op
    case Payload(payload, timestamp, ct) =>
      var (st, log, bytes, result) := Send(s.st, s.log, payload, timestamp, ct);
      (Record(s, st, log, result, ct).(given := s.given + [payload]), bytes)
    case Other(p, ct) =>
      if p.kind == TYPE_DATA then (s, [])
      else
        var (st, log, bytes, result) := SendRaw(s.st, s.log, p, ct);
        (Record(s, st, log, result, ct), bytes)
  }

  function NewSender(): Sender {
    Sender(SendState(0, 0, 0), map[], [], [], [])
  }

  predicate Fits(op: SendOp) {
    op.Payload? ==> |op.payload| <= MAX_PAYLOAD_SIZE
  }

  /** The sender after all of `ops`. */
  function SenderOf(ops: seq<SendOp>): Sender {
    if ops == [] then NewSender() else SenderNext(SenderOf(ops[..|ops| - 1]), ops[|ops| - 1]).0
  }

  lemma SenderOfSnoc(ops: seq<SendOp>, op: SendOp)
    ensures SenderOf(ops + [op]) == SenderNext(SenderOf(ops), op).0
  {
    assert (ops + [op])[..|ops|] == ops;
  }

  // ---------- the sender's invariant ----------

  function DataPackets(ps: seq<Packet>): seq<Packet> {
    if ps == [] then []
    else DataPackets(ps[..|ps| - 1]) + if ps[|ps| - 1].kind == TYPE_DATA then [ps[|ps| - 1]] else []
  }

  /** ct is the seal of p under its length field. */
  predicate SealedAs(log: SealLog, p: Packet, ct: seq<byte>) {
    && Valid(p)
    && |Encode(p)| <= MAX_ENCRYPTED
    && |ct| == |Encode(p)| + OVERHEAD
    && (ct, LenBuf(Encode(p))) in log
    && log[(ct, LenBuf(Encode(p)))] == Encode(p)
  }

  ghost predicate AllSealed(log: SealLog, sent: seq<Packet>, cts: seq<seq<byte>>) {
    && |cts| == |sent|
    && forall i :: 0 <= i < |sent| ==> SealedAs(log, sent[i], cts[i])
  }

  /** What was sealed as number i is found under this key. */
  ghost predicate IsKey(sent: seq<Packet>, cts: seq<seq<byte>>, i: nat, key: (seq<byte>, seq<byte>)) {
    && i < |sent| && i < |cts|
    && |Encode(sent[i])| <= MAX_ENCRYPTED && key == (cts[i], LenBuf(Encode(sent[i])))
  }

  /** Nothing but packets of this sender was ever sealed. */
  ghost predicate OnlyOurs(log: SealLog, sent: seq<Packet>, cts: seq<seq<byte>>) {
    forall key :: key in log ==> exists i: nat :: IsKey(sent, cts, i, key)
  }

  ghost predicate Distinct(cts: seq<seq<byte>>) {
    forall i, j :: 0 <= i < j < |cts| ==> cts[i] != cts[j]
  }

  ghost predicate CoreInv(s: Sender) {
    && AllSealed(s.log, s.sent, s.cts) && OnlyOurs(s.log, s.sent, s.cts) && Distinct(s.cts)
    && |s.sent| <= s.st.msgs && |s.sent| <= MSG_LIMIT
  }

  ghost predicate SenderInv(s: Sender) {
    && CoreInv(s)
    && Subseq(Payloads(DataPackets(s.sent)), s.given)
  }

  // ---------- subsequences ----------

  ghost predicate Subseq<T>(a: seq<T>, b: seq<T>) {
    || a == []
    || (b != [] && Subseq(a, b[..|b| - 1]))
    || (b != [] && a[|a| - 1] == b[|b| - 1] && Subseq(a[..|a| - 1], b[..|b| - 1]))
  }

  lemma {:induction false} SubseqTrans<T>(a: seq<T>, b: seq<T>, c: seq<T>)
    requires Subseq(a, b) && Subseq(b, c)
    ensures Subseq(a, c)
    decreases |b| + |c|
  {
    if a != [] {
      if Subseq(b, c[..|c| - 1]) {
        SubseqTrans(a, b, c[..|c| - 1]);
      } else if Subseq(a, b[..|b| - 1]) {
        SubseqTrans(a, b[..|b| - 1], c[..|c| - 1]);
      } else {
        SubseqTrans(a[..|a| - 1], b[..|b| - 1], c[..|c| - 1]);
      }
    }
  }

  lemma SubseqSnoc<T>(a: seq<T>, b: seq<T>, x: T)
    requires Subseq(a, b)
    ensures Subseq(a, b + [x]) && Subseq(a + [x], b + [x])
  {
    assert (b + [x])[..|b|] == b && (a + [x])[..|a|] == a;
  }

  function Payloads(ps: seq<Packet>): seq<seq<byte>> {
    seq(|ps|, i requires 0 <= i < |ps| => ps[i].payload)
  }

  lemma PayloadsSnoc(ps: seq<Packet>, p: Packet)
    ensures Payloads(ps + [p]) == Payloads(ps) + [p.payload]
  {
  }

  lemma {:induction false} PayloadsSubseq(a: seq<Packet>, b: seq<Packet>)
    requires Subseq(a, b)
    ensures Subseq(Payloads(a), Payloads(b))
    decreases |b|
  {
    if a != [] {
      var a', b' := a[..|a| - 1], b[..|b| - 1];
      assert Payloads(b)[..|b| - 1] == Payloads(b') && Payloads(a)[..|a| - 1] == Payloads(a');
      if Subseq(a, b') {
        PayloadsSubseq(a, b');
      } else {
        PayloadsSubseq(a', b');
      }
    }
  }

  // ---------- sending keeps the invariant ----------

  lemma DataPacketsSnoc(ps: seq<Packet>, p: Packet)
    ensures DataPackets(ps + [p]) == DataPackets(ps) + if p.kind == TYPE_DATA then [p] else []
  {
    assert (ps + [p])[..|ps|] == ps;
  }

  /** A new seal keeps the old ones, and its ciphertext is a new one. */
  lemma SealKeeps(log: SealLog, sent: seq<Packet>, cts: seq<seq<byte>>, p: Packet, ct: seq<byte>)
    requires AllSealed(log, sent, cts) && OnlyOurs(log, sent, cts) && Distinct(cts)
    requires Valid(p) && |Encode(p)| <= MAX_ENCRYPTED && CanSeal(log, Encode(p), LenBuf(Encode(p)), ct)
    ensures var log' := log[(ct, LenBuf(Encode(p))) := Encode(p)];
            AllSealed(log', sent + [p], cts + [ct]) && OnlyOurs(log', sent + [p], cts + [ct])
    ensures Distinct(cts + [ct])
  {
    NewCiphertext(log, sent, cts, p, ct);
    OneMoreKey(log, sent, cts, p, ct);
  }

  lemma OneMoreKey(log: SealLog, sent: seq<Packet>, cts: seq<seq<byte>>, p: Packet, ct: seq<byte>)
    requires OnlyOurs(log, sent, cts) && |sent| == |cts| && |Encode(p)| <= MAX_ENCRYPTED
    ensures OnlyOurs(log[(ct, LenBuf(Encode(p))) := Encode(p)], sent + [p], cts + [ct])
  {
    var log' := log[(ct, LenBuf(Encode(p))) := Encode(p)];
    forall key | key in log' ensures exists i: nat :: IsKey(sent + [p], cts + [ct], i, key) {
      if key in log {
        var i: nat :| IsKey(sent, cts, i, key);
        assert IsKey(sent + [p], cts + [ct], i, key);
      } else {
        assert IsKey(sent + [p], cts + [ct], |sent|, key);
      }
    }
  }

  lemma NewCiphertext(log: SealLog, sent: seq<Packet>, cts: seq<seq<byte>>, p: Packet, ct: seq<byte>)
    requires AllSealed(log, sent, cts)
    requires Valid(p) && |Encode(p)| <= MAX_ENCRYPTED && CanSeal(log, Encode(p), LenBuf(Encode(p)), ct)
    ensures ct !in cts
  {
    forall i | 0 <= i < |cts| ensures cts[i] != ct {
      OtherCiphertext(log, sent[i], cts[i], p, ct);
    }
  }

  /** Two seals of one length would be found under one key. */
  lemma OtherCiphertext(log: SealLog, q: Packet, other: seq<byte>, p: Packet, ct: seq<byte>)
    requires SealedAs(log, q, other)
    requires |Encode(p)| <= MAX_ENCRYPTED && CanSeal(log, Encode(p), LenBuf(Encode(p)), ct)
    ensures other != ct
  {
    assert |other| == |ct| ==> LenBuf(Encode(q)) == LenBuf(Encode(p));
  }

  /** What SendRaw does with a packet that can be marshalled. */
  lemma SendRawCases(st: SendState, log: SealLog, p: Packet, ct: seq<byte>)
    requires Valid(p)
    ensures var (st', log', bytes, result) := SendRaw(st, log, p, ct);
            && |Encode(p)| == TotalSize(p) <= 66_577
            && st' == CountSend(st, |Encode(p)|)
            && (result.Sent? <==> st'.msgs <= MSG_LIMIT && st'.bytes <= BYTE_LIMIT
                                  && CanSeal(log, Encode(p), LenBuf(Encode(p)), ct))
            && (result.Sent? ==> result.packet == p && bytes == LenBuf(Encode(p)) + ct
                                 && log' == log[(ct, LenBuf(Encode(p))) := Encode(p)])
            && (!result.Sent? ==> log' == log && bytes == [])
  {
    UnmarshalEncode(p, []);
  }

  lemma SentKeeps(s: Sender, st': SendState, p: Packet, ct: seq<byte>)
    requires CoreInv(s) && st'.msgs == s.st.msgs + 1 <= MSG_LIMIT
    requires Valid(p) && |Encode(p)| <= MAX_ENCRYPTED && CanSeal(s.log, Encode(p), LenBuf(Encode(p)), ct)
    ensures CoreInv(Record(s, st', s.log[(ct, LenBuf(Encode(p))) := Encode(p)], Sent(p), ct))
  {
    SealKeeps(s.log, s.sent, s.cts, p, ct);
  }

  /** The sender after a packet was tried. */
  lemma RawKeeps(s: Sender, st: SendState, p: Packet, ct: seq<byte>)
    requires CoreInv(s) && Valid(p) && st == s.st.(sendSeq := st.sendSeq)
    ensures var (st', log, bytes, result) := SendRaw(st, s.log, p, ct);
            CoreInv(Record(s, st', log, result, ct))
  {
    var (st', log, bytes, result) := SendRaw(st, s.log, p, ct);
    SendRawCases(st, s.log, p, ct);
    if result.Sent? {
      SentKeeps(s, st', p, ct);
    }
  }

  lemma GivenSent(sent: seq<Packet>, given: seq<seq<byte>>, p: Packet)
    requires Subseq(Payloads(DataPackets(sent)), given)
    ensures if p.kind == TYPE_DATA then Subseq(Payloads(DataPackets(sent + [p])), given + [p.payload])
            else Subseq(Payloads(DataPackets(sent + [p])), given)
  {
    var ds := DataPackets(sent);
    DataPacketsSnoc(sent, p);
    if p.kind == TYPE_DATA {
      PayloadsSnoc(ds, p);
      SubseqSnoc(Payloads(ds), given, p.payload);
    } else {
      assert ds + [] == ds;
    }
  }

  lemma RecordSent(s: Sender, st: SendState, log: SealLog, result: SendResult, ct: seq<byte>)
    ensures Record(s, st, log, result, ct).sent == if result.Sent? then s.sent + [result.packet] else s.sent
    ensures Record(s, st, log, result, ct).given == s.given
  {
  }

  /** Send is SendRaw of the next DATA packet when the payload fits. */
  lemma SendCases(st: SendState, log: SealLog, payload: seq<byte>, timestamp: i64, ct: seq<byte>) returns (p: Packet)
    requires |payload| <= MAX_PAYLOAD_SIZE
    ensures Valid(p) && p.kind == TYPE_DATA && p.payload == payload && p.timestamp == timestamp
    ensures p.seqNum == (st.sendSeq + 1) % SEQ_MOD
    ensures Send(st, log, payload, timestamp, ct) == SendRaw(st.(sendSeq := p.seqNum), log, p, ct)
  {
    p := NewDataPacket(payload, (st.sendSeq + 1) % SEQ_MOD, timestamp).value;
  }

  lemma PayloadKeeps(s: Sender, payload: seq<byte>, timestamp: i64, ct: seq<byte>)
    requires SenderInv(s)
    ensures SenderInv(SenderNext(s, Payload(payload, timestamp, ct)).0)
  {
    SubseqSnoc(Payloads(DataPackets(s.sent)), s.given, payload);
    if |payload| <= MAX_PAYLOAD_SIZE {
      var p := SendCases(s.st, s.log, payload, timestamp, ct);
      var st := s.st.(sendSeq := p.seqNum);
      var (st', log, bytes, result) := SendRaw(st, s.log, p, ct);
      RawKeeps(s, st, p, ct);
      SendRawCases(st, s.log, p, ct);
      GivenSent(s.sent, s.given, p);
      RecordSent(s, st', log, result, ct);
    }
  }

  lemma OtherKeeps(s: Sender, p: Packet, ct: seq<byte>)
    requires SenderInv(s) && p.kind != TYPE_DATA
    ensures SenderInv(SenderNext(s, Other(p, ct)).0)
  {
    if Valid(p) {
      RawKeeps(s, s.st, p, ct);
      SendRawCases(s.st, s.log, p, ct);
      GivenSent(s.sent, s.given, p);
    }
  }

  lemma SenderKeeps(s: Sender, op: SendOp)
    requires SenderInv(s)
    ensures SenderInv(SenderNext(s, op).0)
  {
    match op
    case Payload(payload, timestamp, ct) => PayloadKeeps(s, payload, timestamp, ct);
    case Other(p, ct) =>
      if p.kind != TYPE_DATA {
        OtherKeeps(s, p, ct);
      }
  }

  lemma {:induction false} SenderOfInv(ops: seq<SendOp>)
    ensures SenderInv(SenderOf(ops))
  {
    if ops != [] {
      SenderOfInv(ops[..|ops| - 1]);
      SenderKeeps(SenderOf(ops[..|ops| - 1]), ops[|ops| - 1]);
    }
  }

  // ---------- hostile streams ----------

  /**
   A sender, a receiver, and what the receiver has accepted; any bytes may arrive. `taken`
   has, for every DATA packet accepted, its place in the order in which packets were sealed.
   */
  datatype Net = Net(s: Sender, r: RecvState, got: seq<Packet>, taken: seq<nat>)

  datatype NetOp = Out(op: SendOp) | In(input: seq<byte>)

  /** The ciphertext in the frame at the front of the input. */
  function FrameIn(input: seq<byte>): seq<byte> {
    if |input| < 4 || |input| < 4 + Get32(input[..4]) then [] else input[4..4 + Get32(input[..4])]
  }

  /** The place of a ciphertext: its first one, behind the last when there is none. */
  function Position(cts: seq<seq<byte>>, ct: seq<byte>): nat {
    if cts == [] || cts[0] == ct then 0 else 1 + Position(cts[1..], ct)
  }

  function NetNext(n: Net, op: NetOp): Net {
    match op
    case Out(o) => n.(s := SenderNext(n.s, o).0)
    case In(input) =>
      var (r, result, rest) := RecvPacket(n.r, n.s.log, input);
      if result.Received? then
        n.(r := r, got := n.got + [result.packet],
           taken := if result.packet.kind == TYPE_DATA then n.taken + [Position(n.s.cts, FrameIn(input))] else n.taken)
      else n.(r := r)
  }

  const QUIET: RecvState := RecvState(0, 0, 0)

  function NetRun(ops: seq<NetOp>): Net {
    if ops == [] then Net(NewSender(), QUIET, [], [])
    else NetNext(NetRun(ops[..|ops| - 1]), ops[|ops| - 1])
  }

  lemma NetRunSnoc(ops: seq<NetOp>, op: NetOp)
    ensures NetRun(ops + [op]) == NetNext(NetRun(ops), op)
  {
    assert (ops + [op])[..|ops|] == ops;
  }

  /** The packets at the given places. */
  function Picked(sent: seq<Packet>, places: seq<nat>): seq<Packet>
    requires forall i :: 0 <= i < |places| ==> places[i] < |sent|
  {
    seq(|places|, i requires 0 <= i < |places| => sent[places[i]])
  }

  /** The places of the DATA packets among `got`. */
  ghost predicate TakenOk(sent: seq<Packet>, taken: seq<nat>, got: seq<Packet>) {
    && (forall i :: 0 <= i < |taken| ==> taken[i] < |sent| && sent[taken[i]].kind == TYPE_DATA)
    && DataPackets(got) == Picked(sent, taken)
  }

  /** No number is above the last one; those that are not zero grow. */
  ghost predicate Growing(ds: seq<Packet>, last: nat) {
    && (forall i :: 0 <= i < |ds| ==> ds[i].seqNum <= last)
    && (forall i, j :: 0 <= i < j < |ds| && ds[i].seqNum > 0 && ds[j].seqNum > 0 ==> ds[i].seqNum < ds[j].seqNum)
  }

  ghost predicate NetInv(n: Net) {
    && SenderInv(n.s)
    && TakenOk(n.s.sent, n.taken, n.got)
    && Growing(DataPackets(n.got), n.r.lastSeq)
  }

  lemma {:induction false} PositionIs(cts: seq<seq<byte>>, i: nat)
    requires Distinct(cts) && i < |cts|
    ensures Position(cts, cts[i]) == i
  {
    if i > 0 {
      assert cts[0] != cts[i];
      PositionIs(cts[1..], i - 1);
    }
  }

  /** What opens is a packet that was sealed, at the place of its ciphertext. */
  lemma OpenedWasSent(s: Sender, ct: seq<byte>, lenBuf: seq<byte>)
    requires CoreInv(s) && (ct, lenBuf) in s.log
    ensures var i := Position(s.cts, ct);
            i < |s.sent| == |s.cts| && s.cts[i] == ct && Unmarshal(s.log[(ct, lenBuf)]) == Ok(s.sent[i])
  {
    var i: nat :| IsKey(s.sent, s.cts, i, (ct, lenBuf));
    PositionIs(s.cts, i);
    assert SealedAs(s.log, s.sent[i], s.cts[i]);
    UnmarshalEncode(s.sent[i], []);
    assert Encode(s.sent[i]) + [] == Encode(s.sent[i]);
  }

  lemma AcceptCases(st: RecvState, log: SealLog, lenBuf: seq<byte>, ct: seq<byte>)
    ensures var (st', result) := Accept(st, log, lenBuf, ct);
            && (result.Received? ==> (ct, lenBuf) in log && Unmarshal(log[(ct, lenBuf)]) == Ok(result.packet))
            && (if result.Received? && result.packet.kind == TYPE_DATA && result.packet.seqNum > 0
                then result.packet.seqNum > st.lastSeq && st'.lastSeq == result.packet.seqNum
                else st'.lastSeq == st.lastSeq)
  {
  }

  /**
   Whatever the bytes, an accepted packet is the one that was sealed at the place of its
   ciphertext, and its number is new unless it is zero.
   */
  lemma AcceptedWasSent(n: Net, input: seq<byte>)
    requires CoreInv(n.s)
    ensures var (r, result, rest) := RecvPacket(n.r, n.s.log, input);
            var i := Position(n.s.cts, FrameIn(input));
            && (result.Received? ==> i < |n.s.sent| && result.packet == n.s.sent[i])
            && (if result.Received? && result.packet.kind == TYPE_DATA && result.packet.seqNum > 0
                then result.packet.seqNum > n.r.lastSeq && r.lastSeq == result.packet.seqNum
                else r.lastSeq == n.r.lastSeq)
  {
    var (r, result, rest) := RecvPacket(n.r, n.s.log, input);
    if |input| >= 4 && Get32(input[..4]) <= MAX_ENCRYPTED && |input| >= 4 + Get32(input[..4]) {
      AcceptCases(n.r, n.s.log, input[..4], FrameIn(input));
      if result.Received? {
        OpenedWasSent(n.s, FrameIn(input), input[..4]);
      }
    }
  }

  lemma TakenData(sent: seq<Packet>, taken: seq<nat>, got: seq<Packet>, p: Packet, i: nat)
    requires TakenOk(sent, taken, got) && i < |sent| && sent[i] == p && p.kind == TYPE_DATA
    ensures TakenOk(sent, taken + [i], got + [p])
  {
    DataPacketsSnoc(got, p);
    assert Picked(sent, taken + [i]) == Picked(sent, taken) + [p];
  }

  lemma OtherData(got: seq<Packet>, p: Packet)
    requires p.kind != TYPE_DATA
    ensures DataPackets(got + [p]) == DataPackets(got)
  {
    DataPacketsSnoc(got, p);
    assert DataPackets(got) + [] == DataPackets(got);
  }

  lemma GrowingSnoc(ds: seq<Packet>, last: nat, p: Packet, last': nat)
    requires Growing(ds, last)
    requires if p.seqNum > 0 then p.seqNum > last && last' == p.seqNum else last' == last
    ensures Growing(ds + [p], last')
  {
  }

  lemma InKeeps(n: Net, input: seq<byte>)
    requires NetInv(n)
    ensures NetInv(NetNext(n, In(input)))
  {
    var (r, result, rest) := RecvPacket(n.r, n.s.log, input);
    AcceptedWasSent(n, input);
    if result.Received? {
      var p := result.packet;
      if p.kind == TYPE_DATA {
        TakenData(n.s.sent, n.taken, n.got, p, Position(n.s.cts, FrameIn(input)));
        DataPacketsSnoc(n.got, p);
        GrowingSnoc(DataPackets(n.got), n.r.lastSeq, p, r.lastSeq);
      } else {
        OtherData(n.got, p);
      }
    }
  }

  lemma SentGrows(s: Sender, op: SendOp)
    ensures s.sent <= SenderNext(s, op).0.sent
  {
  }

  lemma TakenGrows(sent: seq<Packet>, sent': seq<Packet>, taken: seq<nat>, got: seq<Packet>)
    requires TakenOk(sent, taken, got) && sent <= sent'
    ensures TakenOk(sent', taken, got)
  {
    assert Picked(sent', taken) == Picked(sent, taken);
  }

  lemma OutKeeps(n: Net, o: SendOp)
    requires NetInv(n)
    ensures NetInv(NetNext(n, Out(o)))
  {
    SenderKeeps(n.s, o);
    SentGrows(n.s, o);
    TakenGrows(n.s.sent, SenderNext(n.s, o).0.sent, n.taken, n.got);
  }

  lemma {:induction false} NetRunInv(ops: seq<NetOp>)
    ensures NetInv(NetRun(ops))
  {
    if ops != [] {
      var n, op := NetRun(ops[..|ops| - 1]), ops[|ops| - 1];
      NetRunInv(ops[..|ops| - 1]);
      match op
      case Out(o) => OutKeeps(n, o);
      case In(input) => InKeeps(n, input);
    }
  }

  // ---------- at most once, in order ----------

  /** No DATA packet was sealed with number zero, or with a smaller number than one before it. */
  predicate Rising(sent: seq<Packet>) {
    && (forall i :: 0 <= i < |sent| && sent[i].kind == TYPE_DATA ==> sent[i].seqNum > 0)
    && (forall i, j :: 0 <= i < j < |sent| && sent[i].kind == TYPE_DATA && sent[j].kind == TYPE_DATA ==>
          sent[i].seqNum <= sent[j].seqNum)
  }

  /** DATA packets were accepted in the order they were sealed, each at most once. */
  ghost predicate InOrderOnce(taken: seq<nat>) {
    forall i, j :: 0 <= i < j < |taken| ==> taken[i] < taken[j]
  }

  lemma PicksRise(sent: seq<Packet>, taken: seq<nat>, last: nat)
    requires Rising(sent)
    requires forall i :: 0 <= i < |taken| ==> taken[i] < |sent| && sent[taken[i]].kind == TYPE_DATA
    requires Growing(Picked(sent, taken), last)
    ensures InOrderOnce(taken)
  {
    var ds := Picked(sent, taken);
    forall i, j | 0 <= i < j < |taken| ensures taken[i] < taken[j] {
      assert ds[i] == sent[taken[i]] && ds[j] == sent[taken[j]];
      assert ds[i].seqNum < ds[j].seqNum;
    }
  }

  /** DATA packets picked in order are a subsequence of all of them. */
  lemma {:induction false} PickedSubseq(sent: seq<Packet>, taken: seq<nat>)
    requires InOrderOnce(taken)
    requires forall i :: 0 <= i < |taken| ==> taken[i] < |sent| && sent[taken[i]].kind == TYPE_DATA
    ensures Subseq(Picked(sent, taken), DataPackets(sent))
    decreases |sent|
  {
    if taken != [] {
      assert taken[0] < |sent|;
      var init, k := sent[..|sent| - 1], |taken| - 1;
      if taken[k] == |sent| - 1 {
        PickedLast(sent, taken);
        PickedSubseq(init, taken[..k]);
        SubseqSnoc(Picked(init, taken[..k]), DataPackets(init), sent[|sent| - 1]);
      } else {
        PickedSubseq(init, taken);
        assert Picked(sent, taken) == Picked(init, taken);
        SubseqLonger(Picked(init, taken), DataPackets(init), sent[|sent| - 1]);
      }
    }
  }

  lemma PickedLast(sent: seq<Packet>, taken: seq<nat>)
    requires InOrderOnce(taken) && taken != [] && sent != [] && taken[|taken| - 1] == |sent| - 1
    ensures forall i :: 0 <= i < |taken| - 1 ==> taken[i] < |sent| - 1
    ensures Picked(sent, taken) == Picked(sent[..|sent| - 1], taken[..|taken| - 1]) + [sent[|sent| - 1]]
  {
  }

  lemma SubseqLonger(a: seq<Packet>, b: seq<Packet>, p: Packet)
    requires Subseq(a, b)
    ensures Subseq(a, b + if p.kind == TYPE_DATA then [p] else [])
  {
    SubseqSnoc(a, b, p);
    assert b + [] == b;
  }

  /**
   At most once and in order: whatever bytes the receiver is fed, and however its turns
   and the sender's are mixed, the DATA packets it accepts are some of those sealed, in
   their order and each at most once, and their payloads a subsequence of those given to
   Send, provided that no number on the wire was zero or fell.
   */
  lemma AtMostOnceInOrder(ops: seq<NetOp>)
    requires Rising(NetRun(ops).s.sent)
    ensures var n := NetRun(ops);
            && InOrderOnce(n.taken)
            && Subseq(DataPackets(n.got), DataPackets(n.s.sent))
            && Subseq(Payloads(DataPackets(n.got)), n.s.given)
  {
    NetRunInv(ops);
    AcceptedInOrder(NetRun(ops));
  }

  lemma AcceptedInOrder(n: Net)
    requires NetInv(n) && Rising(n.s.sent)
    ensures InOrderOnce(n.taken)
    ensures Subseq(DataPackets(n.got), DataPackets(n.s.sent))
    ensures Subseq(Payloads(DataPackets(n.got)), n.s.given)
  {
    var a, b := DataPackets(n.got), DataPackets(n.s.sent);
    PicksRise(n.s.sent, n.taken, n.r.lastSeq);
    PickedSubseq(n.s.sent, n.taken);
    PayloadsSubseq(a, b);
    SubseqTrans(Payloads(a), Payloads(b), n.s.given);
  }
}
