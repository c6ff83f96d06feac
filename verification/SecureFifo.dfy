/**
 The sealed channel over an honest byte stream: exactly when nothing is lost, for every
 history of a sender, and for the calls of a sender that stays within its limits.
 */
module SecureFifo {
  import opened Bytes
  import opened PacketCodec
  import opened SecureChannel
  import opened SecureRuns

  /** Every ciphertext has a length that the four-byte field can hold. */
  predicate Lengths(cts: seq<seq<byte>>) {
    forall i :: 0 <= i < |cts| ==> |cts[i]| < SEQ_MOD
  }

  /** The frames from number k on, as they lie on the stream. */
  function Wire(cts: seq<seq<byte>>, k: nat): seq<byte>
    requires k <= |cts|
    requires Lengths(cts)
    decreases |cts| - k
  {
    if k == |cts| then [] else Put32(|cts[k]|) + cts[k] + Wire(cts, k + 1)
  }

  /** The bytes the receiver counts for the first k packets: 28 more each than the sender. */
  function Total(cts: seq<seq<byte>>, k: nat): nat
    requires k <= |cts|
  {
    if k == 0 then 0 else Total(cts, k - 1) + |cts[k - 1]|
  }

  lemma {:induction false} TotalSnoc(cts: seq<seq<byte>>, ct: seq<byte>, k: nat)
    requires k <= |cts|
    ensures Total(cts + [ct], k) == Total(cts, k)
  {
    if k > 0 {
      TotalSnoc(cts, ct, k - 1);
    }
  }

  lemma {:induction false} TotalGrows(cts: seq<seq<byte>>, k: nat, m: nat)
    requires k <= m <= |cts|
    ensures Total(cts, k) <= Total(cts, m)
  {
    if k < m {
      TotalGrows(cts, k, m - 1);
    }
  }

  lemma {:induction false} WireSnoc(cts: seq<seq<byte>>, ct: seq<byte>, k: nat)
    requires k <= |cts| && |ct| < SEQ_MOD
    requires Lengths(cts)
    ensures Wire(cts + [ct], k) == Wire(cts, k) + (Put32(|ct|) + ct)
    decreases |cts| - k
  {
    if k == |cts| {
      assert Wire(cts + [ct], k + 1) == [];
      assert Put32(|ct|) + ct + [] == [] + (Put32(|ct|) + ct);
    } else {
      WireSnoc(cts, ct, k + 1);
      assert (cts + [ct])[k] == cts[k];
    }
  }

  lemma SealedLength(log: SealLog, p: Packet, ct: seq<byte>)
    requires SealedAs(log, p, ct)
    ensures OVERHEAD <= |ct| <= 66_605 && LenBuf(Encode(p)) == Put32(|ct|)
  {
    UnmarshalEncode(p, []);
  }

  lemma SealedLengths(log: SealLog, sent: seq<Packet>, cts: seq<seq<byte>>)
    requires AllSealed(log, sent, cts)
    ensures Lengths(cts)
  {
    forall i | 0 <= i < |cts| ensures |cts[i]| < SEQ_MOD {
      SealedLength(log, sent[i], cts[i]);
    }
  }

  // ---------- numbers by position ----------

  predicate Numbered(p: Packet) {
    p.kind == TYPE_DATA && p.seqNum > 0
  }

  /** The number of the last numbered packet among the first k. */
  function LastNumber(sent: seq<Packet>, k: nat): nat
    requires k <= |sent|
  {
    if k == 0 then 0
    else if Numbered(sent[k - 1]) then sent[k - 1].seqNum
    else LastNumber(sent, k - 1)
  }

  /** Among the first n packets, numbers that are not zero grow. */
  ghost predicate Fresh(sent: seq<Packet>, n: nat)
    requires n <= |sent|
  {
    forall i, j :: 0 <= i < j < n && Numbered(sent[i]) && Numbered(sent[j]) ==> sent[i].seqNum < sent[j].seqNum
  }

  /** When the numbers grow, the last one is the largest, and it is the number of some packet. */
  lemma {:induction false} LastIsLargest(sent: seq<Packet>, n: nat)
    requires n <= |sent| && Fresh(sent, n)
    ensures forall i :: 0 <= i < n && Numbered(sent[i]) ==> sent[i].seqNum <= LastNumber(sent, n)
    ensures LastNumber(sent, n) > 0 ==> exists i :: 0 <= i < n && Numbered(sent[i]) && sent[i].seqNum == LastNumber(sent, n)
  {
    if n > 0 {
      LastIsLargest(sent, n - 1);
    }
  }

  /** One more packet keeps the numbers growing exactly when it passes the replay check. */
  lemma FreshNext(sent: seq<Packet>, n: nat)
    requires n < |sent|
    ensures Fresh(sent, n + 1) <==>
            Fresh(sent, n) && (Numbered(sent[n]) ==> sent[n].seqNum > LastNumber(sent, n))
  {
    if Fresh(sent, n) {
      LastIsLargest(sent, n);
    }
  }

  lemma {:induction false} LastNumberSnoc(sent: seq<Packet>, p: Packet, k: nat)
    requires k <= |sent|
    ensures LastNumber(sent + [p], k) == LastNumber(sent, k)
  {
    if k > 0 {
      LastNumberSnoc(sent, p, k - 1);
    }
  }

  // ---------- receiving the next packet ----------

  /** The receiver has taken exactly the first k packets. */
  ghost predicate At(s: Sender, r: RecvState, k: nat, input: seq<byte>) {
    && AllSealed(s.log, s.sent, s.cts) && k <= |s.sent|
    && Lengths(s.cts)
    && r == RecvState(LastNumber(s.sent, k), k, Total(s.cts, k))
    && input == Wire(s.cts, k)
  }

  lemma SplitFrame(ct: seq<byte>, rest: seq<byte>)
    requires |ct| < SEQ_MOD
    ensures var input := Put32(|ct|) + ct + rest;
            && input[..4] == Put32(|ct|) && Get32(input[..4]) == |ct|
            && input[4..4 + |ct|] == ct && input[4 + |ct|..] == rest
  {
    var input := Put32(|ct|) + ct + rest;
    assert input[..4] == Put32(|ct|);
    Get32Put32(|ct|);
  }

  /** What Accept makes of a frame that holds the seal of p. */
  lemma AcceptSealed(r: RecvState, log: SealLog, p: Packet, ct: seq<byte>)
    requires SealedAs(log, p, ct)
    ensures |ct| < SEQ_MOD
    ensures var (r', result) := Accept(r, log, Put32(|ct|), ct);
            if r.msgs + 1 > MSG_LIMIT || r.bytes + |ct| > BYTE_LIMIT then result == NotReceived(KeyExhausted)
            else if Numbered(p) && p.seqNum <= r.lastSeq then result == NotReceived(Replay)
            else result == Received(p)
                 && r' == RecvState(if Numbered(p) then p.seqNum else r.lastSeq, r.msgs + 1, r.bytes + |ct|)
  {
    SealedLength(log, p, ct);
    UnmarshalEncode(p, []);
    assert Encode(p) + [] == Encode(p);
  }

  /** RecvPacket on a stream that begins with a frame. */
  lemma RecvFrame(r: RecvState, log: SealLog, ct: seq<byte>, rest: seq<byte>)
    requires |ct| <= MAX_ENCRYPTED
    ensures var (r', result) := Accept(r, log, Put32(|ct|), ct);
            RecvPacket(r, log, Put32(|ct|) + ct + rest) == (r', result, rest)
  {
    SplitFrame(ct, rest);
  }

  /** The next packet comes out as it went in, unless the byte limit is passed or its number is not a new one. */
  lemma PullOne(s: Sender, r: RecvState, k: nat, input: seq<byte>)
    requires At(s, r, k, input) && k < |s.sent| <= MSG_LIMIT
    ensures var (r', result, rest) := RecvPacket(r, s.log, input);
            if Total(s.cts, k + 1) > BYTE_LIMIT then result == NotReceived(KeyExhausted)
            else if Numbered(s.sent[k]) && s.sent[k].seqNum <= LastNumber(s.sent, k) then result == NotReceived(Replay)
            else result == Received(s.sent[k]) && At(s, r', k + 1, rest)
  {
    var p, ct := s.sent[k], s.cts[k];
    assert SealedAs(s.log, p, ct);
    SealedLength(s.log, p, ct);
    RecvFrame(r, s.log, ct, Wire(s.cts, k + 1));
    AcceptSealed(r, s.log, p, ct);
    AtNext(s, r, k, input);
  }

  lemma AtNext(s: Sender, r: RecvState, k: nat, input: seq<byte>)
    requires At(s, r, k, input) && k < |s.sent|
    ensures var p, ct := s.sent[k], s.cts[k];
            && input == Put32(|ct|) + ct + Wire(s.cts, k + 1)
            && Total(s.cts, k + 1) == r.bytes + |ct|
            && At(s, RecvState(if Numbered(p) then p.seqNum else r.lastSeq, r.msgs + 1, r.bytes + |ct|),
                  k + 1, Wire(s.cts, k + 1))
  {
  }

  // ---------- a whole run ----------

  /** Everything a sender wrote while it made all of `ops`. */
  function Written(ops: seq<SendOp>): seq<byte> {
    if ops == [] then []
    else Written(ops[..|ops| - 1]) + SenderNext(SenderOf(ops[..|ops| - 1]), ops[|ops| - 1]).1
  }

  /** One operation appends at most one packet, its ciphertext and its frame. */
  ghost predicate Appends(s: Sender, s': Sender, bytes: seq<byte>) {
    || (s'.sent == s.sent && s'.cts == s.cts && bytes == [])
    || (|s'.cts| == |s.cts| + 1 && |s'.sent| == |s.sent| + 1
        && s'.cts[..|s.cts|] == s.cts && s'.sent[..|s.sent|] == s.sent
        && |s'.cts[|s.cts|]| < SEQ_MOD && bytes == Put32(|s'.cts[|s.cts|]|) + s'.cts[|s.cts|])
  }

  lemma RawAppends(s: Sender, st: SendState, p: Packet, ct: seq<byte>)
    requires Valid(p)
    ensures var (st', log, bytes, result) := SendRaw(st, s.log, p, ct);
            Appends(s, Record(s, st', log, result, ct), bytes)
  {
    SendRawCases(st, s.log, p, ct);
  }

  lemma SenderStep(s: Sender, op: SendOp)
    ensures var (s', bytes) := SenderNext(s, op); Appends(s, s', bytes)
  {
    match op
    case Payload(payload, timestamp, ct) =>
      if Fits(op) {
        var p := SendCases(s.st, s.log, payload, timestamp, ct);
        RawAppends(s, s.st.(sendSeq := p.seqNum), p, ct);
      }
    case Other(p, ct) =>
      if Valid(p) && p.kind != TYPE_DATA {
        RawAppends(s, s.st, p, ct);
      }
  }

  /** What was written and not yet read stays the frames from number k on. */
  lemma WriteOne(s: Sender, op: SendOp, k: nat, input: seq<byte>)
    requires SenderInv(s) && k <= |s.cts|
    requires Lengths(s.cts) && input == Wire(s.cts, k)
    ensures var (s', bytes) := SenderNext(s, op);
            && SenderInv(s') && |s.cts| <= |s'.cts|
            && Lengths(s'.cts)
            && input + bytes == Wire(s'.cts, k)
  {
    var (s', bytes) := SenderNext(s, op);
    SenderKeeps(s, op);
    SealedLengths(s'.log, s'.sent, s'.cts);
    SenderStep(s, op);
    AppendsWire(s, s', bytes, k);
  }

  lemma AppendsWire(s: Sender, s': Sender, bytes: seq<byte>, k: nat)
    requires Appends(s, s', bytes) && k <= |s.cts|
    requires Lengths(s.cts)
    requires Lengths(s'.cts)
    ensures Wire(s.cts, k) + bytes == Wire(s'.cts, k)
  {
    if |s'.cts| > |s.cts| {
      var ct := s'.cts[|s.cts|];
      assert s'.cts == s.cts + [ct];
      WireSnoc(s.cts, ct, k);
    } else {
      assert Wire(s.cts, k) + [] == Wire(s.cts, k);
    }
  }

  lemma {:induction false} WrittenIs(ops: seq<SendOp>)
    ensures var s := SenderOf(ops);
            && SenderInv(s) && Lengths(s.cts)
            && Written(ops) == Wire(s.cts, 0)
  {
    if ops != [] {
      var init := ops[..|ops| - 1];
      WrittenIs(init);
      WriteOne(SenderOf(init), ops[|ops| - 1], 0, Written(init));
    }
  }

  /** n calls of RecvPacket: the results, the state, and what is left to read. */
  function RecvMany(log: SealLog, input: seq<byte>, n: nat): (seq<RecvResult>, RecvState, seq<byte>) {
    if n == 0 then ([], RecvState(0, 0, 0), input)
    else
      var (results, r, rest) := RecvMany(log, input, n - 1);
      var (r', result, rest') := RecvPacket(r, log, rest);
      (results + [result], r', rest')
  }

  function AllReceived(ps: seq<Packet>): seq<RecvResult> {
    seq(|ps|, i requires 0 <= i < |ps| => Received(ps[i]))
  }

  lemma AllReceivedSnoc(sent: seq<Packet>, n: nat, results: seq<RecvResult>, last: RecvResult)
    requires 0 < n <= |sent| && |results| == n - 1
    ensures results + [last] == AllReceived(sent[..n]) <==>
            results == AllReceived(sent[..n - 1]) && last == Received(sent[n - 1])
  {
    var all := AllReceived(sent[..n]);
    assert all == AllReceived(sent[..n - 1]) + [Received(sent[n - 1])];
    assert (results + [last])[..n - 1] == results && (results + [last])[n - 1] == last;
    assert all[..n - 1] == AllReceived(sent[..n - 1]);
  }

  /** The receiver has not passed its byte limit, and every number was a new one. */
  ghost predicate Passes(s: Sender, n: nat)
    requires n <= |s.sent| == |s.cts|
  {
    Total(s.cts, n) <= BYTE_LIMIT && Fresh(s.sent, n)
  }

  lemma PassesNext(s: Sender, n: nat)
    requires n < |s.sent| == |s.cts|
    ensures Passes(s, n + 1) <==>
            && Passes(s, n) && Total(s.cts, n + 1) <= BYTE_LIMIT
            && (Numbered(s.sent[n]) ==> s.sent[n].seqNum > LastNumber(s.sent, n))
  {
    FreshNext(s.sent, n);
    TotalGrows(s.cts, n, n + 1);
  }

  /** The first n results are the packets sent, exactly when all of them pass; then the receiver is in step. */
  ghost predicate InStep(s: Sender, n: nat, results: seq<RecvResult>, r: RecvState, rest: seq<byte>)
    requires n <= |s.sent| == |s.cts|
  {
    && |results| == n
    && (results == AllReceived(s.sent[..n]) <==> Passes(s, n))
    && (Passes(s, n) ==> At(s, r, n, rest))
  }

  lemma RecvOneMore(s: Sender, n: nat, results: seq<RecvResult>, r: RecvState, rest: seq<byte>)
    requires n < |s.sent| == |s.cts| && |s.sent| <= MSG_LIMIT && InStep(s, n, results, r, rest)
    ensures var (r', result, rest') := RecvPacket(r, s.log, rest); InStep(s, n + 1, results + [result], r', rest')
  {
    var (r', result, rest') := RecvPacket(r, s.log, rest);
    AllReceivedSnoc(s.sent, n + 1, results, result);
    PassesNext(s, n);
    if Passes(s, n) {
      PullOne(s, r, n, rest);
    }
  }

  lemma {:induction false} RecvManyIs(s: Sender, written: seq<byte>, n: nat)
    requires At(s, QUIET, 0, written) && n <= |s.sent| == |s.cts| && |s.sent| <= MSG_LIMIT
    ensures var (results, r, rest) := RecvMany(s.log, written, n); InStep(s, n, results, r, rest)
  {
    if n > 0 {
      var (results, r, rest) := RecvMany(s.log, written, n - 1);
      RecvManyIs(s, written, n - 1);
      RecvOneMore(s, n - 1, results, r, rest);
    } else {
      NothingReceived(s, written);
    }
  }

  lemma NothingReceived(s: Sender, written: seq<byte>)
    requires At(s, QUIET, 0, written) && |s.sent| == |s.cts|
    ensures InStep(s, 0, [], QUIET, written)
  {
    assert s.sent[..0] == [];
  }

  /**
   Lossless, for every history of the sender: over an honest byte stream the first n
   packets come out as they were sealed, and the stream is taken up to the end of the n-th
   frame, exactly when the receiver's own count, 28 bytes more per packet than the
   sender's, is within the limit and the numbers on the wire that are not zero grow.
   */
  lemma Lossless(ops: seq<SendOp>, n: nat)
    requires n <= |SenderOf(ops).sent|
    ensures var s := SenderOf(ops);
            var (results, r, rest) := RecvMany(s.log, Written(ops), n);
            && |s.sent| == |s.cts|
            && (results == AllReceived(s.sent[..n]) <==> Total(s.cts, n) <= BYTE_LIMIT && Fresh(s.sent, n))
            && (n == |s.sent| && results == AllReceived(s.sent[..n]) ==> rest == [])
  {
    WrittenIs(ops);
    RecvManyIs(SenderOf(ops), Written(ops), n);
  }

  /** The receiver's count of a packet is the sender's count and 28. */
  lemma CountsDiffer(log: SealLog, p: Packet, ct: seq<byte>)
    requires SealedAs(log, p, ct)
    ensures |ct| == TotalSize(p) + 28
  {
    UnmarshalEncode(p, []);
  }

  // ---------- the calls of a sender within its limits ----------

  /** How many of the calls are calls of Send. */
  function Sends(ops: seq<SendOp>): nat {
    if ops == [] then 0 else Sends(ops[..|ops| - 1]) + if ops[|ops| - 1].Payload? then 1 else 0
  }

  /** The packet of a call, a payload going under the given number. */
  function CallPacket(op: SendOp, number: u32): Packet {
    match op
    case Payload(payload, timestamp, ct) =>
      Packet(PROTOCOL_VERSION, TYPE_DATA, number, timestamp, |payload| % 0x1_0000, 0, payload, [])
    case Other(p, ct) => p
  }

  /** The packets of the calls, in order; the k-th call of Send goes under number k. */
  function Made(ops: seq<SendOp>): seq<Packet> {
    if ops == [] then [] else Made(ops[..|ops| - 1]) + [CallPacket(ops[|ops| - 1], Sends(ops) % SEQ_MOD)]
  }

  function Ciphertexts(ops: seq<SendOp>): seq<seq<byte>> {
    seq(|ops|, i requires 0 <= i < |ops| => ops[i].ct)
  }

  function CallSize(op: SendOp): nat {
    TotalSize(CallPacket(op, 0))
  }

  /** The bytes the sender counts for the calls. */
  function Sizes(ops: seq<SendOp>): nat {
    if ops == [] then 0 else Sizes(ops[..|ops| - 1]) + CallSize(ops[|ops| - 1])
  }

  /** The payload fits, any other packet is valid, and the ciphertext has the right length. */
  predicate ProperCall(op: SendOp) {
    && (if op.Payload? then |op.payload| <= MAX_PAYLOAD_SIZE else Valid(op.packet) && op.packet.kind != TYPE_DATA)
    && |op.ct| == CallSize(op) + OVERHEAD
  }

  /** Proper calls with ciphertexts that are all different, within both limits of the sender. */
  ghost predicate Proper(ops: seq<SendOp>) {
    && (forall i :: 0 <= i < |ops| ==> ProperCall(ops[i]))
    && Distinct(Ciphertexts(ops))
    && |ops| <= MSG_LIMIT && Sizes(ops) <= BYTE_LIMIT
  }

  lemma CallsSnoc(init: seq<SendOp>, op: SendOp)
    ensures Sizes(init + [op]) == Sizes(init) + CallSize(op)
    ensures Sends(init + [op]) == Sends(init) + if op.Payload? then 1 else 0
    ensures Made(init + [op]) == Made(init) + [CallPacket(op, Sends(init + [op]) % SEQ_MOD)]
    ensures Ciphertexts(init + [op]) == Ciphertexts(init) + [op.ct]
  {
    assert (init + [op])[..|init|] == init;
  }

  lemma DistinctSnoc(cts: seq<seq<byte>>, ct: seq<byte>)
    requires Distinct(cts + [ct])
    ensures Distinct(cts) && ct !in cts
  {
    var all := cts + [ct];
    forall i | 0 <= i < |cts| ensures cts[i] != ct {
      assert all[i] != all[|cts|];
    }
    forall i, j | 0 <= i < j < |cts| ensures cts[i] != cts[j] {
      assert all[i] != all[j];
    }
  }

  lemma ProperInit(init: seq<SendOp>, op: SendOp)
    requires Proper(init + [op])
    ensures Proper(init) && ProperCall(op) && op.ct !in Ciphertexts(init)
  {
    var ops := init + [op];
    CallsSnoc(init, op);
    DistinctSnoc(Ciphertexts(init), op.ct);
    assert ops[|init|] == op;
    forall i | 0 <= i < |init| ensures ProperCall(init[i]) {
      assert ops[i] == init[i];
    }
  }

  /** The sender after proper calls: every one of them was sealed, and counted. */
  ghost predicate MadeAll(s: Sender, ops: seq<SendOp>) {
    && s.sent == Made(ops) && s.cts == Ciphertexts(ops)
    && s.st.sendSeq == Sends(ops) % SEQ_MOD && s.st.msgs == |ops| && s.st.bytes == Sizes(ops)
  }

  lemma KeysAreOurs(s: Sender, ct: seq<byte>, aad: seq<byte>)
    requires CoreInv(s) && ct !in s.cts
    ensures (ct, aad) !in s.log
  {
    forall key | key in s.log ensures key.0 in s.cts {
      var i: nat :| IsKey(s.sent, s.cts, i, key);
    }
  }

  lemma SealsNext(s: Sender, st: SendState, p: Packet, ct: seq<byte>)
    requires CoreInv(s) && Valid(p) && st == s.st.(sendSeq := st.sendSeq)
    requires |ct| == TotalSize(p) + OVERHEAD && ct !in s.cts
    requires st.msgs < MSG_LIMIT && st.bytes + TotalSize(p) <= BYTE_LIMIT
    ensures var (st', log, bytes, result) := SendRaw(st, s.log, p, ct);
            var s' := Record(s, st', log, result, ct);
            && s'.st == CountSend(st, TotalSize(p))
            && s'.sent == s.sent + [p] && s'.cts == s.cts + [ct]
  {
    SendRawCases(st, s.log, p, ct);
    KeysAreOurs(s, ct, LenBuf(Encode(p)));
  }

  lemma NextModulo(k: nat)
    ensures (k % SEQ_MOD + 1) % SEQ_MOD == (k + 1) % SEQ_MOD
  {
  }

  /** A call of Send in terms of the packet it makes. */
  lemma SendIs(s: Sender, op: SendOp, p: Packet)
    requires op.Payload? && |op.payload| <= MAX_PAYLOAD_SIZE && p == CallPacket(op, (s.st.sendSeq + 1) % SEQ_MOD)
    ensures var (st', log, bytes, result) := SendRaw(s.st.(sendSeq := p.seqNum), s.log, p, op.ct);
            var s' := SenderNext(s, op).0;
            s' == Record(s, st', log, result, op.ct).(given := s'.given)
    ensures Valid(p) && TotalSize(p) == CallSize(op)
  {
    var q := SendCases(s.st, s.log, op.payload, op.timestamp, op.ct);
    assert p == NewDataPacket(op.payload, (s.st.sendSeq + 1) % SEQ_MOD, op.timestamp).value;
  }

  /** The sender s' after one more call that was sealed. */
  ghost predicate Sealed(s: Sender, s': Sender, op: SendOp, number: u32) {
    && s'.sent == s.sent + [CallPacket(op, number)] && s'.cts == s.cts + [op.ct]
    && s'.st.msgs == s.st.msgs + 1 && s'.st.bytes == s.st.bytes + CallSize(op)
  }

  lemma CallIsSealed(s: Sender, op: SendOp)
    requires CoreInv(s) && ProperCall(op) && op.ct !in s.cts
    requires s.st.msgs < MSG_LIMIT && s.st.bytes + CallSize(op) <= BYTE_LIMIT
    ensures var s' := SenderNext(s, op).0;
            && Sealed(s, s', op, (s.st.sendSeq + 1) % SEQ_MOD)
            && s'.st.sendSeq == if op.Payload? then (s.st.sendSeq + 1) % SEQ_MOD else s.st.sendSeq
  {
    var p := CallPacket(op, (s.st.sendSeq + 1) % SEQ_MOD);
    if op.Payload? {
      SendIs(s, op, p);
      SealsNext(s, s.st.(sendSeq := p.seqNum), p, op.ct);
    } else {
      SealsNext(s, s.st, p, op.ct);
    }
  }

  lemma MadeNext(s: Sender, s': Sender, init: seq<SendOp>, op: SendOp)
    requires MadeAll(s, init) && Sealed(s, s', op, (s.st.sendSeq + 1) % SEQ_MOD)
    requires s'.st.sendSeq == if op.Payload? then (s.st.sendSeq + 1) % SEQ_MOD else s.st.sendSeq
    ensures MadeAll(s', init + [op])
  {
    CallsSnoc(init, op);
    NextModulo(Sends(init));
  }

  lemma CallKeeps(s: Sender, init: seq<SendOp>, op: SendOp)
    requires SenderInv(s) && MadeAll(s, init) && Proper(init + [op])
    ensures MadeAll(SenderNext(s, op).0, init + [op])
  {
    ProperInit(init, op);
    CallsSnoc(init, op);
    CallIsSealed(s, op);
    MadeNext(s, SenderNext(s, op).0, init, op);
  }

  /** Within its limits the sender seals every call: none is lost before the wire. */
  lemma {:induction false} EveryCallIsSealed(ops: seq<SendOp>)
    requires Proper(ops)
    ensures MadeAll(SenderOf(ops), ops)
  {
    if ops == [] {
      assert Ciphertexts(ops) == [];
    } else {
      var init, op := ops[..|ops| - 1], ops[|ops| - 1];
      assert init + [op] == ops;
      ProperInit(init, op);
      EveryCallIsSealed(init);
      SenderOfInv(init);
      CallKeeps(SenderOf(init), init, op);
    }
  }

  /** The numbers of at most 2^30 proper calls grow. */
  lemma {:induction false} MadeNumbers(ops: seq<SendOp>)
    requires Proper(ops)
    ensures |Made(ops)| == |ops| && Fresh(Made(ops), |ops|)
    ensures LastNumber(Made(ops), |ops|) == Sends(ops) <= |ops|
  {
    if ops != [] {
      var init, op := ops[..|ops| - 1], ops[|ops| - 1];
      assert init + [op] == ops;
      ProperInit(init, op);
      MadeNumbers(init);
      MadeNumberNext(init, op);
    }
  }

  lemma MadeNumberNext(init: seq<SendOp>, op: SendOp)
    requires ProperCall(op) && |init| < MSG_LIMIT
    requires |Made(init)| == |init| && Fresh(Made(init), |init|) && LastNumber(Made(init), |init|) == Sends(init) <= |init|
    ensures |Made(init + [op])| == |init| + 1 && Fresh(Made(init + [op]), |init| + 1)
    ensures LastNumber(Made(init + [op]), |init| + 1) == Sends(init + [op]) <= |init| + 1
  {
    CallsSnoc(init, op);
    FreshAppend(Made(init), CallPacket(op, Sends(init + [op]) % SEQ_MOD));
  }

  /** A packet with a new number, or with none, keeps the numbers growing. */
  lemma FreshAppend(sent: seq<Packet>, p: Packet)
    requires Fresh(sent, |sent|) && (Numbered(p) ==> p.seqNum > LastNumber(sent, |sent|))
    ensures Fresh(sent + [p], |sent| + 1)
    ensures LastNumber(sent + [p], |sent| + 1) == if Numbered(p) then p.seqNum else LastNumber(sent, |sent|)
  {
    var all := sent + [p];
    assert forall i :: 0 <= i < |sent| ==> all[i] == sent[i];
    LastNumberSnoc(sent, p, |sent|);
    FreshNext(all, |sent|);
  }

  /** The receiver counts 28 bytes more for every proper call. */
  lemma {:induction false} TotalOfCalls(ops: seq<SendOp>)
    requires forall i :: 0 <= i < |ops| ==> ProperCall(ops[i])
    ensures Total(Ciphertexts(ops), |ops|) == Sizes(ops) + OVERHEAD * |ops|
  {
    if ops != [] {
      var init, op := ops[..|ops| - 1], ops[|ops| - 1];
      assert init + [op] == ops;
      CallsSnoc(init, op);
      TotalOfCalls(init);
      TotalSnoc(Ciphertexts(init), op.ct, |init|);
    }
  }

  /**
   Lossless, for the calls: any mix of Send and SendPacket within the limits of the sender
   comes out of as many calls of RecvPacket as exactly the packets of those calls, in
   order, if and only if the receiver's count, 28 bytes more per packet, is within the
   limit of 64 GiB too.
   */
  lemma LosslessCalls(ops: seq<SendOp>)
    requires Proper(ops)
    ensures var (results, r, rest) := RecvMany(SenderOf(ops).log, Written(ops), |ops|);
            && (results == AllReceived(Made(ops)) <==> Sizes(ops) + OVERHEAD * |ops| <= BYTE_LIMIT)
            && (results == AllReceived(Made(ops)) ==> rest == [])
  {
    var (results, r, rest) := RecvMany(SenderOf(ops).log, Written(ops), |ops|);
    EveryCallIsSealed(ops);
    MadeNumbers(ops);
    TotalOfCalls(ops);
    WrittenIs(ops);
    RecvManyIs(SenderOf(ops), Written(ops), |ops|);
    CallsInStep(SenderOf(ops), ops, results, r, rest);
  }

  lemma CallsInStep(s: Sender, ops: seq<SendOp>, results: seq<RecvResult>, r: RecvState, rest: seq<byte>)
    requires s.sent == Made(ops) && |s.sent| == |s.cts| == |ops| && InStep(s, |ops|, results, r, rest)
    requires Fresh(s.sent, |ops|) && Total(s.cts, |ops|) == Sizes(ops) + OVERHEAD * |ops|
    ensures results == AllReceived(Made(ops)) <==> Sizes(ops) + OVERHEAD * |ops| <= BYTE_LIMIT
    ensures results == AllReceived(Made(ops)) ==> rest == []
  {
    assert s.sent[..|ops|] == s.sent;
  }

  // ---------- the receiver's limit comes first ----------

  /** A ciphertext of the given length that differs for different i. */
  function Stamped(i: nat, length: nat): seq<byte>
    requires i < SEQ_MOD && 4 <= length
  {
    Put32(i) + seq(length - 4, _ => 0)
  }

  lemma StampedDiffer(i: nat, j: nat, length: nat)
    requires i < SEQ_MOD && j < SEQ_MOD && 4 <= length && i != j
    ensures Stamped(i, length) != Stamped(j, length)
  {
    assert Stamped(i, length)[..4] == Put32(i) && Stamped(j, length)[..4] == Put32(j);
    Get32Put32(i);
    Get32Put32(j);
  }

  /** k calls of Send with one payload. */
  function Repeated(k: nat, payload: seq<byte>): seq<SendOp>
    requires k <= SEQ_MOD
  {
    seq(k, i requires 0 <= i < k => Payload(payload, 0, Stamped(i, HEADER_SIZE + |payload| + OVERHEAD)))
  }

  lemma OneMoreTimes(k: nat, n: nat)
    ensures (k + 1) * n == k * n + n
  {
  }

  lemma PayloadSize(op: SendOp)
    requires op.Payload? && |op.payload| <= MAX_PAYLOAD_SIZE
    ensures CallSize(op) == HEADER_SIZE + |op.payload|
  {
  }

  lemma RepeatedSnoc(k: nat, payload: seq<byte>)
    requires k < SEQ_MOD
    ensures Repeated(k + 1, payload) ==
            Repeated(k, payload) + [Payload(payload, 0, Stamped(k, HEADER_SIZE + |payload| + OVERHEAD))]
  {
  }

  lemma {:induction false} RepeatedSizes(k: nat, payload: seq<byte>)
    requires k <= SEQ_MOD && |payload| <= MAX_PAYLOAD_SIZE
    ensures Sizes(Repeated(k, payload)) == k * (HEADER_SIZE + |payload|)
  {
    if k > 0 {
      var n := HEADER_SIZE + |payload|;
      var op := Payload(payload, 0, Stamped(k - 1, n + OVERHEAD));
      RepeatedSizes(k - 1, payload);
      RepeatedSnoc(k - 1, payload);
      CallsSnoc(Repeated(k - 1, payload), op);
      PayloadSize(op);
      OneMoreTimes(k - 1, n);
    }
  }

  lemma RepeatedCalls(k: nat, payload: seq<byte>)
    requires k <= SEQ_MOD && |payload| <= MAX_PAYLOAD_SIZE
    ensures forall i :: 0 <= i < k ==> ProperCall(Repeated(k, payload)[i])
  {
  }

  lemma RepeatedDistinct(k: nat, payload: seq<byte>)
    requires k <= SEQ_MOD
    ensures Distinct(Ciphertexts(Repeated(k, payload)))
  {
    var cts := Ciphertexts(Repeated(k, payload));
    forall i, j | 0 <= i < j < |cts| ensures cts[i] != cts[j] {
      StampedDiffer(i, j, HEADER_SIZE + |payload| + OVERHEAD);
    }
  }

  lemma RepeatedProper(k: nat, payload: seq<byte>)
    requires k <= MSG_LIMIT && |payload| <= MAX_PAYLOAD_SIZE
    requires k * (HEADER_SIZE + |payload|) <= BYTE_LIMIT
    ensures Proper(Repeated(k, payload)) && Sizes(Repeated(k, payload)) == k * (HEADER_SIZE + |payload|)
  {
    RepeatedSizes(k, payload);
    RepeatedCalls(k, payload);
    RepeatedDistinct(k, payload);
  }

  /**
   The receiver's limit is passed by a sender that keeps to its own: 1048304 Sends of 65535
   bytes are all sealed, 68719472112 bytes by the sender's count, and do not all come out.
   */
  lemma ReceiverLimitFirst(payload: seq<byte>)
    requires |payload| == MAX_PAYLOAD_SIZE
    ensures var ops := Repeated(1_048_304, payload);
            && Sizes(ops) == 68_719_472_112 <= BYTE_LIMIT < 68_748_824_624 == Sizes(ops) + OVERHEAD * |ops|
            && SenderOf(ops).sent == Made(ops) && |Made(ops)| == |ops|
            && RecvMany(SenderOf(ops).log, Written(ops), |ops|).0 != AllReceived(Made(ops))
  {
    RepeatedProper(1_048_304, payload);
    EveryCallIsSealed(Repeated(1_048_304, payload));
    MadeNumbers(Repeated(1_048_304, payload));
    LosslessCalls(Repeated(1_048_304, payload));
  }
}
