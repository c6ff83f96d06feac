/**
 When a Grouk stream sends a chunk again and when it gives up: bounds over whole runs of
 one end of a stream, against a clock that does not go back.
 */
module GroukTiming {
  import opened Bytes
  import opened Grouk

  /**
   One end with its history: `born` has the time every chunk was first sent, `resent` how
   often it was sent again, `lastTick` the time of the last tick (or of the start) and
   `maxGap` the longest time between two ticks so far.
   */
  datatype Timed = Timed(
    st: Stream, born: map<nat, int>, resent: map<nat, nat>, now: int, lastTick: int, maxGap: int)

  /** The handlers of one end; those without a time take none from the clock. */
  datatype Op =
    | Write(chunk: seq<byte>, at: int)
    | Tick(order: seq<nat>, at: int, sends: nat)
    | Ack(q: nat)
    | Recv(q: nat, d: seq<byte>)
    | Read(n: nat, eof: bool)
    | Close
    | Mark

  function Start(at: int): Timed {
    Timed(NewStream(1), map[], map[], at, at, 0)
  }

  function Max(a: int, b: int): int {
    if a < b then b else a
  }

  function DoWrite(t: Timed, chunk: seq<byte>, at: int): Timed
  {
    var st' := PushChunk(t.st, chunk, at);
    t.(st := st', now := at, born := t.born[st'.sendSeq := at], resent := t.resent[st'.sendSeq := 0])
  }

  function DoTick(t: Timed, order: seq<nat>, at: int, sends: nat): Timed {
    var (st', sent) := Grouk.Tick(t.st, order, at, sends);
    t.(st := st', now := at, lastTick := at, maxGap := Max(t.maxGap, at - t.lastTick),
       resent := map q | q in t.resent :: t.resent[q] + multiset(sent)[q])
  }

  /** The clock does not go back, and the stream spends fewer than 2^32 numbers. */
  ghost function Next(t: Timed, op: Op): Timed {
    match op
    case Write(chunk, at) =>
      if at >= t.now && t.st.sendSeq + 1 < SEQ_MOD then DoWrite(t, chunk, at) else t
    case Tick(order, at, sends) =>
      if at >= t.now && Walks(order, t.st.sendBuf.Keys) then DoTick(t, order, at, sends) else t
    case Ack(q) => t.(st := HandleAck(t.st, q))
    case Recv(q, d) => t.(st := HandleRecv(t.st, q, d))
    case Read(n, eof) => t.(st := Grouk.Read(t.st, n, eof).0)
    case Close => if t.st.sendSeq + 1 < SEQ_MOD then t.(st := CloseStream(t.st)) else t
    case Mark => t.(st := t.st.(closed := true))
  }

  ghost function Run(t: Timed, ops: seq<Op>): Timed {
    if ops == [] then t else Next(Run(t, ops[..|ops| - 1]), ops[|ops| - 1])
  }

  /** The waits before the first `retries` repetitions, together. */
  function Waits(retries: nat): int {
    if retries == 0 then 0 else Waits(retries - 1) + Rto(retries - 1)
  }

  /** The same when every wait may be overrun by `gap`. */
  function LateWaits(retries: nat, gap: int): int {
    if retries == 0 then 0 else LateWaits(retries - 1, gap) + Rto(retries - 1) + gap
  }

  lemma {:induction false} LateWaitsIs(retries: nat, gap: int)
    ensures LateWaits(retries, gap) == Waits(retries) + retries * gap
  {
    if retries > 0 {
      LateWaitsIs(retries - 1, gap);
    }
  }

  lemma {:induction false} LateWaitsGrow(retries: nat, gap: int, gap': int)
    requires gap <= gap'
    ensures LateWaits(retries, gap) <= LateWaits(retries, gap')
  {
    if retries > 0 {
      LateWaitsGrow(retries - 1, gap, gap');
    }
  }

  lemma WaitsOfTen()
    ensures Waits(10) == 11_000 * MILLISECOND && Rto(10) == 2_000 * MILLISECOND
  {
    assert Waits(2) == 600 * MILLISECOND;
    assert Waits(4) == 2000 * MILLISECOND;
    assert Waits(6) == 4200 * MILLISECOND;
    assert Waits(8) == 7200 * MILLISECOND;
  }

  // ---------- one walk over the send buffer ----------

  ghost predicate Distinct(order: seq<nat>) {
    forall i, j :: 0 <= i < j < |order| ==> order[i] != order[j]
  }

  /** What one walk may do to entry q. */
  ghost predicate EntryStep(e: SendEntry, e': SendEntry, times: nat, overdue: bool, now: int) {
    || (e' == e && times == 0)
    || (overdue && e.retries < MAX_RETRANSMIT && e' == SendEntry(e.data, now, e.retries + 1) && times == 1)
    || (overdue && e.retries >= MAX_RETRANSMIT && e' == e.(retries := e.retries + 1) && times == 0)
  }

  lemma {:induction false} ScanEntry(st: Stream, order: seq<nat>, now: int, q: nat)
    requires Distinct(order) && q in st.sendBuf
    ensures var (st', resent) := Scan(st, order, now);
            && q in st'.sendBuf
            && EntryStep(st.sendBuf[q], st'.sendBuf[q], multiset(resent)[q], Overdue(st, q, now), now)
            && (q !in order ==> st'.sendBuf[q] == st.sendBuf[q] && q !in resent)
            && (!st'.closed && q in order && Overdue(st, q, now) ==> multiset(resent)[q] == 1)
    decreases |order|
  {
    if order != [] {
      var p := order[0];
      assert Distinct(order[1..]) && p !in order[1..];
      assert order == [p] + order[1..];
      if p !in st.sendBuf || !Overdue(st, p, now) {
        ScanEntry(st, order[1..], now, q);
      } else if st.sendBuf[p].retries + 1 > MAX_RETRANSMIT {
      } else {
        var st1 := Resend(st, p, now);
        var (st', more) := Scan(st1, order[1..], now);
        ScanEntry(st1, order[1..], now, q);
        assert multiset([p] + more) == multiset{p} + multiset(more);
      }
    }
  }

  /** A walk closes the stream only over an overdue entry that was sent again ten times. */
  lemma {:induction false} ScanCloses(st: Stream, order: seq<nat>, now: int) returns (q: nat)
    requires Distinct(order) && !st.closed && Scan(st, order, now).0.closed
    ensures q in order && q in st.sendBuf && Overdue(st, q, now) && st.sendBuf[q].retries >= MAX_RETRANSMIT
    ensures var st' := Scan(st, order, now).0;
            q in st'.sendBuf && st'.sendBuf[q] == st.sendBuf[q].(retries := st.sendBuf[q].retries + 1)
    decreases |order|
  {
    var p := order[0];
    assert Distinct(order[1..]) && p !in order[1..];
    if p !in st.sendBuf || !Overdue(st, p, now) {
      q := ScanCloses(st, order[1..], now);
    } else if st.sendBuf[p].retries + 1 > MAX_RETRANSMIT {
      q := p;
    } else {
      q := ScanCloses(Resend(st, p, now), order[1..], now);
    }
  }

  // ---------- the invariant ----------

  /** What is known about a chunk that was not acked yet. */
  ghost predicate EntryInv(e: SendEntry, born: int, times: nat, closed: bool, lastTick: int, maxGap: int) {
    && times <= e.retries
    && (!closed ==>
          && e.retries == times <= MAX_RETRANSMIT
          && born + Waits(times) <= e.sentAt <= born + LateWaits(times, maxGap)
          && lastTick - e.sentAt <= Rto(times))
  }

  ghost predicate Inv(t: Timed) {
    && t.lastTick <= t.now && 0 <= t.maxGap
    && t.st.sendSeq < SEQ_MOD
    && t.born.Keys == t.resent.Keys
    && (forall q :: q in t.resent ==> q <= t.st.sendSeq && t.resent[q] <= MAX_RETRANSMIT)
    && EntriesInv(t)
  }

  ghost predicate EntriesInv(t: Timed) {
    forall q :: q in t.st.sendBuf ==>
      q in t.born && q in t.resent &&
      EntryInv(t.st.sendBuf[q], t.born[q], t.resent[q], t.st.closed, t.lastTick, t.maxGap)
  }

  lemma EntryTick(e: SendEntry, e': SendEntry, born: int, times: nat, more: nat,
                  closed: bool, closed': bool, lastTick: int, at: int, maxGap: int)
    requires EntryInv(e, born, times, closed, lastTick, maxGap)
    requires lastTick <= at && (closed ==> closed')
    requires EntryStep(e, e', more, at - e.sentAt > Rto(e.retries), at)
    requires !closed' && at - e.sentAt > Rto(e.retries) ==> more == 1
    ensures EntryInv(e', born, times + more, closed', at, Max(maxGap, at - lastTick))
    ensures more > 0 ==> times < MAX_RETRANSMIT && more == 1
  {
    LateWaitsGrow(times, maxGap, Max(maxGap, at - lastTick));
  }

  /** Of a tick, only the walk touches what is kept for sending. */
  lemma TickFields(t: Timed, order: seq<nat>, at: int, sends: nat, q: nat)
    requires q in t.resent
    ensures var t' := DoTick(t, order, at, sends);
            var (scanned, sent) := Scan(t.st, order, at);
            && t'.st.sendBuf == scanned.sendBuf && t'.st.closed == scanned.closed
            && t'.maxGap == Max(t.maxGap, at - t.lastTick)
            && q in t'.resent && t'.resent[q] == t.resent[q] + multiset(sent)[q]
  {
    DeliverFrame(Scan(t.st, order, at).0, sends);
  }

  lemma TickEntryKeeps(t: Timed, order: seq<nat>, at: int, sends: nat, q: nat)
    requires Inv(t) && at >= t.now && Walks(order, t.st.sendBuf.Keys) && q in t.st.sendBuf
    ensures var t' := DoTick(t, order, at, sends);
            && q in t'.st.sendBuf && t'.resent[q] <= MAX_RETRANSMIT
            && EntryInv(t'.st.sendBuf[q], t.born[q], t'.resent[q], t'.st.closed, at, t'.maxGap)
  {
    TickFields(t, order, at, sends, q);
    ScanKeepsEntry(t.st, order, at, q, t.born[q], t.resent[q], t.lastTick, t.maxGap);
  }

  lemma ScanKeepsEntry(st: Stream, order: seq<nat>, at: int, q: nat, born: int, times: nat, lastTick: int, maxGap: int)
    requires Walks(order, st.sendBuf.Keys) && q in st.sendBuf && lastTick <= at
    requires EntryInv(st.sendBuf[q], born, times, st.closed, lastTick, maxGap) && times <= MAX_RETRANSMIT
    ensures var (scanned, sent) := Scan(st, order, at);
            && q in scanned.sendBuf && times + multiset(sent)[q] <= MAX_RETRANSMIT
            && EntryInv(scanned.sendBuf[q], born, times + multiset(sent)[q], scanned.closed, at, Max(maxGap, at - lastTick))
  {
    var (scanned, sent) := Scan(st, order, at);
    ScanSendSide(st, order, at);
    ScanEntry(st, order, at, q);
    EntryTick(st.sendBuf[q], scanned.sendBuf[q], born, times, multiset(sent)[q],
              st.closed, scanned.closed, lastTick, at, maxGap);
  }

  lemma TickKeeps(t: Timed, order: seq<nat>, at: int, sends: nat)
    requires Inv(t) && at >= t.now && Walks(order, t.st.sendBuf.Keys)
    ensures Inv(DoTick(t, order, at, sends))
  {
    var t' := DoTick(t, order, at, sends);
    var (scanned, sent) := Scan(t.st, order, at);
    DeliverFrame(scanned, sends);
    ScanSendSide(t.st, order, at);
    forall q | q in t.st.sendBuf
      ensures EntryInv(t'.st.sendBuf[q], t.born[q], t'.resent[q], t'.st.closed, at, t'.maxGap)
      ensures t'.resent[q] <= MAX_RETRANSMIT
    {
      TickEntryKeeps(t, order, at, sends, q);
    }
    assert forall q :: q in t.resent && q !in t.st.sendBuf ==> q !in sent;
    assert t'.born.Keys == t'.resent.Keys;
  }

  lemma {:induction false} ScanSendSide(st: Stream, order: seq<nat>, now: int)
    ensures var (st', resent) := Scan(st, order, now);
            && st'.sendBuf.Keys == st.sendBuf.Keys && st'.sendSeq == st.sendSeq
            && (st.closed ==> st'.closed)
            && (forall q :: q in resent ==> q in st.sendBuf)
    decreases |order|
  {
    if order != [] {
      var q := order[0];
      if q !in st.sendBuf || !Overdue(st, q, now) {
        ScanSendSide(st, order[1..], now);
      } else if st.sendBuf[q].retries + 1 <= MAX_RETRANSMIT {
        ScanSendSide(Resend(st, q, now), order[1..], now);
        assert Resend(st, q, now).sendBuf.Keys == st.sendBuf.Keys;
      } else {
        assert Retry(st, q).sendBuf.Keys == st.sendBuf.Keys;
      }
    }
  }

  lemma WriteKeeps(t: Timed, chunk: seq<byte>, at: int)
    requires Inv(t) && at >= t.now && t.st.sendSeq + 1 < SEQ_MOD
    ensures Inv(DoWrite(t, chunk, at))
  {
    var t' := DoWrite(t, chunk, at);
    assert t'.born.Keys == t.born.Keys + {t'.st.sendSeq};
    assert t'.resent.Keys == t.resent.Keys + {t'.st.sendSeq};
  }

  lemma NextKeeps(t: Timed, op: Op)
    requires Inv(t)
    ensures Inv(Next(t, op))
  {
    match op
    case Write(chunk, at) =>
      if at >= t.now && t.st.sendSeq + 1 < SEQ_MOD {
        WriteKeeps(t, chunk, at);
      }
    case Tick(order, at, sends) =>
      if at >= t.now && Walks(order, t.st.sendBuf.Keys) {
        TickKeeps(t, order, at, sends);
      }
    case Ack(q) =>
    case Recv(q, d) => DeliverFrame(t.st.(recvBuf := t.st.recvBuf[q := d]), 0);
    case Read(n, eof) => ReadFrame(t.st, n, eof);
    case Close =>
    case Mark =>
  }

  lemma {:induction false} RunInv(at: int, ops: seq<Op>)
    ensures Inv(Run(Start(at), ops))
  {
    if ops != [] {
      RunInv(at, ops[..|ops| - 1]);
      NextKeeps(Run(Start(at), ops[..|ops| - 1]), ops[|ops| - 1]);
    }
  }

  // ---------- the bounds ----------

  const GIVE_UP: int := 13_000 * MILLISECOND

  /** No chunk is ever sent again more than ten times; while open, that is its retry count. */
  lemma ResentAtMostTen(at: int, ops: seq<Op>)
    ensures var t := Run(Start(at), ops);
            && (forall q :: q in t.resent ==> t.resent[q] <= 10)
            && (!t.st.closed ==> forall q :: q in t.st.sendBuf ==>
                  q in t.resent && t.st.sendBuf[q].retries == t.resent[q] <= 10)
  {
    RunInv(at, ops);
  }

  /** A tick closes an open stream only when some chunk is unacked for more than 13 s. */
  lemma ClosesNoSooner(at: int, ops: seq<Op>, order: seq<nat>, now: int, sends: nat) returns (q: nat)
    requires !Run(Start(at), ops).st.closed
    requires Next(Run(Start(at), ops), Tick(order, now, sends)).st.closed
    ensures var t := Run(Start(at), ops);
            && q in t.st.sendBuf && q in t.born
            && now - t.born[q] > GIVE_UP
  {
    RunInv(at, ops);
    q := TickClosesLate(Run(Start(at), ops), order, now, sends);
  }

  lemma TickClosesLate(t: Timed, order: seq<nat>, now: int, sends: nat) returns (q: nat)
    requires Inv(t) && !t.st.closed && Next(t, Tick(order, now, sends)).st.closed
    ensures q in t.st.sendBuf && q in t.born && now - t.born[q] > GIVE_UP
  {
    DeliverFrame(Scan(t.st, order, now).0, sends);
    q := ScanCloses(t.st, order, now);
    LongWaited(t.st.sendBuf[q], t.born[q], t.resent[q], now, t.lastTick, t.maxGap);
  }

  lemma LongWaited(e: SendEntry, born: int, times: nat, now: int, lastTick: int, maxGap: int)
    requires EntryInv(e, born, times, false, lastTick, maxGap)
    requires e.retries >= MAX_RETRANSMIT && now - e.sentAt > Rto(e.retries)
    ensures now - born > GIVE_UP
  {
    WaitsOfTen();
  }

  /**
   While a stream is open, no unacked chunk was first sent more than 13 s and ten tick
   gaps before the last tick. So with ticks at most `gap` apart, a stream whose chunk is
   never acked is closed 13 s and eleven gaps after the chunk was first sent.
   */
  lemma ClosesNoLater(at: int, ops: seq<Op>, q: nat, gap: int, now: int)
    requires var t := Run(Start(at), ops);
             && q in t.st.sendBuf && q in t.born
             && t.maxGap <= gap && now - t.lastTick <= gap
             && now - t.born[q] > GIVE_UP + 11 * gap
    ensures Run(Start(at), ops).st.closed
  {
    var t := Run(Start(at), ops);
    RunInv(at, ops);
    if !t.st.closed {
      var e := t.st.sendBuf[q];
      WaitsOfTen();
      LateWaitsGrow(e.retries, t.maxGap, gap);
      LateWaitsMonotone(e.retries, 10, gap);
      LateWaitsIs(10, gap);
    }
  }

  /** An unacked chunk whose wait ends later has had the earlier ones. */
  lemma {:induction false} LateWaitsMonotone(few: nat, many: nat, gap: int)
    requires few <= many && 0 <= gap
    ensures LateWaits(few, gap) + Rto(few) <= LateWaits(many, gap) + Rto(many)
    decreases many
  {
    if few < many {
      LateWaitsMonotone(few, many - 1, gap);
      assert Rto(many - 1) <= Rto(many);
    }
  }
}
