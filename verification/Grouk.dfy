/**
 One end of a Grouk stream: a reliable byte stream over datagrams.

 `Stream` is the state of a GroukStream as a value, with one function per handler.
 Times are in nanoseconds.
 */
module Grouk {
  import opened Bytes
  import opened Reader

  const SEQ_MOD: nat := 0x1_0000_0000
  const MAX_PAYLOAD: nat := 1400 - (4 + 1) - 12 - 16 - (2 + 4 + 4 + 1)
  const WINDOW_SIZE: nat := 128
  const READ_CAPACITY: nat := 256
  const INITIAL_CWND: nat := 16
  const MIN_CWND: nat := 4
  const MAX_RETRANSMIT: nat := 10
  const MILLISECOND: int := 1_000_000
  const DEFAULT_RTO: int := 200 * MILLISECOND
  const MAX_RTO: int := 2000 * MILLISECOND

  datatype SendEntry = SendEntry(data: seq<byte>, sentAt: int, retries: nat)

  datatype Stream = Stream(
    sendSeq: nat,
    sendBuf: map<nat, SendEntry>,
    sendWin: int,
    cwnd: int,
    ssthresh: int,
    recvBuf: map<nat, seq<byte>>,
    recvNext: nat,
    readCh: seq<seq<byte>>,
    readBuf: seq<byte>,
    closed: bool)

  datatype WriteResult = Done | WindowFull | ClosedPipe

  /** A DATA packet: sequence number and payload. */
  type Frame = (nat, seq<byte>)

  /** A new stream; the program always passes 1. */
  function NewStream(recvStart: nat): Stream {
    Stream(0, map[], 0, INITIAL_CWND, WINDOW_SIZE / 2, map[], recvStart, [], [], false)
  }

  function NextSeq(seqNum: nat): nat {
    (seqNum + 1) % SEQ_MOD
  }

  /** One frame for each chunk, with the numbers that follow `last`. */
  ghost predicate Numbered(frames: seq<Frame>, chunks: seq<seq<byte>>, last: nat) {
    && |frames| == |chunks|
    && forall i :: 0 <= i < |frames| ==> frames[i] == ((last + i + 1) % SEQ_MOD, chunks[i])
  }

  lemma NumberedNext(frames: seq<Frame>, chunks: seq<seq<byte>>, last: nat, chunk: seq<byte>)
    requires Numbered(frames, chunks, last)
    ensures var q := NextSeq((last + |chunks|) % SEQ_MOD);
            && q == (last + |chunks| + 1) % SEQ_MOD
            && Numbered(frames + [(q, chunk)], chunks + [chunk], last)
  {
    NextSeqAfter(last, |chunks|);
  }

  lemma NextSeqAfter(seqNum: nat, k: nat)
    ensures NextSeq((seqNum + k) % SEQ_MOD) == (seqNum + k + 1) % SEQ_MOD
  {
  }

  /** One turn of the loop in Write: number the chunk and keep it until it is acked. */
  function PushChunk(st: Stream, chunk: seq<byte>, now: int): Stream {
    var q := NextSeq(st.sendSeq);
    st.(sendSeq := q, sendBuf := st.sendBuf[q := SendEntry(chunk, now, 0)], sendWin := st.sendWin + 1)
  }

  function PushChunks(st: Stream, chunks: seq<seq<byte>>, clock: nat -> int): Stream {
    if chunks == [] then st
    else
      var k := |chunks| - 1;
      PushChunk(PushChunks(st, chunks[..k], clock), chunks[k], clock(k))
  }

  lemma PushChunksNext(st: Stream, chunks: seq<seq<byte>>, chunk: seq<byte>, clock: nat -> int)
    ensures PushChunks(st, chunks + [chunk], clock) == PushChunk(PushChunks(st, chunks, clock), chunk, clock(|chunks|))
  {
    assert (chunks + [chunk])[..|chunks|] == chunks;
  }

  /** What the sending loop has done: the pieces of p up to `sent`, numbered, buffered and in packets. */
  ghost predicate Sending(start: Stream, st: Stream, p: seq<byte>, sent: nat, frames: seq<Frame>, chunks: seq<seq<byte>>,
                          clock: nat -> int)
  {
    && CutUpTo(p, sent, MAX_PAYLOAD, chunks) && Numbered(frames, chunks, start.sendSeq)
    && st == PushChunks(start, chunks, clock) && st.sendSeq == (start.sendSeq + |chunks|) % SEQ_MOD
  }

  lemma SendingNext(start: Stream, st: Stream, p: seq<byte>, sent: nat, frames: seq<Frame>, chunks: seq<seq<byte>>,
                    clock: nat -> int)
    requires Sending(start, st, p, sent, frames, chunks, clock) && sent < |p|
    ensures var end := CutEnd(p, sent, MAX_PAYLOAD);
            var st' := PushChunk(st, p[sent..end], clock(|chunks|));
            && sent < end <= |p|
            && Sending(start, st', p, end, frames + [(st'.sendSeq, p[sent..end])], chunks + [p[sent..end]], clock)
  {
    var chunk := p[sent..CutEnd(p, sent, MAX_PAYLOAD)];
    CutOne(p, sent, MAX_PAYLOAD, chunks);
    NumberedNext(frames, chunks, start.sendSeq, chunk);
    PushChunksNext(start, chunks, chunk, clock);
  }

  function Read(st: Stream, n: nat, eof: bool): (Stream, ReadResult) {
    var (buf, ch, result) := Take(st.readBuf, st.readCh, st.closed, n, eof);
    (st.(readBuf := buf, readCh := ch), result)
  }

  /**
   Move chunks from recvBuf to the read channel while the next number is there and the
   channel has room. On a closed stream the select may take the closed case instead of a
   send, which loses the chunk it holds; `sends` says after how many sends it does.
   */
  function DeliverOrdered(st: Stream, sends: nat): Stream
    decreases |st.recvBuf|
  {
    var next := st.recvNext;
    if next !in st.recvBuf then st
    else
      var taken := st.(recvBuf := st.recvBuf - {next});
      assert |taken.recvBuf| < |st.recvBuf| by { RemoveShrinks(st.recvBuf, next); }
      if st.closed && (|st.readCh| >= READ_CAPACITY || sends == 0) then taken
      else if |st.readCh| >= READ_CAPACITY then st
      else
        DeliverOrdered(taken.(readCh := st.readCh + [st.recvBuf[next]], recvNext := NextSeq(next)),
                       if st.closed then sends - 1 else sends)
  }

  lemma RemoveShrinks<K, V>(m: map<K, V>, k: K)
    requires k in m
    ensures |m - {k}| == |m| - 1
  {
    assert (m - {k}).Keys == m.Keys - {k};
    assert |(m - {k}).Keys| == |m.Keys| - 1;
  }

  function HandleRecv(st: Stream, q: nat, data: seq<byte>): Stream {
    if st.closed then st
    else DeliverOrdered(st.(recvBuf := st.recvBuf[q := data]), 0)
  }

  function HandleAck(st: Stream, ack: nat): Stream {
    if ack !in st.sendBuf then st
    else st.(sendBuf := st.sendBuf - {ack},
             sendWin := st.sendWin - 1,
             cwnd := if st.cwnd < WINDOW_SIZE then st.cwnd + 1 else st.cwnd)
  }

  /** The wait before an entry that was retried `retries` times is sent again. */
  function Rto(retries: nat): int {
    var rto := DEFAULT_RTO * (retries + 1);
    if rto > MAX_RTO then MAX_RTO else rto
  }

  function Half(cwnd: int): int {
    if cwnd / 2 < MIN_CWND then MIN_CWND else cwnd / 2
  }

  /** Count one more retry of entry q; the first retry halves the congestion window. */
  function Retry(st: Stream, q: nat): Stream
    requires q in st.sendBuf
  {
    var e := st.sendBuf[q];
    var counted := st.(sendBuf := st.sendBuf[q := e.(retries := e.retries + 1)]);
    if e.retries + 1 == 1 then counted.(cwnd := Half(st.cwnd), ssthresh := Half(st.cwnd)) else counted
  }

  predicate Overdue(st: Stream, q: nat, now: int)
    requires q in st.sendBuf
  {
    now - st.sendBuf[q].sentAt > Rto(st.sendBuf[q].retries)
  }

  /** Entry q was sent again at `now`. */
  function Resend(st: Stream, q: nat, now: int): Stream
    requires q in st.sendBuf
  {
    var st1 := Retry(st, q);
    st1.(sendBuf := st1.sendBuf[q := st1.sendBuf[q].(sentAt := now)])
  }

  /** The walk over sendBuf in one tick: the new state and the numbers sent again, in order. */
  function Scan(st: Stream, order: seq<nat>, now: int): (Stream, seq<nat>)
    decreases |order|
  {
    if order == [] then (st, [])
    else if order[0] !in st.sendBuf || !Overdue(st, order[0], now) then Scan(st, order[1..], now)
    else if st.sendBuf[order[0]].retries + 1 > MAX_RETRANSMIT then
      (Retry(st, order[0]).(closed := true), [])
    else
      var (st', resent) := Scan(Resend(st, order[0], now), order[1..], now);
      (st', [order[0]] + resent)
  }

  /** One tick of the retransmit loop. */
  function Tick(st: Stream, order: seq<nat>, now: int, sends: nat): (Stream, seq<nat>) {
    var (st', resent) := Scan(st, order, now);
    (DeliverOrdered(st', sends), resent)
  }

  /** Close: spends a sequence number on the CLOSE packet unless already closed. */
  function CloseStream(st: Stream): Stream {
    if st.closed then st else st.(closed := true, sendSeq := NextSeq(st.sendSeq))
  }

  /** The order in which a map is walked: every key once. */
  ghost predicate Walks(order: seq<nat>, keys: set<nat>) {
    && (forall q :: q in keys <==> q in order)
    && (forall i, j :: 0 <= i < j < |order| ==> order[i] != order[j])
  }

  // ---------- what a handler leaves alone ----------

  lemma AddGrows<V>(m: map<nat, V>, q: nat, v: V)
    requires q !in m
    ensures m[q := v].Keys == m.Keys + {q} && |m[q := v]| == |m| + 1
  {
    assert m[q := v].Keys == m.Keys + {q};
    assert |m[q := v].Keys| == |m.Keys| + 1;
  }

  lemma DeliverFrame(st: Stream, sends: nat)
    ensures var st' := DeliverOrdered(st, sends);
            && st' == st.(recvBuf := st'.recvBuf, recvNext := st'.recvNext, readCh := st'.readCh)
            && st.readCh <= st'.readCh
    decreases |st.recvBuf|
  {
    var next := st.recvNext;
    if next in st.recvBuf && !(st.closed && (|st.readCh| >= READ_CAPACITY || sends == 0))
       && |st.readCh| < READ_CAPACITY {
      RemoveShrinks(st.recvBuf, next);
      DeliverFrame(st.(recvBuf := st.recvBuf - {next}, readCh := st.readCh + [st.recvBuf[next]],
                       recvNext := NextSeq(next)),
                   if st.closed then sends - 1 else sends);
    }
  }

  lemma ReadFrame(st: Stream, n: nat, eof: bool)
    ensures var st' := Read(st, n, eof).0;
            st' == st.(readBuf := st'.readBuf, readCh := st'.readCh) && |st'.readCh| <= |st.readCh|
  {
  }

  // ---------- acks in any order ----------

  function AckAll(st: Stream, acks: seq<nat>): Stream {
    if acks == [] then st else HandleAck(AckAll(st, acks[..|acks| - 1]), acks[|acks| - 1])
  }

  /** The buffered numbers that are acked. */
  ghost function Acked(sendBuf: map<nat, SendEntry>, acks: seq<nat>): set<nat> {
    set q | q in acks && q in sendBuf
  }

  lemma AckedSnoc(sendBuf: map<nat, SendEntry>, acks: seq<nat>, q: nat)
    ensures Acked(sendBuf, acks + [q]) == if q in sendBuf then Acked(sendBuf, acks) + {q} else Acked(sendBuf, acks)
  {
  }

  /** What acks leave depends only on the set of numbers acked, however they are repeated or ordered. */
  ghost predicate AckedAs(st: Stream, st': Stream, acked: set<nat>) {
    var cwnd := st.cwnd + |acked|;
    st' == st.(sendBuf := st.sendBuf - acked, sendWin := st.sendWin - |acked|,
               cwnd := if cwnd < WINDOW_SIZE then cwnd else WINDOW_SIZE)
  }

  lemma {:induction false} AcksAnyOrder(st: Stream, acks: seq<nat>)
    requires st.cwnd <= WINDOW_SIZE
    ensures AckedAs(st, AckAll(st, acks), Acked(st.sendBuf, acks))
  {
    if acks == [] {
      assert st.sendBuf - {} == st.sendBuf;
    } else {
      var init, q := acks[..|acks| - 1], acks[|acks| - 1];
      AcksAnyOrder(st, init);
      assert acks == init + [q];
      AckedSnoc(st.sendBuf, init, q);
      AckOneMore(st, AckAll(st, init), Acked(st.sendBuf, init), q);
    }
  }

  lemma AckOneMore(st: Stream, st1: Stream, acked: set<nat>, q: nat)
    requires AckedAs(st, st1, acked)
    ensures AckedAs(st, HandleAck(st1, q), if q in st.sendBuf then acked + {q} else acked)
  {
    if q in st1.sendBuf {
      assert (st.sendBuf - acked) - {q} == st.sendBuf - (acked + {q});
    } else if q in st.sendBuf {
      assert acked + {q} == acked;
    }
  }
}
