/**
 Two ends of one Grouk stream and a network between them that may drop, duplicate and
 reorder every packet: what an end ever sent stays available for delivery for ever, and
 nothing forces a delivery. One action is one handler call, taken as atomic. The OPEN
 packet is delivered at most once.
 */
module GroukNet {
  import opened Bytes
  import opened Reader
  import opened Grouk

  /** What a sequence number was spent on: a chunk of data, or OPEN / CLOSE. */
  datatype Slot = Data(bytes: seq<byte>) | Control

  /**
   One end. `log[q - 1]` is what number q was spent on; `arrived` lists the chunks put on
   the read channel; `got` is everything Read has returned; `frames`, `acks` and `closes`
   are the DATA, ACK and CLOSE packets sent so far. `start` is the first number the
   reader waits for.
   */
  datatype End = End(
    opener: bool, started: bool, inTable: bool, st: Stream, start: nat,
    log: seq<Slot>, arrived: seq<seq<byte>>, got: seq<byte>,
    frames: set<Frame>, acks: set<nat>, closes: set<nat>)

  datatype Sys = Sys(a: End, b: End)

  datatype Act =
    | Write(chunk: seq<byte>, now: int)
    | Read(n: nat, eof: bool)
    | RecvOpen
    | RecvData(q: nat, d: seq<byte>)
    | RecvAck(q: nat)
    | RecvClose(q: nat)
    | Tick(order: seq<nat>, now: int, sends: nat)
    | Close
    | SessionClose

  const OPEN_SEQ: nat := 1

  /** The bytes of the data slots, in order: what Write has put in the send buffer. */
  function Written(log: seq<Slot>): seq<byte> {
    if log == [] then []
    else (if log[0].Data? then log[0].bytes else []) + Written(log[1..])
  }

  /**
   The stream just opened at one end; the other end creates its half on RecvOpen, with
   a reader that waits for number `acceptStart`. The program has acceptStart == 1.
   */
  function Init(acceptStart: nat): Sys {
    Sys(End(true, true, true, NewStream(1).(sendSeq := OPEN_SEQ), 1, [Control], [], [], {}, {}, {}),
        End(false, false, false, NewStream(acceptStart), acceptStart, [], [], [], {}, {}, {}))
  }

  /** Take the stream state st', whose read channel extends the one before. */
  function Arrive(x: End, st': Stream): End {
    x.(st := st',
       arrived := x.arrived + if |x.st.readCh| <= |st'.readCh| then st'.readCh[|x.st.readCh|..] else [])
  }

  function DoWrite(x: End, chunk: seq<byte>, now: int): End {
    if x.started && 0 < |chunk| <= MAX_PAYLOAD && x.st.sendWin < x.st.cwnd then
      var st' := PushChunk(x.st, chunk, now);
      x.(st := st', log := x.log + [Data(chunk)], frames := x.frames + {(st'.sendSeq, chunk)})
    else x
  }

  function DoRead(x: End, n: nat, eof: bool): End {
    var (st', result) := Grouk.Read(x.st, n, eof);
    if x.started then x.(st := st', got := x.got + BytesOf(result)) else x
  }

  /** Both ends of the session look the stream up before they hand a packet to it. */
  function DoRecvData(x: End, y: End, q: nat, d: seq<byte>): End {
    if x.inTable && (q, d) in y.frames then Arrive(x, HandleRecv(x.st, q, d)).(acks := x.acks + {q}) else x
  }

  function DoRecvAck(x: End, y: End, q: nat): End {
    if x.inTable && q in y.acks then x.(st := HandleAck(x.st, q)) else x
  }

  function DoRecvClose(x: End, y: End, q: nat): End {
    if q !in y.closes then x
    else if x.inTable then x.(st := x.st.(closed := true), inTable := false, acks := x.acks + {q})
    else x.(acks := x.acks + {q})
  }

  ghost function DoTick(x: End, order: seq<nat>, now: int, sends: nat): End {
    if x.started && Walks(order, x.st.sendBuf.Keys) then
      var (st', resent) := Grouk.Tick(x.st, order, now, sends);
      Arrive(x, st').(frames := x.frames + FramesOf(x.st, resent))
    else x
  }

  function FramesOf(st: Stream, resent: seq<nat>): set<Frame> {
    set q | q in resent && q in st.sendBuf :: (q, st.sendBuf[q].data)
  }

  function DoClose(x: End): End {
    if x.started && !x.st.closed then
      var st' := CloseStream(x.st);
      x.(st := st', inTable := false, log := x.log + [Control], closes := x.closes + {st'.sendSeq})
    else x
  }

  /** Action `act` at end x, with the packets of the other end y in the network. */
  ghost function Move(x: End, y: End, act: Act): End {
    match act
    case Write(chunk, now) => DoWrite(x, chunk, now)
    case Read(n, eof) => DoRead(x, n, eof)
    case RecvOpen =>
      if !x.opener && !x.started then x.(started := true, inTable := true, acks := x.acks + {OPEN_SEQ}) else x
    case RecvData(q, d) => DoRecvData(x, y, q, d)
    case RecvAck(q) => DoRecvAck(x, y, q)
    case RecvClose(q) => DoRecvClose(x, y, q)
    case Tick(order, now, sends) => DoTick(x, order, now, sends)
    case Close => DoClose(x)
    case SessionClose => if x.started then x.(st := x.st.(closed := true)) else x
  }

  /** An action at the opener (`true`) or at the acceptor. */
  ghost function Next(s: Sys, step: (bool, Act)): Sys {
    if step.0 then s.(a := Move(s.a, s.b, step.1)) else s.(b := Move(s.b, s.a, step.1))
  }

  /** A whole run. */
  ghost function Run(s: Sys, steps: seq<(bool, Act)>): Sys {
    if steps == [] then s else Next(Run(s, steps[..|steps| - 1]), steps[|steps| - 1])
  }

  // ---------- the invariant ----------

  predicate Holds(log: seq<Slot>, q: nat, d: seq<byte>) {
    1 <= q <= |log| && log[q - 1] == Data(d)
  }

  predicate IsData(log: seq<Slot>, q: nat) {
    1 <= q <= |log| && log[q - 1].Data?
  }

  ghost predicate WindowInv(st: Stream) {
    && st.sendWin == |st.sendBuf| <= WINDOW_SIZE
    && MIN_CWND <= st.cwnd <= WINDOW_SIZE
  }

  ghost predicate SendBufOk(log: seq<Slot>, sendBuf: map<nat, SendEntry>) {
    forall q :: q in sendBuf ==> Holds(log, q, sendBuf[q].data)
  }

  ghost predicate FramesOk(log: seq<Slot>, frames: set<Frame>) {
    forall f :: f in frames ==> Holds(log, f.0, f.1)
  }

  ghost predicate ClosesOk(log: seq<Slot>, closes: set<nat>) {
    forall q :: q in closes ==> 1 <= q <= |log| && !IsData(log, q)
  }

  /** No chunk is empty, and the opener spent number 1 on OPEN. */
  ghost predicate LogOk(log: seq<Slot>, opener: bool) {
    && (forall i :: 0 <= i < |log| && log[i].Data? ==> log[i].bytes != [])
    && (opener ==> log != [] && log[0] == Control)
  }

  /** Everything an end sent or keeps for sending is what its log says. */
  ghost predicate SenderInv(s: End) {
    && s.st.sendSeq == |s.log|
    && WindowInv(s.st)
    && SendBufOk(s.log, s.st.sendBuf)
    && FramesOk(s.log, s.frames)
    && ClosesOk(s.log, s.closes)
    && LogOk(s.log, s.opener)
  }

  /** The bytes returned, buffered and queued are those of the chunks that arrived. */
  ghost predicate ReaderInv(r: End) {
    && 1 <= r.start
    && r.st.recvNext == (r.start + |r.arrived|) % SEQ_MOD
    && BytesOk(r.got, r.st.readBuf, r.st.readCh, r.arrived)
    && |r.st.readCh| <= READ_CAPACITY
  }

  /** The number after the last one delivered. */
  function Floor(r: End): nat {
    r.start + |r.arrived|
  }

  /** Number q was delivered already, or waits in the reorder buffer. */
  predicate Held(floor: nat, recvBuf: map<nat, seq<byte>>, q: nat) {
    q < floor || q in recvBuf
  }

  ghost predicate ArrivedOk(log: seq<Slot>, start: nat, arrived: seq<seq<byte>>) {
    && start + |arrived| <= |log| + 1
    && forall i :: 0 <= i < |arrived| ==> Holds(log, start + i, arrived[i])
  }

  ghost predicate RecvBufOk(log: seq<Slot>, recvBuf: map<nat, seq<byte>>) {
    forall q :: q in recvBuf ==> Holds(log, q, recvBuf[q])
  }

  ghost predicate AcksOk(log: seq<Slot>, acks: set<nat>) {
    forall q :: q in acks ==> 1 <= q <= |log|
  }

  ghost predicate AckedHeld(log: seq<Slot>, acks: set<nat>, floor: nat, recvBuf: map<nat, seq<byte>>) {
    forall q :: q in acks && IsData(log, q) ==> Held(floor, recvBuf, q)
  }

  /** Every chunk sent is still kept by the sender or held by the reader. */
  ghost predicate Kept(log: seq<Slot>, kept: set<nat>, floor: nat, recvBuf: map<nat, seq<byte>>) {
    forall q :: IsData(log, q) ==> q in kept || Held(floor, recvBuf, q)
  }

  /** What r has, acked and delivered, seen from what s has sent. */
  ghost predicate Link(s: End, r: End) {
    && ArrivedOk(s.log, r.start, r.arrived)
    && RecvBufOk(s.log, r.st.recvBuf)
    && AcksOk(s.log, r.acks)
    && (!r.st.closed ==> AckedHeld(s.log, r.acks, Floor(r), r.st.recvBuf))
    && (!r.st.closed ==> Kept(s.log, s.st.sendBuf.Keys, Floor(r), r.st.recvBuf))
  }

  ghost predicate EndsInv(x: End, y: End) {
    && SenderInv(x) && SenderInv(y) && ReaderInv(x) && ReaderInv(y)
    && Link(x, y) && Link(y, x)
    && x.opener == !y.opener
  }

  /** Fewer than 2^32 numbers were spent at either end. */
  predicate NoWrap(s: Sys) {
    |s.a.log| < SEQ_MOD && |s.b.log| < SEQ_MOD
  }

  // ---------- single handlers ----------

  /** The end after one turn of the loop. */
  function DeliverOne(r: End): End
    requires r.st.recvNext in r.st.recvBuf
  {
    var next := r.st.recvNext;
    r.(st := r.st.(recvBuf := r.st.recvBuf - {next}, recvNext := NextSeq(next),
                   readCh := r.st.readCh + [r.st.recvBuf[next]]),
       arrived := r.arrived + [r.st.recvBuf[next]])
  }

  /** One turn of the loop of deliverOrdered keeps everything. */
  lemma DeliverOneKeeps(s: End, r: End, next: nat)
    requires |s.log| < SEQ_MOD
    requires ReaderInv(r) && Link(s, r)
    requires next == r.st.recvNext && next in r.st.recvBuf && |r.st.readCh| < READ_CAPACITY
    ensures ReaderInv(DeliverOne(r)) && Link(s, DeliverOne(r))
  {
    var data := r.st.recvBuf[next];
    assert Holds(s.log, next, data);
    assert next == Floor(r);
    QueueOne(r.got, r.st.readBuf, r.st.readCh, r.arrived, data);
    ArrivedNext(s.log, r.start, r.arrived, data);
    if !r.st.closed {
      HeldNext(s.log, r.acks, s.st.sendBuf.Keys, Floor(r), r.st.recvBuf);
    }
  }

  lemma ArrivedNext(log: seq<Slot>, start: nat, arrived: seq<seq<byte>>, data: seq<byte>)
    requires ArrivedOk(log, start, arrived) && Holds(log, start + |arrived|, data)
    ensures ArrivedOk(log, start, arrived + [data])
  {
  }

  /** What is held stays held when the next number is delivered. */
  lemma HeldNext(log: seq<Slot>, acks: set<nat>, kept: set<nat>, floor: nat, recvBuf: map<nat, seq<byte>>)
    requires AckedHeld(log, acks, floor, recvBuf) && Kept(log, kept, floor, recvBuf)
    ensures AckedHeld(log, acks, floor + 1, recvBuf - {floor}) && Kept(log, kept, floor + 1, recvBuf - {floor})
  {
    assert forall q :: Held(floor, recvBuf, q) ==> Held(floor + 1, recvBuf - {floor}, q);
  }

  /** Losing a reordered chunk on a closed stream keeps everything. */
  lemma DropKeeps(s: End, r: End, next: nat)
    requires ReaderInv(r) && Link(s, r) && r.st.closed
    ensures var r' := r.(st := r.st.(recvBuf := r.st.recvBuf - {next})); ReaderInv(r') && Link(s, r')
  {
  }

  lemma DeliverKeeps(s: End, r: End, sends: nat)
    requires |s.log| < SEQ_MOD
    requires ReaderInv(r) && Link(s, r)
    ensures var r' := Arrive(r, DeliverOrdered(r.st, sends)); ReaderInv(r') && Link(s, r')
    decreases |r.st.recvBuf|
  {
    var next := r.st.recvNext;
    var st' := DeliverOrdered(r.st, sends);
    if next !in r.st.recvBuf {
      ArriveNothing(r, st');
    } else if r.st.closed && (|r.st.readCh| >= READ_CAPACITY || sends == 0) {
      DropKeeps(s, r, next);
      ArriveNothing(r, st');
    } else if |r.st.readCh| >= READ_CAPACITY {
      ArriveNothing(r, st');
    } else {
      DeliverUnfold(r, sends);
      DeliverOneKeeps(s, r, next);
      RemoveShrinks(r.st.recvBuf, next);
      DeliverKeeps(s, DeliverOne(r), if r.st.closed then sends - 1 else sends);
    }
  }

  lemma ArriveNothing(r: End, st': Stream)
    requires st'.readCh == r.st.readCh
    ensures Arrive(r, st') == r.(st := st')
  {
  }

  lemma DeliverUnfold(r: End, sends: nat)
    requires r.st.recvNext in r.st.recvBuf && |r.st.readCh| < READ_CAPACITY && !(r.st.closed && sends == 0)
    ensures var left := if r.st.closed then sends - 1 else sends;
            Arrive(r, DeliverOrdered(r.st, sends)) == Arrive(DeliverOne(r), DeliverOrdered(DeliverOne(r).st, left))
  {
    var r1 := DeliverOne(r);
    var left := if r.st.closed then sends - 1 else sends;
    RemoveShrinks(r.st.recvBuf, r.st.recvNext);
    DeliverFrame(r1.st, left);
    ArriveAgain(r, r1, DeliverOrdered(r1.st, left), r.st.recvBuf[r.st.recvNext]);
  }

  /** Arriving at once is arriving one chunk later. */
  lemma ArriveAgain(r: End, r1: End, st': Stream, data: seq<byte>)
    requires r1 == r.(st := r1.st, arrived := r.arrived + [data])
    requires r1.st.readCh == r.st.readCh + [data] <= st'.readCh
    ensures Arrive(r, st') == Arrive(r1, st')
  {
    var k := |r.st.readCh|;
    assert st'.readCh[k..] == [data] + st'.readCh[k + 1..];
    assert r.arrived + ([data] + st'.readCh[k + 1..]) == r1.arrived + st'.readCh[k + 1..];
  }

  /** What one retry changes. */
  ghost predicate SameButClocks(st: Stream, st': Stream) {
    && st' == st.(sendBuf := st'.sendBuf, cwnd := st'.cwnd, ssthresh := st'.ssthresh, closed := st'.closed)
    && st'.sendBuf.Keys == st.sendBuf.Keys
    && (forall q :: q in st.sendBuf ==> st'.sendBuf[q].data == st.sendBuf[q].data)
  }

  lemma RetryShape(st: Stream, q: nat, now: int)
    requires q in st.sendBuf && WindowInv(st)
    ensures SameButClocks(st, Retry(st, q)) && WindowInv(Retry(st, q))
    ensures SameButClocks(st, Resend(st, q, now)) && WindowInv(Resend(st, q, now))
    ensures Retry(st, q).closed == Resend(st, q, now).closed == st.closed
  {
    var st1, st2 := Retry(st, q), Resend(st, q, now);
    assert st1.sendBuf.Keys == st.sendBuf.Keys == st2.sendBuf.Keys;
    assert |st1.sendBuf.Keys| == |st1.sendBuf| && |st2.sendBuf.Keys| == |st2.sendBuf|;
  }

  /** The walk of a tick changes clocks, retry counts and the window only. */
  lemma ScanFrame(st: Stream, order: seq<nat>, now: int)
    requires WindowInv(st)
    ensures var (st', resent) := Scan(st, order, now);
            && st' == st.(sendBuf := st'.sendBuf, cwnd := st'.cwnd, ssthresh := st'.ssthresh, closed := st'.closed)
            && WindowInv(st')
            && st'.sendBuf.Keys == st.sendBuf.Keys
            && (forall q :: q in st.sendBuf ==> st'.sendBuf[q].data == st.sendBuf[q].data)
            && (st.closed ==> st'.closed)
            && (forall q :: q in resent ==> q in st.sendBuf)
    decreases |order|
  {
    if order != [] {
      var q := order[0];
      if q in st.sendBuf && Overdue(st, q, now) {
        RetryShape(st, q, now);
        ScanFrame(Resend(st, q, now), order[1..], now);
      } else {
        ScanFrame(st, order[1..], now);
      }
    }
  }

  // ---------- every action keeps the invariant ----------

  /** Spending one more number keeps what is known about the numbers before. */
  lemma GrowLog(x: End, y: End, slot: Slot)
    requires EndsInv(x, y)
    requires slot.Data? ==> slot.bytes != []
    ensures var log := x.log + [slot];
            && SendBufOk(log, x.st.sendBuf) && FramesOk(log, x.frames) && ClosesOk(log, x.closes)
            && LogOk(log, x.opener)
            && ArrivedOk(log, y.start, y.arrived) && RecvBufOk(log, y.st.recvBuf) && AcksOk(log, y.acks)
            && (!y.st.closed ==> AckedHeld(log, y.acks, Floor(y), y.st.recvBuf))
            && (!y.st.closed ==>
                  Kept(log, x.st.sendBuf.Keys + if slot.Data? then {|log|} else {}, Floor(y), y.st.recvBuf))
  {
    var log := x.log + [slot];
    assert forall q, d :: Holds(x.log, q, d) ==> Holds(log, q, d);
    assert forall q :: 1 <= q <= |x.log| ==> IsData(log, q) == IsData(x.log, q);
  }

  lemma PushKeeps(log: seq<Slot>, st: Stream, chunk: seq<byte>, now: int)
    requires WindowInv(st) && SendBufOk(log, st.sendBuf) && st.sendSeq == |log|
    requires |log| + 1 < SEQ_MOD && st.sendWin < st.cwnd
    ensures var st' := PushChunk(st, chunk, now);
            && WindowInv(st') && st'.sendSeq == |log| + 1
            && SendBufOk(log + [Data(chunk)], st'.sendBuf)
            && st'.sendBuf.Keys == st.sendBuf.Keys + {|log| + 1}
  {
    var q := |log| + 1;
    PushBufOk(log, st.sendBuf, SendEntry(chunk, now, 0));
    AddGrows(st.sendBuf, q, SendEntry(chunk, now, 0));
  }

  lemma PushBufOk(log: seq<Slot>, sendBuf: map<nat, SendEntry>, e: SendEntry)
    requires SendBufOk(log, sendBuf)
    ensures |log| + 1 !in sendBuf
    ensures SendBufOk(log + [Data(e.data)], sendBuf[|log| + 1 := e])
  {
    if |log| + 1 in sendBuf {
      assert false;
    }
  }

  lemma WriteKeepsSender(x: End, y: End, chunk: seq<byte>, now: int)
    requires EndsInv(x, y)
    requires x.started && 0 < |chunk| <= MAX_PAYLOAD && x.st.sendWin < x.st.cwnd
    requires |x.log| + 1 < SEQ_MOD
    ensures SenderInv(DoWrite(x, chunk, now))
  {
    var x' := DoWrite(x, chunk, now);
    GrowLog(x, y, Data(chunk));
    PushKeeps(x.log, x.st, chunk, now);
    assert Holds(x'.log, |x.log| + 1, chunk);
    assert FramesOk(x'.log, x'.frames);
  }

  lemma WriteShape(x: End, chunk: seq<byte>, now: int)
    requires SenderInv(x) && |x.log| + 1 < SEQ_MOD
    requires x.started && 0 < |chunk| <= MAX_PAYLOAD && x.st.sendWin < x.st.cwnd
    ensures var x' := DoWrite(x, chunk, now);
            && x' == x.(st := x'.st, log := x.log + [Data(chunk)], frames := x'.frames)
            && x'.st == x.st.(sendSeq := x'.st.sendSeq, sendBuf := x'.st.sendBuf, sendWin := x'.st.sendWin)
            && x'.st.sendBuf.Keys == x.st.sendBuf.Keys + {|x.log| + 1}
  {
    PushKeeps(x.log, x.st, chunk, now);
  }

  lemma WriteKeeps(x: End, y: End, chunk: seq<byte>, now: int)
    requires EndsInv(x, y)
    requires x.started && 0 < |chunk| <= MAX_PAYLOAD && x.st.sendWin < x.st.cwnd
    requires |x.log| + 1 < SEQ_MOD
    ensures EndsInv(DoWrite(x, chunk, now), y)
  {
    WriteKeepsSender(x, y, chunk, now);
    WriteShape(x, chunk, now);
    GrowLog(x, y, Data(chunk));
  }

  lemma ReadKeeps(x: End, y: End, n: nat, eof: bool)
    requires EndsInv(x, y)
    ensures EndsInv(DoRead(x, n, eof), y)
  {
    ReadFrame(x.st, n, eof);
    TakeConserves(x.got, x.st.readBuf, x.st.readCh, x.st.closed, x.arrived, n, eof);
    ReturningHalf(x, DoRead(x, n, eof), y);
  }

  /** What Read hands out touches neither what is sent nor what is received. */
  lemma ReturningHalf(x: End, x': End, y: End)
    requires EndsInv(x, y)
    requires x' == x.(st := x.st.(readBuf := x'.st.readBuf, readCh := x'.st.readCh), got := x'.got)
    requires BytesOk(x'.got, x'.st.readBuf, x'.st.readCh, x'.arrived) && |x'.st.readCh| <= READ_CAPACITY
    ensures EndsInv(x', y)
  {
  }

  /** Storing a received chunk and acking it. */
  lemma StoreKeeps(y: End, x: End, q: nat, d: seq<byte>)
    requires ReaderInv(x) && Link(y, x) && Holds(y.log, q, d)
    ensures var x1 := x.(st := x.st.(recvBuf := x.st.recvBuf[q := d]), acks := x.acks + {q});
            ReaderInv(x1) && Link(y, x1)
  {
  }

  lemma RecvDataKeeps(x: End, y: End, q: nat, d: seq<byte>)
    requires EndsInv(x, y)
    requires |y.log| < SEQ_MOD
    requires x.inTable && (q, d) in y.frames
    ensures EndsInv(DoRecvData(x, y, q, d), y)
  {
    assert Holds(y.log, (q, d).0, (q, d).1);
    if x.st.closed {
      ArriveNothing(x, x.st);
    } else {
      var x1 := x.(st := x.st.(recvBuf := x.st.recvBuf[q := d]), acks := x.acks + {q});
      StoreKeeps(y, x, q, d);
      DeliverKeeps(y, x1, 0);
      DeliverFrame(x1.st, 0);
      ReadingHalf(x, Arrive(x1, DeliverOrdered(x1.st, 0)), y);
    }
  }

  /** What an end takes in does not touch what it sends. */
  lemma ReadingHalf(x: End, x': End, y: End)
    requires EndsInv(x, y) && ReaderInv(x') && Link(y, x')
    requires x' == x.(st := x'.st, arrived := x'.arrived, acks := x'.acks)
    requires x'.st == x.st.(recvBuf := x'.st.recvBuf, recvNext := x'.st.recvNext, readCh := x'.st.readCh)
    ensures EndsInv(x', y)
  {
  }

  lemma RecvAckKeeps(x: End, y: End, q: nat)
    requires EndsInv(x, y)
    ensures EndsInv(DoRecvAck(x, y, q), y)
  {
    if x.inTable && q in y.acks {
      RecvAckKeepsSender(x, y, q);
      HandleAckShape(x.st, q);
    }
  }

  lemma RecvAckKeepsSender(x: End, y: End, q: nat)
    requires SenderInv(x)
    ensures SenderInv(DoRecvAck(x, y, q))
  {
    if q in x.st.sendBuf {
      RemoveShrinks(x.st.sendBuf, q);
    }
  }

  lemma HandleAckShape(st: Stream, q: nat)
    ensures var st' := HandleAck(st, q);
            && st' == st.(sendBuf := st'.sendBuf, sendWin := st'.sendWin, cwnd := st'.cwnd)
            && st'.sendBuf == st.sendBuf - {q}
  {
    if q !in st.sendBuf {
      assert st.sendBuf - {q} == st.sendBuf;
    }
  }

  lemma TickKeeps(x: End, y: End, order: seq<nat>, now: int, sends: nat)
    requires EndsInv(x, y)
    requires |y.log| < SEQ_MOD
    ensures EndsInv(DoTick(x, order, now, sends), y)
  {
    var (scanned, resent) := Scan(x.st, order, now);
    ScanFrame(x.st, order, now);
    var x1 := x.(st := scanned, frames := x.frames + FramesOf(x.st, resent));
    assert EndsInv(x1, y);
    DeliverKeeps(y, x1, sends);
    DeliverFrame(x1.st, sends);
    if x.started && Walks(order, x.st.sendBuf.Keys) {
      assert DoTick(x, order, now, sends) == Arrive(x1, DeliverOrdered(scanned, sends));
    }
  }

  lemma CloseKeeps(x: End, y: End)
    requires EndsInv(x, y)
    requires |x.log| + 1 < SEQ_MOD || x.st.closed || !x.started
    ensures EndsInv(DoClose(x), y)
  {
    if x.started && !x.st.closed {
      CloseKeepsSender(x, y);
      GrowLog(x, y, Control);
    }
  }

  lemma CloseKeepsSender(x: End, y: End)
    requires EndsInv(x, y)
    requires |x.log| + 1 < SEQ_MOD && x.started && !x.st.closed
    ensures SenderInv(DoClose(x))
  {
    GrowLog(x, y, Control);
    CloseShape(x);
    CloseSpent(x.log, x.closes);
  }

  lemma CloseShape(x: End)
    requires x.st.sendSeq == |x.log| && |x.log| + 1 < SEQ_MOD && x.started && !x.st.closed
    ensures DoClose(x) == x.(st := x.st.(closed := true, sendSeq := |x.log| + 1), inTable := false,
                             log := x.log + [Control], closes := x.closes + {|x.log| + 1})
  {
  }

  lemma CloseSpent(log: seq<Slot>, closes: set<nat>)
    requires ClosesOk(log + [Control], closes)
    ensures ClosesOk(log + [Control], closes + {|log| + 1})
  {
  }

  lemma RecvCloseKeeps(x: End, y: End, q: nat)
    requires EndsInv(x, y)
    ensures EndsInv(DoRecvClose(x, y, q), y)
  {
  }

  lemma RecvOpenKeeps(x: End, y: End)
    requires EndsInv(x, y)
    ensures EndsInv(Move(x, y, RecvOpen), y)
  {
  }

  lemma SessionCloseKeeps(x: End, y: End)
    requires EndsInv(x, y)
    ensures EndsInv(Move(x, y, SessionClose), y)
  {
  }

  lemma MoveKeeps(x: End, y: End, act: Act)
    requires EndsInv(x, y)
    requires |Move(x, y, act).log| < SEQ_MOD && |y.log| < SEQ_MOD
    ensures EndsInv(Move(x, y, act), y)
  {
    if act.RecvOpen? || act.RecvData? || act.RecvAck? || act.RecvClose? {
      PacketKeeps(x, y, act);
    } else {
      CallKeeps(x, y, act);
    }
  }

  /** A packet from the other end. */
  lemma PacketKeeps(x: End, y: End, act: Act)
    requires EndsInv(x, y) && |y.log| < SEQ_MOD
    requires act.RecvOpen? || act.RecvData? || act.RecvAck? || act.RecvClose?
    ensures EndsInv(Move(x, y, act), y)
  {
    match act
    case RecvOpen => RecvOpenKeeps(x, y);
    case RecvData(q, d) =>
      if x.inTable && (q, d) in y.frames {
        RecvDataKeeps(x, y, q, d);
      }
    case RecvAck(q) => RecvAckKeeps(x, y, q);
    case RecvClose(q) => RecvCloseKeeps(x, y, q);
  }

  /** A call of the stream's owner, or a tick. */
  lemma CallKeeps(x: End, y: End, act: Act)
    requires EndsInv(x, y) && |Move(x, y, act).log| < SEQ_MOD && |y.log| < SEQ_MOD
    requires act.Write? || act.Read? || act.Tick? || act.Close? || act.SessionClose?
    ensures EndsInv(Move(x, y, act), y)
  {
    match act
    case Write(chunk, now) =>
      if x.started && 0 < |chunk| <= MAX_PAYLOAD && x.st.sendWin < x.st.cwnd {
        WriteKeeps(x, y, chunk, now);
      }
    case Read(n, eof) => ReadKeeps(x, y, n, eof);
    case Tick(order, now, sends) => TickKeeps(x, y, order, now, sends);
    case Close => CloseKeeps(x, y);
    case SessionClose => SessionCloseKeeps(x, y);
  }

  // ---------- whole runs ----------

  ghost predicate Inv(s: Sys) {
    EndsInv(s.a, s.b) && s.a.opener && s.a.start == 1
  }

  lemma InitInv(acceptStart: nat)
    requires acceptStart == 1 || acceptStart == 2
    ensures Inv(Init(acceptStart)) && NoWrap(Init(acceptStart))
  {
    var s := Init(acceptStart);
    InitEnds(acceptStart);
    InitLink(s.a, s.b);
    InitLink(s.b, s.a);
  }

  lemma InitEnds(acceptStart: nat)
    requires acceptStart == 1 || acceptStart == 2
    ensures var s := Init(acceptStart); ReaderInv(s.a) && ReaderInv(s.b) && SenderInv(s.a) && SenderInv(s.b)
  {
  }

  lemma InitLink(s: End, r: End)
    requires s.log == [] || s.log == [Control]
    requires r.arrived == [] && r.acks == {} && r.st.recvBuf == map[] && r.start <= |s.log| + 1
    ensures Link(s, r)
  {
  }

  lemma MoveGrows(x: End, y: End, act: Act)
    ensures x.log <= Move(x, y, act).log
    ensures Move(x, y, act).start == x.start && Move(x, y, act).opener == x.opener
  {
  }

  lemma {:induction false} RunInv(acceptStart: nat, steps: seq<(bool, Act)>)
    requires acceptStart == 1 || acceptStart == 2
    requires NoWrap(Run(Init(acceptStart), steps))
    ensures Inv(Run(Init(acceptStart), steps))
    ensures Run(Init(acceptStart), steps).b.start == acceptStart
  {
    if steps == [] {
      InitInv(acceptStart);
    } else {
      var before := Run(Init(acceptStart), steps[..|steps| - 1]);
      var (atOpener, act) := steps[|steps| - 1];
      MoveGrows(before.a, before.b, act);
      MoveGrows(before.b, before.a, act);
      RunInv(acceptStart, steps[..|steps| - 1]);
      if atOpener {
        MoveKeeps(before.a, before.b, act);
      } else {
        MoveKeeps(before.b, before.a, act);
      }
    }
  }

  /** The chunks that arrived are the data of the first numbers, in order. */
  lemma {:induction false} ArrivedIsWritten(log: seq<Slot>, arrived: seq<seq<byte>>)
    requires ArrivedOk(log, 1, arrived)
    ensures Flatten(arrived) == Written(log[..|arrived|])
  {
    if arrived != [] {
      assert Holds(log, 1, arrived[0]);
      forall i | 0 <= i < |arrived| - 1 ensures Holds(log[1..], 1 + i, arrived[1..][i]) {
        assert Holds(log, 1 + (i + 1), arrived[i + 1]);
      }
      ArrivedIsWritten(log[1..], arrived[1..]);
      assert log[..|arrived|][1..] == log[1..][..|arrived| - 1];
    }
  }

  lemma {:induction false} WrittenGrows(log: seq<Slot>, n: nat)
    requires n <= |log|
    ensures Written(log[..n]) <= Written(log)
  {
    if n > 0 {
      WrittenGrows(log[1..], n - 1);
      assert log[..n][1..] == log[1..][..n - 1];
    }
  }

  /** The same when the reader waits for number 2 and number 1 was a control packet. */
  lemma ArrivedFrom(log: seq<Slot>, start: nat, arrived: seq<seq<byte>>)
    requires ArrivedOk(log, start, arrived) && (start == 1 || (start == 2 && log != [] && log[0] == Control))
    ensures Flatten(arrived) == Written(log[..start + |arrived| - 1]) <= Written(log)
  {
    if start == 1 {
      ArrivedIsWritten(log, arrived);
    } else {
      forall i | 0 <= i < |arrived| ensures Holds(log[1..], 1 + i, arrived[i]) {
        assert Holds(log, 2 + i, arrived[i]);
      }
      ArrivedIsWritten(log[1..], arrived);
      assert log[..1 + |arrived|][1..] == log[1..][..|arrived|];
    }
    WrittenGrows(log, start + |arrived| - 1);
  }

  /**
   What r has read, then buffers, then queues, is the data of all numbers below the next
   one it waits for, in order, and so a prefix of what s has written.
   */
  ghost predicate Delivered(s: End, r: End) {
    && 1 <= Floor(r) <= |s.log| + 1 && r.st.recvNext == Floor(r) % SEQ_MOD
    && r.got + r.st.readBuf + Flatten(r.st.readCh) == Written(s.log[..Floor(r) - 1])
    && r.got + r.st.readBuf + Flatten(r.st.readCh) <= Written(s.log)
  }

  lemma LinkDelivered(s: End, r: End)
    requires LogOk(s.log, s.opener) && ReaderInv(r) && ArrivedOk(s.log, r.start, r.arrived)
    requires r.start == 1 || (r.start == 2 && s.opener)
    ensures Delivered(s, r)
  {
    BytesInOrder(r.got, r.st.readBuf, r.st.readCh, r.arrived);
    ArrivedFrom(s.log, r.start, r.arrived);
  }

  /**
   Exactly-once, in-order delivery in both directions: in every run, for both choices of
   the acceptor's first number.
   */
  lemma {:induction false} ExactlyOnceInOrder(acceptStart: nat, steps: seq<(bool, Act)>)
    requires acceptStart == 1 || acceptStart == 2
    requires NoWrap(Run(Init(acceptStart), steps))
    ensures var s := Run(Init(acceptStart), steps);
            Delivered(s.a, s.b) && Delivered(s.b, s.a)
  {
    RunInv(acceptStart, steps);
    var s := Run(Init(acceptStart), steps);
    LinkDelivered(s.a, s.b);
    LinkDelivered(s.b, s.a);
  }

  /**
   No loss: while a reader is open, every chunk its peer ever sent is still in the peer's
   send buffer, was delivered, or waits in the reorder buffer, always with its own bytes.
   */
  ghost predicate NothingLost(s: End, r: End) {
    !r.st.closed ==>
      forall q: nat :: IsData(s.log, q) ==>
        || (q in s.st.sendBuf && s.st.sendBuf[q].data == s.log[q - 1].bytes)
        || (r.start <= q < r.start + |r.arrived| && r.arrived[q - r.start] == s.log[q - 1].bytes)
        || (q in r.st.recvBuf && r.st.recvBuf[q] == s.log[q - 1].bytes)
  }

  lemma LinkNothingLost(s: End, r: End)
    requires SenderInv(s) && ReaderInv(r) && Link(s, r)
    requires r.start == 1 || (r.start == 2 && s.opener)
    ensures NothingLost(s, r)
  {
    if !r.st.closed {
      forall q: nat | IsData(s.log, q)
        ensures || (q in s.st.sendBuf && s.st.sendBuf[q].data == s.log[q - 1].bytes)
                || (r.start <= q < r.start + |r.arrived| && r.arrived[q - r.start] == s.log[q - 1].bytes)
                || (q in r.st.recvBuf && r.st.recvBuf[q] == s.log[q - 1].bytes)
      {
        if q in s.st.sendBuf {
          assert Holds(s.log, q, s.st.sendBuf[q].data);
        } else if q < Floor(r) {
          assert Holds(s.log, r.start + (q - r.start), r.arrived[q - r.start]);
        } else {
          assert Holds(s.log, q, r.st.recvBuf[q]);
        }
      }
    }
  }

  lemma {:induction false} NoLoss(acceptStart: nat, steps: seq<(bool, Act)>)
    requires acceptStart == 1 || acceptStart == 2
    requires NoWrap(Run(Init(acceptStart), steps))
    ensures var s := Run(Init(acceptStart), steps);
            NothingLost(s.a, s.b) && NothingLost(s.b, s.a)
  {
    RunInv(acceptStart, steps);
    var s := Run(Init(acceptStart), steps);
    LinkNothingLost(s.a, s.b);
    LinkNothingLost(s.b, s.a);
  }

  /** The send window is counted exactly and bounded in every run, and so is the congestion window. */
  lemma WindowBounds(acceptStart: nat, steps: seq<(bool, Act)>)
    requires acceptStart == 1 || acceptStart == 2
    requires NoWrap(Run(Init(acceptStart), steps))
    ensures var s := Run(Init(acceptStart), steps);
            && s.a.st.sendWin == |s.a.st.sendBuf| <= 128 && 4 <= s.a.st.cwnd <= 128
            && s.b.st.sendWin == |s.b.st.sendBuf| <= 128 && 4 <= s.b.st.cwnd <= 128
  {
    RunInv(acceptStart, steps);
  }

  /**
   As the program numbers its packets (the acceptor waits for number 1, which the opener
   spent on OPEN), nothing the opener writes ever reaches the acceptor's reader.
   */
  lemma OpenerDirectionStuck(steps: seq<(bool, Act)>)
    requires NoWrap(Run(Init(1), steps))
    ensures var b := Run(Init(1), steps).b;
            && b.st.recvNext == 1
            && b.got == [] && b.st.readBuf == [] && b.st.readCh == []
  {
    RunInv(1, steps);
    NothingArrives(Run(Init(1), steps).a, Run(Init(1), steps).b);
  }

  lemma FirstArrived(log: seq<Slot>, arrived: seq<seq<byte>>)
    requires ArrivedOk(log, 1, arrived)
    ensures arrived != [] ==> log != [] && log[0] == Data(arrived[0])
  {
    assert arrived != [] ==> Holds(log, 1 + 0, arrived[0]);
  }

  lemma NothingArrives(s: End, r: End)
    requires LogOk(s.log, true) && ArrivedOk(s.log, 1, r.arrived) && r.start == 1 && ReaderInv(r)
    ensures r.st.recvNext == 1 && r.got == [] && r.st.readBuf == [] && r.st.readCh == []
  {
    FirstArrived(s.log, r.arrived);
  }
}
