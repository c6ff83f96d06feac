/**
 When a Grouk stream closes and what its reader is told, over whole runs of two ends and a
 network that drops, duplicates and reorders.
 */
module GroukLife {
  import opened Bytes
  import opened Reader
  import opened Grouk
  import opened GroukLoss
  import opened GroukNet
  import opened GroukComplete

  // ---------- what Read answers ----------

  /** Chunks that arrived are not empty. */
  lemma ArrivedFull(log: seq<Slot>, opener: bool, start: nat, arrived: seq<seq<byte>>)
    requires LogOk(log, opener) && ArrivedOk(log, start, arrived) && 1 <= start
    ensures forall i :: 0 <= i < |arrived| ==> arrived[i] != []
  {
    forall i | 0 <= i < |arrived| ensures arrived[i] != [] {
      assert Holds(log, start + i, arrived[i]);
    }
  }

  /** The answers of r, from the data of the numbers below the next one it waits for. */
  ghost predicate ReadsBelow(s: End, r: End) {
    && 1 <= Floor(r) <= |s.log| + 1
    && forall n: nat, eof ::
         ReadsAll(Grouk.Read(r.st, n, eof).1, r.got, Written(s.log[..Floor(r) - 1]), r.st.closed, n, eof)
  }

  lemma LinkReads(s: End, r: End)
    requires LogOk(s.log, s.opener) && ReaderInv(r) && ArrivedOk(s.log, r.start, r.arrived)
    requires r.start == 1 || (r.start == 2 && s.opener)
    ensures ReadsBelow(s, r)
  {
    ArrivedFull(s.log, s.opener, r.start, r.arrived);
    ArrivedFrom(s.log, r.start, r.arrived);
    forall n: nat, eof
      ensures ReadsAll(Grouk.Read(r.st, n, eof).1, r.got, Written(s.log[..Floor(r) - 1]), r.st.closed, n, eof)
    {
      ReadsArrived(r.got, r.st.readBuf, r.st.readCh, r.st.closed, r.arrived, n, eof);
    }
  }

  /**
   In every run, at either end: an open reader is never told end of file and waits exactly
   when it has returned everything delivered in order; a closed one never waits, and is
   told end of file always once it has returned everything.
   */
  lemma {:induction false} ReadAnswers(acceptStart: nat, steps: seq<(bool, Act)>)
    requires acceptStart == 1 || acceptStart == 2
    requires NoWrap(Run(Init(acceptStart), steps))
    ensures var s := Run(Init(acceptStart), steps);
            ReadsBelow(s.a, s.b) && ReadsBelow(s.b, s.a)
  {
    RunInv(acceptStart, steps);
    var s := Run(Init(acceptStart), steps);
    LinkReads(s.a, s.b);
    LinkReads(s.b, s.a);
  }

  // ---------- what closes a stream ----------

  /** The actions that close an end which is still open. */
  ghost predicate Closes(x: End, y: End, act: Act) {
    match act
    case Close => x.started
    case SessionClose => x.started
    case RecvClose(q) => q in y.closes && x.inTable
    case Tick(order, now, sends) =>
      && x.started && Walks(order, x.st.sendBuf.Keys)
      && exists q :: Late(x.st.sendBuf, q, now) && x.st.sendBuf[q].retries >= 10
    case _ => false
  }

  lemma MoveCloses(x: End, y: End, act: Act)
    requires WindowInv(x.st)
    ensures Move(x, y, act).st.closed <==> x.st.closed || Closes(x, y, act)
  {
    match act
    case RecvData(q, d) => DeliverFrame(x.st.(recvBuf := x.st.recvBuf[q := d]), 0);
    case Tick(order, now, sends) =>
      ScanFrame(x.st, order, now);
      DeliverFrame(Scan(x.st, order, now).0, sends);
      if Walks(order, x.st.sendBuf.Keys) && !x.st.closed {
        TickClosesExactly(x.st, order, now);
      }
    case _ =>
  }

  /** Some action of the run closed the opener (`true`) or the acceptor. */
  ghost predicate ClosedBy(s: Sys, steps: seq<(bool, Act)>, atOpener: bool) {
    exists i :: 0 <= i < |steps| && ClosedAt(s, steps, atOpener, i)
  }

  ghost predicate ClosedAt(s: Sys, steps: seq<(bool, Act)>, atOpener: bool, i: nat)
    requires i < |steps|
  {
    var before := Run(s, steps[..i]);
    steps[i].0 == atOpener &&
    if atOpener then Closes(before.a, before.b, steps[i].1) else Closes(before.b, before.a, steps[i].1)
  }

  lemma ClosedBySnoc(s: Sys, steps: seq<(bool, Act)>, atOpener: bool)
    requires steps != []
    ensures ClosedBy(s, steps, atOpener) <==>
            ClosedBy(s, steps[..|steps| - 1], atOpener) || ClosedAt(s, steps, atOpener, |steps| - 1)
  {
    var init := steps[..|steps| - 1];
    assert forall i :: 0 <= i < |init| ==> init[..i] == steps[..i];
    if ClosedBy(s, steps, atOpener) {
      var i :| 0 <= i < |steps| && ClosedAt(s, steps, atOpener, i);
      if i < |init| {
        assert ClosedAt(s, init, atOpener, i);
      }
    }
    if ClosedBy(s, init, atOpener) {
      var i :| 0 <= i < |init| && ClosedAt(s, init, atOpener, i);
      assert ClosedAt(s, steps, atOpener, i);
    }
  }

  /**
   An end of a stream is closed exactly when one of its actions closed it: its own Close,
   the end of the session, a CLOSE packet that found it in the table, or a tick that found
   a chunk late which was sent again ten times already.
   */
  lemma {:induction false} ClosedExactly(acceptStart: nat, steps: seq<(bool, Act)>)
    requires acceptStart == 1 || acceptStart == 2
    requires NoWrap(Run(Init(acceptStart), steps))
    ensures var s := Run(Init(acceptStart), steps);
            && (s.a.st.closed <==> ClosedBy(Init(acceptStart), steps, true))
            && (s.b.st.closed <==> ClosedBy(Init(acceptStart), steps, false))
  {
    if steps != [] {
      var init := steps[..|steps| - 1];
      var before := Run(Init(acceptStart), init);
      var (atOpener, act) := steps[|steps| - 1];
      NoWrapBefore(before, (atOpener, act));
      RunInv(acceptStart, init);
      ClosedExactly(acceptStart, init);
      ClosedBySnoc(Init(acceptStart), steps, true);
      ClosedBySnoc(Init(acceptStart), steps, false);
      if atOpener {
        MoveCloses(before.a, before.b, act);
      } else {
        MoveCloses(before.b, before.a, act);
      }
    }
  }

  // ---------- what moves the window ----------

  /** Nothing but acks and ticks changes the congestion window, and only ticks change the threshold. */
  lemma WindowMoves(x: End, y: End, act: Act)
    ensures var x' := Move(x, y, act);
            && (!act.RecvAck? && !act.Tick? ==> x'.st.cwnd == x.st.cwnd)
            && (!act.Tick? ==> x'.st.ssthresh == x.st.ssthresh)
            && (act.RecvAck? ==>
                  var more := x.inTable && act.q in y.acks && act.q in x.st.sendBuf && x.st.cwnd < 128;
                  x'.st.cwnd == if more then x.st.cwnd + 1 else x.st.cwnd)
  {
    match act
    case RecvData(q, d) => DeliverFrame(x.st.(recvBuf := x.st.recvBuf[q := d]), 0);
    case _ =>
  }

  // ---------- what a packet and a tick deliver ----------

  /** The read channel is full, or the next chunk is not there. */
  predicate CaughtUp(st: Stream) {
    |st.readCh| == 256 || st.recvNext !in st.recvBuf
  }

  /** The action ends in a call of deliverOrdered. */
  ghost predicate Delivers(x: End, y: End, act: Act) {
    match act
    case RecvData(q, d) => x.inTable && (q, d) in y.frames
    case Tick(order, now, sends) => x.started && Walks(order, x.st.sendBuf.Keys)
    case _ => false
  }

  /** A DATA packet is kept and acked by an open end, and a closed one only acks it. */
  lemma DataTaken(x: End, y: End, q: nat, d: seq<byte>)
    requires x.inTable && (q, d) in y.frames && x.st.recvNext < SEQ_MOD && |x.st.readCh| <= 256
    ensures var x' := Move(x, y, RecvData(q, d));
            && x'.acks == x.acks + {q}
            && (x.st.closed ==> x' == x.(acks := x.acks + {q}))
            && (!x.st.closed ==> AllMoved(x.st.(recvBuf := x.st.recvBuf[q := d]), x'.st))
  {
    if x.st.closed {
      ArriveNothing(x, x.st);
    } else {
      DeliverMaximal(x.st.(recvBuf := x.st.recvBuf[q := d]), 0);
    }
  }

  /** After every packet and every tick, an end that is open has nothing left to deliver. */
  lemma MoveDelivers(x: End, y: End, act: Act)
    requires ReaderInv(x) && WindowInv(x.st) && Delivers(x, y, act) && !Move(x, y, act).st.closed
    ensures CaughtUp(Move(x, y, act).st)
  {
    match act
    case RecvData(q, d) => DataTaken(x, y, q, d);
    case Tick(order, now, sends) =>
      ScanFrame(x.st, order, now);
      TickDelivers(x, Scan(x.st, order, now).0, sends);
  }

  lemma TickDelivers(x: End, st: Stream, sends: nat)
    requires ReaderInv(x) && st == x.st.(sendBuf := st.sendBuf, cwnd := st.cwnd, ssthresh := st.ssthresh, closed := st.closed)
    requires !DeliverOrdered(st, sends).closed
    ensures CaughtUp(DeliverOrdered(st, sends))
  {
    DeliverFrame(st, sends);
    DeliverMaximal(st, sends);
  }

  lemma {:induction false} DeliveredInRuns(acceptStart: nat, steps: seq<(bool, Act)>, act: Act)
    requires acceptStart == 1 || acceptStart == 2
    requires NoWrap(Run(Init(acceptStart), steps))
    ensures var s := Run(Init(acceptStart), steps);
            && (Delivers(s.a, s.b, act) && !Move(s.a, s.b, act).st.closed ==> CaughtUp(Move(s.a, s.b, act).st))
            && (Delivers(s.b, s.a, act) && !Move(s.b, s.a, act).st.closed ==> CaughtUp(Move(s.b, s.a, act).st))
  {
    RunInv(acceptStart, steps);
    var s := Run(Init(acceptStart), steps);
    if Delivers(s.a, s.b, act) && !Move(s.a, s.b, act).st.closed {
      MoveDelivers(s.a, s.b, act);
    }
    if Delivers(s.b, s.a, act) && !Move(s.b, s.a, act).st.closed {
      MoveDelivers(s.b, s.a, act);
    }
  }

  // ---------- the window before the first loss ----------

  function DataCount(log: seq<Slot>): nat {
    if log == [] then 0 else DataCount(log[..|log| - 1]) + if log[|log| - 1].Data? then 1 else 0
  }

  lemma DataCountSnoc(log: seq<Slot>, slot: Slot)
    ensures DataCount(log + [slot]) == DataCount(log) + if slot.Data? then 1 else 0
  {
    assert (log + [slot])[..|log|] == log;
  }

  /** One for every chunk acked, from 16 up to 128; the threshold is still 64. */
  ghost predicate Growing(x: End) {
    var acked := DataCount(x.log) - x.st.sendWin;
    x.st.ssthresh == 64 && acked >= 0 && x.st.cwnd == if 16 + acked < 128 then 16 + acked else 128
  }

  ghost predicate NoneLate(sendBuf: map<nat, SendEntry>, now: int) {
    forall q :: !Late(sendBuf, q, now)
  }

  /** One end, and the other. */
  function EndOf(s: Sys, atOpener: bool): End {
    if atOpener then s.a else s.b
  }

  /** No tick at that end found a chunk late. */
  ghost predicate NoLoss(s: Sys, steps: seq<(bool, Act)>, atOpener: bool) {
    if steps == [] then true
    else
      var init, step := steps[..|steps| - 1], steps[|steps| - 1];
      && NoLoss(s, init, atOpener)
      && (step.0 == atOpener && step.1.Tick? ==> NoneLate(EndOf(Run(s, init), atOpener).st.sendBuf, step.1.now))
  }

  lemma {:induction false} NothingLate(st: Stream, order: seq<nat>, now: int)
    requires NoneLate(st.sendBuf, now)
    ensures Scan(st, order, now) == (st, [])
    decreases |order|
  {
    if order != [] {
      assert !Late(st.sendBuf, order[0], now);
      NothingLate(st, order[1..], now);
    }
  }

  lemma MoveGrowing(x: End, y: End, act: Act)
    requires Growing(x) && WindowInv(x.st)
    requires act.Tick? ==> NoneLate(x.st.sendBuf, act.now)
    ensures Growing(Move(x, y, act))
  {
    match act
    case Write(chunk, now) => DataCountSnoc(x.log, Data(chunk));
    case Close => DataCountSnoc(x.log, Control);
    case RecvData(q, d) => DeliverFrame(x.st.(recvBuf := x.st.recvBuf[q := d]), 0);
    case Tick(order, now, sends) =>
      NothingLate(x.st, order, now);
      DeliverFrame(x.st, sends);
    case _ =>
  }

  lemma StepGrowing(s: Sys, step: (bool, Act), atOpener: bool)
    requires Growing(EndOf(s, atOpener)) && WindowInv(EndOf(s, atOpener).st)
    requires step.0 == atOpener && step.1.Tick? ==> NoneLate(EndOf(s, atOpener).st.sendBuf, step.1.now)
    ensures Growing(EndOf(Next(s, step), atOpener))
  {
    if step.0 == atOpener {
      MoveGrowing(EndOf(s, atOpener), EndOf(s, !atOpener), step.1);
    }
  }

  lemma NoWrapBefore(s: Sys, step: (bool, Act))
    requires NoWrap(Next(s, step))
    ensures NoWrap(s)
  {
    MoveGrows(s.a, s.b, step.1);
    MoveGrows(s.b, s.a, step.1);
  }

  /** Until an end loses a packet its congestion window counts its acks. */
  lemma {:induction false} WindowWithoutLoss(acceptStart: nat, steps: seq<(bool, Act)>, atOpener: bool)
    requires acceptStart == 1 || acceptStart == 2
    requires NoWrap(Run(Init(acceptStart), steps)) && NoLoss(Init(acceptStart), steps, atOpener)
    ensures Growing(EndOf(Run(Init(acceptStart), steps), atOpener))
  {
    if steps == [] {
      assert DataCount([Control]) == 0;
    } else {
      var init, step := steps[..|steps| - 1], steps[|steps| - 1];
      NoWrapBefore(Run(Init(acceptStart), init), step);
      RunInv(acceptStart, init);
      WindowWithoutLoss(acceptStart, init, atOpener);
      StepGrowing(Run(Init(acceptStart), init), step, atOpener);
    }
  }
}
