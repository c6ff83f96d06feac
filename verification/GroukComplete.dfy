/**
 Nothing is stuck: once the sender's buffer is empty, delivering and reading in turn
 returns every byte that was written, in every direction whose numbering lines up.
 */
module GroukComplete {
  import opened Bytes
  import opened Reader
  import opened Grouk
  import opened GroukNet

  /** The number j places after `from`. */
  function Nth(from: nat, j: nat): nat {
    (from + j) % SEQ_MOD
  }

  lemma NthShift(from: nat, j: nat)
    ensures Nth(NextSeq(from), j) == Nth(from, j + 1)
  {
  }

  /** The m numbers from `from` on. */
  function Numbers(from: nat, m: nat): set<nat> {
    set j | 0 <= j < m :: Nth(from, j)
  }

  /**
   The read channel got the m chunks from the next number on, in order; these, and the
   numbers in `lost`, are gone from the reorder buffer.
   */
  ghost predicate Moved(st: Stream, st': Stream, m: nat, lost: set<nat>) {
    && |st'.readCh| == |st.readCh| + m && st'.readCh[..|st.readCh|] == st.readCh
    && st'.recvNext == Nth(st.recvNext, m)
    && (forall j :: 0 <= j < m ==>
          && Nth(st.recvNext, j) in st.recvBuf
          && st'.readCh[|st.readCh| + j] == st.recvBuf[Nth(st.recvNext, j)])
    && st'.recvBuf == st.recvBuf - Numbers(st.recvNext, m) - lost
  }

  lemma NoneMoved(st: Stream, st': Stream, lost: set<nat>)
    requires st.recvNext < SEQ_MOD && st' == st.(recvBuf := st.recvBuf - lost)
    ensures Moved(st, st', 0, lost)
  {
    assert Numbers(st.recvNext, 0) == {};
    assert st.recvBuf - {} == st.recvBuf;
  }

  /** The state after the first chunk was moved. */
  function MoveFirst(st: Stream): Stream
    requires st.recvNext in st.recvBuf
  {
    st.(recvBuf := st.recvBuf - {st.recvNext}, readCh := st.readCh + [st.recvBuf[st.recvNext]], recvNext := NextSeq(st.recvNext))
  }

  lemma DeliverSteps(st: Stream, sends: nat)
    requires st.recvNext in st.recvBuf && |st.readCh| < 256 && (st.closed ==> sends > 0)
    ensures DeliverOrdered(st, sends) == DeliverOrdered(MoveFirst(st), if st.closed then sends - 1 else sends)
    ensures |MoveFirst(st).recvBuf| < |st.recvBuf|
  {
    RemoveShrinks(st.recvBuf, st.recvNext);
  }

  /** The longest run that the channel has room for was moved, and nothing else happened. */
  ghost predicate AllMoved(st: Stream, st': Stream) {
    && |st.readCh| <= |st'.readCh| <= 256 && Moved(st, st', |st'.readCh| - |st.readCh|, {})
    && (|st'.readCh| == 256 || st'.recvNext !in st'.recvBuf)
    && st'.closed == st.closed
  }

  lemma AllMovedNext(st: Stream, st': Stream)
    requires st.recvNext < SEQ_MOD && st.recvNext in st.recvBuf && AllMoved(MoveFirst(st), st')
    ensures AllMoved(st, st')
  {
    OneMoreMoved(st, st', |st'.readCh| - |st.readCh| - 1, {});
  }

  /**
   One call of deliverOrdered on an open stream moves the longest run of consecutive
   chunks that the channel has room for, and nothing else.
   */
  lemma DeliverMaximal(st: Stream, sends: nat)
    requires !st.closed && |st.readCh| <= 256 && st.recvNext < SEQ_MOD
    ensures AllMoved(st, DeliverOrdered(st, sends))
    decreases |st.recvBuf|
  {
    if st.recvNext !in st.recvBuf || |st.readCh| == 256 {
      assert st.recvBuf - {} == st.recvBuf;
      NoneMoved(st, st, {});
    } else {
      DeliverSteps(st, sends);
      DeliverMaximal(MoveFirst(st), sends);
      AllMovedNext(st, DeliverOrdered(MoveFirst(st), sends));
    }
  }

  /** At most `sends` chunks of the run were moved, and the next one is lost if it is there. */
  ghost predicate MovedAndLost(st: Stream, st': Stream, sends: nat) {
    && |st.readCh| <= |st'.readCh| <= 256 && |st'.readCh| - |st.readCh| <= sends
    && Moved(st, st', |st'.readCh| - |st.readCh|, {st'.recvNext})
    && (|st'.readCh| - |st.readCh| < sends && |st'.readCh| < 256 ==>
          st'.recvNext !in st.recvBuf - Numbers(st.recvNext, |st'.readCh| - |st.readCh|))
    && st'.closed == st.closed
  }

  lemma LostNext(st: Stream, st': Stream, sends: nat)
    requires st.recvNext < SEQ_MOD && st.recvNext in st.recvBuf && sends > 0 && MovedAndLost(MoveFirst(st), st', sends - 1)
    ensures MovedAndLost(st, st', sends)
  {
    var m := |st'.readCh| - |st.readCh| - 1;
    OneMoreMoved(st, st', m, {st'.recvNext});
    NumbersStep(st.recvNext, m);
    assert st.recvBuf - Numbers(st.recvNext, m + 1) == MoveFirst(st).recvBuf - Numbers(MoveFirst(st).recvNext, m);
  }

  /** On a closed stream a call moves a part of the same run, and may lose the chunk it holds. */
  lemma DeliverClosed(st: Stream, sends: nat)
    requires st.closed && |st.readCh| <= 256 && st.recvNext < SEQ_MOD
    ensures MovedAndLost(st, DeliverOrdered(st, sends), sends)
    decreases |st.recvBuf|
  {
    if st.recvNext !in st.recvBuf || |st.readCh| == 256 || sends == 0 {
      assert st.recvNext !in st.recvBuf ==> st.recvBuf - {st.recvNext} == st.recvBuf;
      LoseOne(st, sends);
    } else {
      DeliverSteps(st, sends);
      DeliverClosed(MoveFirst(st), sends - 1);
      LostNext(st, DeliverOrdered(MoveFirst(st), sends - 1), sends);
    }
  }

  lemma LoseOne(st: Stream, sends: nat)
    requires |st.readCh| <= 256 && st.recvNext < SEQ_MOD
    requires st.recvNext !in st.recvBuf || |st.readCh| == 256 || sends == 0
    ensures MovedAndLost(st, st.(recvBuf := st.recvBuf - {st.recvNext}), sends)
  {
    NoneMoved(st, st.(recvBuf := st.recvBuf - {st.recvNext}), {st.recvNext});
  }

  lemma OneMoreMoved(st: Stream, st': Stream, m: nat, lost: set<nat>)
    requires st.recvNext < SEQ_MOD && st.recvNext in st.recvBuf && Moved(MoveFirst(st), st', m, lost)
    ensures Moved(st, st', m + 1, lost)
  {
    var st1, next := MoveFirst(st), st.recvNext;
    NthShift(next, m);
    assert Nth(next, 0) == next;
    assert st'.readCh[|st.readCh|] == st1.readCh[|st.readCh|];
    forall j | 0 < j < m + 1
      ensures Nth(next, j) in st.recvBuf && st'.readCh[|st.readCh| + j] == st.recvBuf[Nth(next, j)]
    {
      NthShift(next, j - 1);
      assert st'.readCh[|st1.readCh| + (j - 1)] == st1.recvBuf[Nth(st1.recvNext, j - 1)];
    }
    NumbersStep(next, m);
    assert st.recvBuf - Numbers(next, m + 1) - lost == (st.recvBuf - {next}) - Numbers(st1.recvNext, m) - lost;
    assert st'.readCh[..|st.readCh|] == st'.readCh[..|st1.readCh|][..|st.readCh|];
  }

  lemma NumbersStep(from: nat, m: nat)
    requires from < SEQ_MOD
    ensures Numbers(from, m + 1) == Numbers(NextSeq(from), m) + {from}
  {
    assert Nth(from, 0) == from;
    forall k | k in Numbers(from, m + 1)
      ensures k in Numbers(NextSeq(from), m) + {from}
    {
      var j: nat :| 0 <= j < m + 1 && k == Nth(from, j);
      if j > 0 {
        NthShift(from, j - 1);
        assert k == Nth(NextSeq(from), j - 1);
      }
    }
    forall k | k in Numbers(NextSeq(from), m)
      ensures k in Numbers(from, m + 1)
    {
      var j: nat :| 0 <= j < m && k == Nth(NextSeq(from), j);
      NthShift(from, j);
      assert k == Nth(from, j + 1);
    }
  }

  // ---------- draining a reader ----------

  /** deliverOrdered, then a Read with a buffer of n bytes. */
  function DrainRound(r: End, n: nat): End {
    DoRead(Arrive(r, DeliverOrdered(r.st, 0)), n, false)
  }

  function Drain(r: End, sizes: seq<nat>): End
    decreases |sizes|
  {
    if sizes == [] then r else Drain(DrainRound(r, sizes[0]), sizes[1..])
  }

  /** The chunks up to the first number that was not spent on data. */
  function DataRun(log: seq<Slot>): seq<seq<byte>> {
    if log == [] || log[0].Control? then [] else [log[0].bytes] + DataRun(log[1..])
  }

  lemma {:induction false} DataRunStops(log: seq<Slot>)
    ensures |DataRun(log)| <= |log|
    ensures forall i :: 0 <= i < |DataRun(log)| ==> log[i] == Data(DataRun(log)[i])
    ensures |DataRun(log)| < |log| ==> log[|DataRun(log)|].Control?
  {
    if log != [] && log[0].Data? {
      DataRunStops(log[1..]);
    }
  }

  /** Chunks that arrived are the beginning of the run. */
  lemma ArrivedInRun(log: seq<Slot>, start: nat, arrived: seq<seq<byte>>)
    requires 1 <= start && ArrivedOk(log, start, arrived)
    ensures arrived <= DataRun(log[start - 1..])
  {
    var tail := log[start - 1..];
    DataRunStops(tail);
    var run := DataRun(tail);
    forall i | 0 <= i < |arrived| ensures tail[i] == Data(arrived[i]) {
      assert Holds(log, start + i, arrived[i]);
    }
    assert |arrived| <= |run|;
    assert arrived == run[..|arrived|];
  }

  /** What a reader has to return in the end. */
  function Expected(s: End, r: End): seq<byte>
    requires 1 <= r.start <= |s.log| + 1
  {
    Flatten(DataRun(s.log[r.start - 1..]))
  }

  /** The sender waits for no ack and the reader is open. */
  ghost predicate Quiet(s: End, r: End) {
    && |s.log| < SEQ_MOD && LogOk(s.log, s.opener) && s.st.sendBuf == map[]
    && r.started && !r.st.closed && 1 <= r.start
    && ReaderInv(r) && Link(s, r)
  }

  lemma GotIsPrefix(s: End, r: End)
    requires Quiet(s, r)
    ensures r.got + r.st.readBuf + Flatten(r.st.readCh) <= Expected(s, r)
  {
    ArrivedInRun(s.log, r.start, r.arrived);
    BytesInOrder(r.got, r.st.readBuf, r.st.readCh, r.arrived);
    FlattenPrefix(r.arrived, DataRun(s.log[r.start - 1..]));
  }

  lemma NextIsNotData(s: End, r: End)
    requires Quiet(s, r) && r.st.recvNext !in r.st.recvBuf
    ensures !IsData(s.log, Floor(r))
  {
    assert Kept(s.log, {}, Floor(r), r.st.recvBuf);
    assert IsData(s.log, Floor(r)) ==> Held(Floor(r), r.st.recvBuf, Floor(r));
  }

  /** When the reorder buffer has not got the next number, the whole run arrived. */
  lemma StuckMeansDone(s: End, r: End)
    requires Quiet(s, r) && r.st.recvNext !in r.st.recvBuf
    ensures r.arrived == DataRun(s.log[r.start - 1..])
  {
    var tail := s.log[r.start - 1..];
    ArrivedInRun(s.log, r.start, r.arrived);
    DataRunStops(tail);
    NextIsNotData(s, r);
    assert |r.arrived| < |tail| ==> tail[|r.arrived|] == s.log[Floor(r) - 1];
  }

  lemma DeliverQuiet(s: End, r: End)
    requires Quiet(s, r)
    ensures var r1 := Arrive(r, DeliverOrdered(r.st, 0));
            && Quiet(s, r1) && r1.got == r.got && r1.start == r.start
            && (r1.st.readCh == [] ==> r1.st.recvNext !in r1.st.recvBuf)
  {
    DeliverKeeps(s, r, 0);
    DeliverFrame(r.st, 0);
    DeliverMaximal(r.st, 0);
  }

  lemma ReadQuiet(s: End, r: End, n: nat)
    requires Quiet(s, r)
    ensures Quiet(s, DoRead(r, n, false)) && DoRead(r, n, false).start == r.start
  {
    ReadFrame(r.st, n, false);
    TakeConserves(r.got, r.st.readBuf, r.st.readCh, r.st.closed, r.arrived, n, false);
  }

  /** A Read that finds data returns at least one byte: no chunk is empty. */
  lemma ReadProgress(s: End, r: End, n: nat)
    requires Quiet(s, r) && n > 0
    requires r.st.readBuf != [] || r.st.readCh != []
    ensures |DoRead(r, n, false).got| > |r.got|
  {
    if r.st.readBuf == [] {
      var k := |r.arrived| - |r.st.readCh|;
      assert Holds(s.log, r.start + k, r.arrived[k]);
      assert r.st.readCh[0] == r.arrived[k];
    }
  }

  lemma RoundProgress(s: End, r: End, n: nat)
    requires Quiet(s, r) && n > 0
    ensures var r' := DrainRound(r, n);
            && Quiet(s, r') && r'.start == r.start
            && (|r'.got| > |r.got| || r.got == Expected(s, r))
  {
    var r1 := Arrive(r, DeliverOrdered(r.st, 0));
    DeliverQuiet(s, r);
    ReadQuiet(s, r1, n);
    if r1.st.readBuf != [] || r1.st.readCh != [] {
      ReadProgress(s, r1, n);
    } else {
      StuckMeansDone(s, r1);
      BytesInOrder(r1.got, r1.st.readBuf, r1.st.readCh, r1.arrived);
    }
  }

  /** With any positive buffer sizes, one round per missing byte is enough. */
  lemma {:induction false} DrainReturnsAll(s: End, r: End, sizes: seq<nat>)
    requires Quiet(s, r)
    requires forall i :: 0 <= i < |sizes| ==> sizes[i] > 0
    requires |r.got| + |sizes| >= |Expected(s, r)|
    ensures Drain(r, sizes).got == Expected(s, r)
    decreases |sizes|
  {
    GotIsPrefix(s, r);
    if sizes != [] {
      var r' := DrainRound(r, sizes[0]);
      RoundProgress(s, r, sizes[0]);
      GotIsPrefix(s, r');
      DrainReturnsAll(s, r', sizes[1..]);
    }
  }

  // ---------- what that means for the program ----------

  /** No data follows a control packet: nothing was written after the CLOSE packet. */
  ghost predicate NoDataAfterControl(log: seq<Slot>) {
    forall i, j :: 0 <= i < j < |log| && log[j].Data? ==> log[i].Data?
  }

  lemma {:induction false} WrittenData(log: seq<Slot>)
    requires forall i :: 0 <= i < |log| && log[i].Data? ==> log[i].bytes != []
    ensures Written(log) == [] <==> forall i :: 0 <= i < |log| ==> log[i].Control?
  {
    if log != [] {
      WrittenData(log[1..]);
      assert forall i :: 1 <= i < |log| ==> log[i] == log[1..][i - 1];
    }
  }

  lemma {:induction false} RunIsAll(log: seq<Slot>)
    requires forall i :: 0 <= i < |log| && log[i].Data? ==> log[i].bytes != []
    ensures Flatten(DataRun(log)) == Written(log) <==> NoDataAfterControl(log)
  {
    if log == [] {
    } else if log[0].Control? {
      WrittenData(log);
      assert NoDataAfterControl(log) <==> forall i :: 0 <= i < |log| ==> log[i].Control?;
    } else {
      var tail := log[1..];
      RunIsAll(tail);
      assert forall i :: 0 <= i < |tail| ==> tail[i] == log[i + 1];
      assert NoDataAfterControl(log) <==> NoDataAfterControl(tail) by {
        if NoDataAfterControl(tail) {
          forall i, j | 0 <= i < j < |log| && log[j].Data? ensures log[i].Data? {
            if i > 0 {
              assert tail[j - 1].Data? && tail[i - 1] == log[i];
            }
          }
        }
        if NoDataAfterControl(log) {
          forall i, j | 0 <= i < j < |tail| && tail[j].Data? ensures tail[i].Data? {
            assert log[j + 1].Data? && tail[i] == log[i + 1];
          }
        }
      }
      assert Flatten(DataRun(log)) == log[0].bytes + Flatten(DataRun(tail));
      assert Written(log) == log[0].bytes + Written(tail);
      assert Flatten(DataRun(log)) == Written(log) <==> Flatten(DataRun(tail)) == Written(tail) by {
        assert Flatten(DataRun(log))[|log[0].bytes|..] == Flatten(DataRun(tail));
        assert Written(log)[|log[0].bytes|..] == Written(tail);
      }
    }
  }

  /**
   Acceptor to opener, as the program is: once every chunk of the acceptor was acked,
   an open opener reads everything that was written, exactly when nothing was written
   after the CLOSE packet.
   */
  lemma {:induction false} CompleteToOpener(acceptStart: nat, steps: seq<(bool, Act)>, sizes: seq<nat>)
    requires acceptStart == 1 || acceptStart == 2
    requires NoWrap(Run(Init(acceptStart), steps))
    requires forall i :: 0 <= i < |sizes| ==> sizes[i] > 0
    requires var s := Run(Init(acceptStart), steps);
             && s.b.st.sendBuf == map[] && s.a.started && !s.a.st.closed
             && |sizes| >= |Written(s.b.log)|
    ensures var s := Run(Init(acceptStart), steps);
            && Drain(s.a, sizes).got <= Written(s.b.log)
            && (Drain(s.a, sizes).got == Written(s.b.log) <==> NoDataAfterControl(s.b.log))
  {
    var s := Run(Init(acceptStart), steps);
    RunInv(acceptStart, steps);
    RunIsPrefix(s.b.log);
    assert s.b.log[0..] == s.b.log;
    DrainReturnsAll(s.b, s.a, sizes);
    RunIsAll(s.b.log);
  }

  lemma {:induction false} RunIsPrefix(log: seq<Slot>)
    ensures Flatten(DataRun(log)) <= Written(log)
  {
    if log != [] && log[0].Data? {
      RunIsPrefix(log[1..]);
    }
  }

  lemma OpenFirst(log: seq<Slot>)
    requires log != [] && log[0] == Control
    ensures Written(log) == Written(log[1..])
  {
    assert [] + Written(log[1..]) == Written(log[1..]);
  }

  /** Opener to acceptor with the first numbers lined up: the same holds. */
  lemma {:induction false} CompleteToAcceptorAligned(steps: seq<(bool, Act)>, sizes: seq<nat>)
    requires NoWrap(Run(Init(2), steps))
    requires forall i :: 0 <= i < |sizes| ==> sizes[i] > 0
    requires var s := Run(Init(2), steps);
             && s.a.st.sendBuf == map[] && s.b.started && !s.b.st.closed
             && |sizes| >= |Written(s.a.log)|
    ensures var s := Run(Init(2), steps);
            && s.a.log != [] && Drain(s.b, sizes).got <= Written(s.a.log)
            && (Drain(s.b, sizes).got == Written(s.a.log) <==> NoDataAfterControl(s.a.log[1..]))
  {
    var s := Run(Init(2), steps);
    RunInv(2, steps);
    OpenFirst(s.a.log);
    RunIsPrefix(s.a.log[1..]);
    DrainReturnsAll(s.a, s.b, sizes);
    assert LogOk(s.a.log[1..], false);
    RunIsAll(s.a.log[1..]);
  }

  /** Opener to acceptor as the program is: everything is read exactly when nothing was written. */
  lemma {:induction false} CompleteToAcceptorAsWritten(steps: seq<(bool, Act)>, sizes: seq<nat>)
    requires NoWrap(Run(Init(1), steps))
    requires forall i :: 0 <= i < |sizes| ==> sizes[i] > 0
    requires var s := Run(Init(1), steps);
             && s.a.st.sendBuf == map[] && s.b.started && !s.b.st.closed
    ensures var s := Run(Init(1), steps);
            && Drain(s.b, sizes).got == []
            && (Drain(s.b, sizes).got == Written(s.a.log) <==> forall i :: 0 <= i < |s.a.log| ==> s.a.log[i].Control?)
  {
    var s := Run(Init(1), steps);
    RunInv(1, steps);
    OpenerDirectionStuck(steps);
    assert s.a.log[0..] == s.a.log;
    assert Expected(s.a, s.b) == [];
    DrainReturnsAll(s.a, s.b, sizes);
    WrittenData(s.a.log);
  }

  // ---------- a run in which the opener's data is lost ----------

  lemma RunSnoc(s: Sys, steps: seq<(bool, Act)>, step: (bool, Act))
    ensures Run(s, steps + [step]) == Next(Run(s, steps), step)
  {
    assert (steps + [step])[..|steps|] == steps;
  }

  /** The opener writes one chunk; OPEN and the chunk arrive, and the chunk is acked. */
  function LostSteps(chunk: seq<byte>, now: int): seq<(bool, Act)> {
    [(true, Write(chunk, now))] + [(false, RecvOpen)] + [(false, RecvData(2, chunk))] + [(true, RecvAck(2))]
  }

  /** The acceptor keeps chunk 2 and acks it, but waits for number 1. */
  lemma AcceptorWaits(chunk: seq<byte>, now: int) returns (a: End, b: End)
    requires 0 < |chunk| <= MAX_PAYLOAD
    ensures a == DoWrite(Init(1).a, chunk, now) && a.frames == {(2, chunk)} && a.log == [Control, Data(chunk)]
    ensures a.inTable && a.st.sendBuf == map[2 := SendEntry(chunk, now, 0)]
    ensures b == Move(Move(Init(1).b, a, RecvOpen), a, RecvData(2, chunk))
    ensures b.acks == {1, 2} && b.started && !b.st.closed && b.log == []
  {
    a := DoWrite(Init(1).a, chunk, now);
    var b1 := Move(Init(1).b, a, RecvOpen);
    b := Move(b1, a, RecvData(2, chunk));
    var st := b1.st.(recvBuf := b1.st.recvBuf[2 := chunk]);
    assert DeliverOrdered(st, 0) == st;
  }

  lemma LostRun(chunk: seq<byte>, now: int)
    requires 0 < |chunk| <= MAX_PAYLOAD
    ensures var s := Run(Init(1), LostSteps(chunk, now));
            && s.a.st.sendBuf == map[] && s.a.log == [Control, Data(chunk)]
            && s.b.started && !s.b.st.closed && s.b.log == []
  {
    var a, b := AcceptorWaits(chunk, now);
    var s0 := Init(1);
    RunSnoc(s0, [], (true, Write(chunk, now)));
    RunSnoc(s0, [(true, Write(chunk, now))], (false, RecvOpen));
    RunSnoc(s0, [(true, Write(chunk, now))] + [(false, RecvOpen)], (false, RecvData(2, chunk)));
    RunSnoc(s0, [(true, Write(chunk, now))] + [(false, RecvOpen)] + [(false, RecvData(2, chunk))], (true, RecvAck(2)));
    assert [] + [(true, Write(chunk, now))] == [(true, Write(chunk, now))];
    assert a.st.sendBuf - {2} == map[];
  }

  /**
   An input for which the opener's direction fails: everything was acked, the acceptor is
   open and the opener has written a chunk, and no reading returns a byte of it.
   */
  lemma OpenerLosesChunk(chunk: seq<byte>, now: int, sizes: seq<nat>)
    requires 0 < |chunk| <= MAX_PAYLOAD
    requires forall i :: 0 <= i < |sizes| ==> sizes[i] > 0
    ensures var s := Run(Init(1), LostSteps(chunk, now));
            && s.a.st.sendBuf == map[] && s.b.started && !s.b.st.closed
            && Written(s.a.log) == chunk != [] && Drain(s.b, sizes).got == []
  {
    LostRun(chunk, now);
    CompleteToAcceptorAsWritten(LostSteps(chunk, now), sizes);
    WrittenOne(chunk);
  }

  lemma WrittenOne(chunk: seq<byte>)
    ensures Written([Control, Data(chunk)]) == chunk
  {
    assert [Control, Data(chunk)][1..] == [Data(chunk)] && [Data(chunk)][1..] == [];
    assert Written([Data(chunk)]) == chunk + Written([]);
    OpenFirst([Control, Data(chunk)]);
  }
}
