/**
 What a mux stream is, from the frames heard alone: which bytes its reader gets, when it is
 closed, and what Read answers, over whole runs of two endpoints.
 */
module MuxStreams {
  import opened Bytes
  import opened Reader
  import opened PacketCodec
  import opened MuxState
  import opened SecureChannel
  import opened SecureRuns
  import opened SecureFifo
  import opened MuxRuns
  import A = MuxAccepts

  /** A stream as its peer's frames tell it: the payloads before CLOSE, and whether CLOSE came. */
  datatype Life = Life(data: seq<seq<byte>>, closed: bool)

  function Told(heard: seq<Frame>, id: nat): Life {
    if heard == [] then Life([], false)
    else
      var life, f := Told(heard[..|heard| - 1], id), heard[|heard| - 1];
      if f.id != id then life
      else if f.cmd == 1 then Life([], false)
      else if f.cmd == 2 then life.(closed := true)
      else if f.cmd == 3 && !life.closed then life.(data := life.data + [f.payload])
      else life
  }

  lemma ToldSnoc(heard: seq<Frame>, f: Frame, id: nat)
    ensures var life := Told(heard, id);
            Told(heard + [f], id) ==
            if f.id != id then life
            else if f.cmd == 1 then Life([], false)
            else if f.cmd == 2 then life.(closed := true)
            else if f.cmd == 3 && !life.closed then life.(data := life.data + [f.payload])
            else life
  {
    assert (heard + [f])[..|heard|] == heard;
  }

  /** Frames of one id. */
  predicate About(f: Frame, id: nat) {
    f.id == id && (f.cmd == CMD_OPEN || f.cmd == CMD_CLOSE || f.cmd == CMD_DATA)
  }

  lemma {:induction false} NothingTold(heard: seq<Frame>, id: nat)
    requires forall i :: 0 <= i < |heard| ==> !About(heard[i], id)
    ensures Told(heard, id) == Life([], false)
  {
    if heard != [] {
      NothingTold(heard[..|heard| - 1], id);
    }
  }

  /**
   A stream against its life. In the table it is open. Out of it, it is closed, unless its
   OPEN frame was never sent. Unless it was closed at this end, the frames tell everything.
   */
  ghost predicate LifeOk(s: StreamSt, arrived: seq<seq<byte>>, inTable: bool, failed: bool, left: bool, life: Life) {
    && |s.readCh| <= 256
    && (inTable ==> !s.closed && !failed && !left)
    && (!inTable && !failed ==> s.closed)
    && (!failed && !left ==> s.closed == life.closed && arrived == life.data && (inTable <==> !life.closed))
  }

  /** CLOSE is sent for streams that exist only. */
  ghost predicate CloseKnown(fs: seq<Frame>, ids: set<nat>) {
    forall i :: 0 <= i < |fs| && fs[i].cmd == CMD_CLOSE ==> fs[i].id in ids
  }

  ghost predicate LifeAt(x: End, id: nat)
    requires id in x.m.objs && id in x.hist
  {
    LifeOk(x.m.objs[id], x.hist[id].arrived, id in x.m.table, id in x.failed, id in x.left, Told(x.heard, id))
  }

  ghost predicate Lives(x: End) {
    && x.hist.Keys == x.m.objs.Keys
    && forall id :: id in x.m.objs && id in x.hist ==> LifeAt(x, id)
  }

  /** An empty chunk is never sent. */
  ghost predicate DataFull(fs: seq<Frame>) {
    forall i :: 0 <= i < |fs| && fs[i].cmd == CMD_DATA ==> fs[i].payload != []
  }

  ghost predicate LifeInv(x: End) {
    CloseKnown(x.fs, x.m.objs.Keys) && DataFull(x.fs) && Lives(x)
  }

  /** A step that does not touch what a life is about. */
  lemma SameLives(x: End, x': End)
    requires Lives(x)
    requires x'.m.objs == x.m.objs && x'.m.table == x.m.table && x'.hist == x.hist
    requires x'.failed == x.failed && x'.left == x.left && x'.heard == x.heard
    ensures Lives(x')
  {
    forall id | id in x'.m.objs && id in x'.hist ensures LifeAt(x', id) {
      assert LifeAt(x, id);
    }
  }

  lemma PostLives(x: End, f: Frame, ts: i64, ct: seq<byte>)
    requires LifeInv(x) && (f.cmd == CMD_CLOSE ==> f.id in x.m.objs) && (f.cmd == CMD_DATA ==> f.payload != [])
    ensures LifeInv(Post(x, f, ts, ct).0)
  {
    PostFrame(x, f, ts, ct);
    SameLives(x, Post(x, f, ts, ct).0);
  }

  /** A new id of this end's own was in no frame that it heard. */
  lemma NewIdUntold(x: End, y: End, id: nat)
    requires EndInv(x) && EndInv(y) && CloseKnown(y.fs, y.m.objs.Keys) && x.m.isServer != y.m.isServer
    requires x.heard <= y.fs && y.heard <= x.fs && Own(x.m.isServer, id) && id > x.m.nextID
    ensures Told(x.heard, id) == Life([], false)
  {
    NotOpened(x.heard, y.fs, y.m.isServer, y.m.nextID, id);
    NotOpened(y.heard, x.fs, x.m.isServer, x.m.nextID, id);
    assert id !in y.m.objs;
    forall i | 0 <= i < |x.heard| ensures !About(x.heard[i], id) {
      assert x.heard[i] == y.fs[i] && !IsOpen(x.heard[i], id);
    }
    NothingTold(x.heard, id);
  }

  lemma OpenLives(x: End, y: End, ts: i64, ct: seq<byte>)
    requires LifeInv(x) && LifeInv(y) && EndInv(x) && EndInv(y) && x.m.isServer != y.m.isServer
    requires x.heard <= y.fs && y.heard <= x.fs && MayOpen(DoOpen(x, ts, ct))
    ensures LifeInv(DoOpen(x, ts, ct))
  {
    if !x.m.closed {
      OpensOne(x, ts, ct);
      NextOwn(x, DoOpen(x, ts, ct));
      NewIdUntold(x, y, NextID(x.m));
      NewLives(x, ts, ct);
    }
  }

  lemma OpensOne(x: End, ts: i64, ct: seq<byte>)
    requires !x.m.closed
    ensures DoOpen(x, ts, ct).opens == x.opens + 1 && DoOpen(x, ts, ct).m.isServer == x.m.isServer
  {
  }

  lemma NextOwn(x: End, x': End)
    requires EndInv(x) && x'.opens == x.opens + 1 && x'.m.isServer == x.m.isServer && MayOpen(x')
    ensures NextID(x.m) == x.m.nextID + 1 && Own(x.m.isServer, NextID(x.m))
  {
  }

  lemma NewLives(x: End, ts: i64, ct: seq<byte>)
    requires LifeInv(x) && !x.m.closed && Told(x.heard, NextID(x.m)) == Life([], false)
    ensures LifeInv(DoOpen(x, ts, ct))
  {
    var f := Frame(CMD_OPEN, NextID(x.m), []);
    PostLives(x, f, ts, ct);
    PostFrame(x, f, ts, ct);
    OpenedLives(Post(x, f, ts, ct).0, DoOpen(x, ts, ct), NextID(x.m));
  }

  /** A fresh stream, in the table or failed. */
  lemma OpenedLives(x: End, x': End, id: nat)
    requires LifeInv(x) && Told(x.heard, id) == Life([], false)
    requires x'.fs == x.fs && x'.heard == x.heard
    requires x'.m.objs == x.m.objs[id := FRESH] && x'.hist == x.hist[id := Hist([], [])]
    requires x'.left == x.left - {id}
    requires || (x'.m.table == x.m.table + {id} && x'.failed == x.failed - {id})
             || (x'.m.table == x.m.table - {id} && x'.failed == x.failed + {id})
    ensures LifeInv(x')
  {
    assert x'.m.objs.Keys == x.m.objs.Keys + {id} && x'.hist.Keys == x.hist.Keys + {id};
    forall j | j in x'.m.objs && j in x'.hist ensures LifeAt(x', j) {
      if j != id {
        assert LifeAt(x, j);
      }
    }
  }

  lemma WriteLives(x: End, id: u32, chunk: seq<byte>, ts: i64, ct: seq<byte>)
    requires LifeInv(x)
    ensures LifeInv(DoWrite(x, id, chunk, ts, ct))
  {
    if id in x.m.objs && 0 < |chunk| <= MAX_CHUNK {
      PostLives(x, Frame(CMD_DATA, id, chunk), ts, ct);
      SameLives(Post(x, Frame(CMD_DATA, id, chunk), ts, ct).0, DoWrite(x, id, chunk, ts, ct));
    }
  }

  /** Streams that were closed here and left the table. */
  lemma ClosedLives(x: End, x': End, ids: set<nat>)
    requires Lives(x)
    requires x'.m.objs.Keys == x.m.objs.Keys && x'.m.table == x.m.table - ids && x'.hist == x.hist
    requires forall id :: id in x.m.objs ==>
               x'.m.objs[id] == if id in ids then x.m.objs[id].(closed := true) else x.m.objs[id]
    requires x'.failed == x.failed && x'.left == x.left + ids && x'.heard == x.heard
    ensures Lives(x')
  {
    forall id | id in x'.m.objs && id in x'.hist ensures LifeAt(x', id) {
      assert LifeAt(x, id);
    }
  }

  lemma CloseOneLives(x: End, id: u32, ts: i64, ct: seq<byte>)
    requires LifeInv(x)
    ensures LifeInv(DoClose(x, id, ts, ct))
  {
    if id in x.m.objs && !x.m.objs[id].closed {
      PostLives(x, Frame(CMD_CLOSE, id, []), ts, ct);
      PostFrame(x, Frame(CMD_CLOSE, id, []), ts, ct);
      ClosedLives(Post(x, Frame(CMD_CLOSE, id, []), ts, ct).0, DoClose(x, id, ts, ct), {id});
    }
  }

  lemma CloseMuxLives(x: End)
    requires LifeInv(x) && x.m.table <= x.m.objs.Keys
    ensures LifeInv(DoCloseMux(x))
  {
    if !x.m.closed {
      assert DoCloseMux(x).m.objs.Keys == x.m.objs.Keys;
      ClosedLives(x, DoCloseMux(x), x.m.table);
    }
  }

  lemma ReadLives(x: End, id: nat, n: nat, eof: bool)
    requires LifeInv(x)
    ensures LifeInv(DoRead(x, id, n, eof))
  {
    if id in x.m.objs && id in x.hist {
      var x' := DoRead(x, id, n, eof);
      assert x'.m.objs.Keys == x.m.objs.Keys && x'.hist.Keys == x.hist.Keys;
      forall j | j in x'.m.objs && j in x'.hist ensures LifeAt(x', j) {
        assert LifeAt(x, j);
      }
    }
  }

  lemma AcceptLives(x: End, eof: bool)
    requires LifeInv(x)
    ensures LifeInv(DoAccept(x, eof))
  {
    SameLives(x, DoAccept(x, eof));
  }

  lemma OtherLives(x: End, p: Packet, ct: seq<byte>)
    requires LifeInv(x)
    ensures LifeInv(PostOther(x, p, ct))
  {
    SameLives(x, PostOther(x, p, ct));
  }

  lemma LocalLives(x: End, y: End, act: Act)
    requires LifeInv(x) && LifeInv(y) && PairInv(x, y) && (act.Open? ==> MayOpen(DoOpen(x, act.ts, act.ct)))
    ensures LifeInv(Local(x, act))
  {
    match act
    case Open(ts, ct) =>
      InStepPrefix(x, y);
      InStepPrefix(y, x);
      OpenLives(x, y, ts, ct);
    case Write(id, chunk, ts, ct) => WriteLives(x, id, chunk, ts, ct);
    case CloseOne(id, ts, ct) => CloseOneLives(x, id, ts, ct);
    case Read(id, n, eof) => ReadLives(x, id, n, eof);
    case Padding(p, ct) => OtherLives(x, p, ct);
    case KeepAlive(ts, ct) => PostLives(x, Frame(CMD_PING, 0, []), ts, ct);
    case Accept(eof) => AcceptLives(x, eof);
    case CloseMux => CloseMuxLives(x);
    case Recv(ts, ct) =>
  }

  // ---------- handling a frame ----------

  /** Streams of other ids are told nothing by f. */
  lemma OthersTold(x: End, x': End, f: Frame)
    requires Lives(x) && x'.heard == x.heard + [f]
    requires x'.m.objs.Keys == x'.hist.Keys && x'.m.objs.Keys - {f.id} <= x.m.objs.Keys
    requires forall id :: id in x'.m.objs && id in x'.hist && id != f.id ==>
               && x'.m.objs[id] == x.m.objs[id] && x'.hist[id] == x.hist[id] && (id in x'.m.table <==> id in x.m.table)
               && (id in x'.failed <==> id in x.failed) && (id in x'.left <==> id in x.left)
    requires f.id in x'.m.objs && f.id in x'.hist ==> LifeAt(x', f.id)
    ensures Lives(x')
  {
    forall id | id in x'.m.objs && id in x'.hist ensures LifeAt(x', id) {
      if id != f.id {
        ToldSnoc(x.heard, f, id);
        assert LifeAt(x, id);
      }
    }
  }

  lemma HearOpenLives(x: End, f: Frame)
    requires LifeInv(x) && f.cmd == CMD_OPEN && HandleFrame(x.m, f).Handled?
    ensures LifeInv(Hear(x, f, HandleFrame(x.m, f).m))
  {
    var m := HandleFrame(x.m, f).m;
    var x' := Hear(x, f, m);
    OpenedState(x.m, f, m);
    assert x'.hist.Keys == x.hist.Keys + {f.id};
    ToldSnoc(x.heard, f, f.id);
    OthersTold(x, x', f);
  }

  /** One stream and one frame for it that is not an OPEN frame. */
  lemma LifeNext(s: StreamSt, arrived: seq<seq<byte>>, inTable: bool, failed: bool, left: bool, heard: seq<Frame>, f: Frame)
    requires LifeOk(s, arrived, inTable, failed, left, Told(heard, f.id))
    ensures var life := Told(heard + [f], f.id);
            && (f.cmd == CMD_CLOSE && inTable ==> LifeOk(s.(closed := true), arrived, false, failed, left, life))
            && (f.cmd == CMD_CLOSE && !inTable ==> LifeOk(s, arrived, inTable, failed, left, life))
            && (f.cmd == CMD_DATA && inTable && |s.readCh| < 256 ==>
                  LifeOk(s.(readCh := s.readCh + [f.payload]), arrived + [f.payload], inTable, failed, left, life))
            && (f.cmd == CMD_DATA && !inTable ==> LifeOk(s, arrived, inTable, failed, left, life))
            && (f.cmd > 3 ==> LifeOk(s, arrived, inTable, failed, left, life))
  {
    ToldSnoc(heard, f, f.id);
  }

  lemma HearCloseLives(x: End, f: Frame)
    requires LifeInv(x) && f.cmd == CMD_CLOSE && HandleFrame(x.m, f).Handled?
    ensures LifeInv(Hear(x, f, HandleFrame(x.m, f).m))
  {
    var x' := Hear(x, f, HandleFrame(x.m, f).m);
    assert x'.m.objs.Keys == x.m.objs.Keys;
    if f.id in x.m.objs && f.id in x.hist {
      assert LifeAt(x, f.id);
      LifeNext(x.m.objs[f.id], x.hist[f.id].arrived, f.id in x.m.table, f.id in x.failed, f.id in x.left, x.heard, f);
    }
    OthersTold(x, x', f);
  }

  lemma HearDataLives(x: End, f: Frame)
    requires LifeInv(x) && f.cmd == CMD_DATA && HandleFrame(x.m, f).Handled?
    ensures LifeInv(Hear(x, f, HandleFrame(x.m, f).m))
  {
    var x' := Hear(x, f, HandleFrame(x.m, f).m);
    assert x'.m.objs.Keys == x.m.objs.Keys && x'.hist.Keys == x.hist.Keys;
    if f.id in x.m.objs && f.id in x.hist {
      assert LifeAt(x, f.id);
      LifeNext(x.m.objs[f.id], x.hist[f.id].arrived, f.id in x.m.table, f.id in x.failed, f.id in x.left, x.heard, f);
    }
    OthersTold(x, x', f);
  }

  lemma PlainHeard(x: End, f: Frame)
    requires f.cmd != CMD_OPEN && f.cmd != CMD_DATA && f.cmd != CMD_CLOSE && HandleFrame(x.m, f).Handled?
    ensures Hear(x, f, HandleFrame(x.m, f).m) == x.(heard := x.heard + [f])
  {
  }

  lemma HearPlainLives(x: End, f: Frame)
    requires LifeInv(x) && (f.cmd == 0 || f.cmd > 3)
    ensures LifeInv(x.(heard := x.heard + [f]))
  {
    if f.id in x.m.objs && f.id in x.hist {
      ToldSnoc(x.heard, f, f.id);
      assert LifeAt(x, f.id);
    }
    OthersTold(x, x.(heard := x.heard + [f]), f);
  }

  lemma HearLives(x: End, f: Frame)
    requires LifeInv(x) && HandleFrame(x.m, f).Handled?
    ensures var h := HandleFrame(x.m, f);
            && LifeInv(Hear(x, f, h.m))
            && (h.reply == [] || (h.reply[0].cmd == CMD_PONG && |h.reply| == 1))
  {
    if f.cmd == CMD_OPEN {
      HearOpenLives(x, f);
    } else if f.cmd == CMD_DATA {
      HearDataLives(x, f);
    } else if f.cmd == CMD_CLOSE {
      HearCloseLives(x, f);
    } else {
      PlainHeard(x, f);
      HearPlainLives(x, f);
    }
  }

  lemma AnsweredLives(x: End, f: Frame, ts: i64, ct: seq<byte>)
    requires LifeInv(x) && HandleFrame(x.m, f).Handled?
    ensures var h := HandleFrame(x.m, f);
            var x1 := Hear(x, f, h.m);
            LifeInv(if h.reply == [] then x1 else Post(x1, h.reply[0], ts, ct).0)
  {
    var h := HandleFrame(x.m, f);
    HearLives(x, f);
    if h.reply != [] {
      PostLives(Hear(x, f, h.m), h.reply[0], ts, ct);
    }
  }

  lemma HandleLives(x: End, p: Packet, ts: i64, ct: seq<byte>)
    requires LifeInv(x) && x.m.table <= x.m.objs.Keys && HandlePacket(x, p, ts, ct).Took?
    ensures LifeInv(HandlePacket(x, p, ts, ct).x)
  {
    if p.kind == TYPE_PING {
      OtherLives(x, NewEmptyPacket(TYPE_PONG, p.seqNum, ts), ct);
    } else if p.kind == TYPE_CLOSE {
      CloseMuxLives(x);
    } else if p.kind == TYPE_DATA && DecodeFrame(p.payload) != [] {
      AnsweredLives(x, DecodeFrame(p.payload)[0], ts, ct);
    }
  }

  lemma MaybeLives(x: End, p: Packet, ts: i64, ct: seq<byte>)
    requires LifeInv(x) && x.m.table <= x.m.objs.Keys
    ensures TookLives(HandlePacket(x, p, ts, ct))
  {
    if HandlePacket(x, p, ts, ct).Took? {
      HandleLives(x, p, ts, ct);
    }
  }

  ghost predicate TookLives(took: Took) {
    took.Took? ==> LifeInv(took.x)
  }

  lemma TakenLives(x: End, out: seq<byte>, rest: seq<byte>, took: Took)
    requires LifeInv(x) && TookLives(took)
    ensures LifeInv(AfterTake(x, out, rest, took).0)
  {
  }

  lemma RecvLives(x: End, y: End, ts: i64, ct: seq<byte>)
    requires LifeInv(x) && x.m.table <= x.m.objs.Keys
    ensures LifeInv(DoRecv(x, y, ts, ct).0)
  {
    if !x.m.closed && !x.m.held.Holding? && y.out != [] {
      var (rx, result, rest) := RecvPacket(x.rx, y.tx.log, y.out);
      match result
      case Received(p) =>
        ReceivedIs(x, y.out, rx, p, rest, ts, ct);
        ReceivedLives(x, y.out, rx, p, rest, ts, ct);
      case NotReceived(e) => RefusedLives(x, y.out, rx, e, rest, ts, ct);
    }
  }

  lemma ReceivedIs(x: End, out: seq<byte>, rx: RecvState, p: Packet, rest: seq<byte>, ts: i64, ct: seq<byte>)
    ensures AfterRecv(x, out, (rx, Received(p), rest), ts, ct) ==
            AfterTake(x, out, rest, HandlePacket(x.(rx := rx, k := x.k + 1), p, ts, ct))
  {
  }

  lemma ReceivedLives(x: End, out: seq<byte>, rx: RecvState, p: Packet, rest: seq<byte>, ts: i64, ct: seq<byte>)
    requires LifeInv(x) && x.m.table <= x.m.objs.Keys
    ensures LifeInv(AfterTake(x, out, rest, HandlePacket(x.(rx := rx, k := x.k + 1), p, ts, ct)).0)
  {
    var x1 := x.(rx := rx, k := x.k + 1);
    SameLives(x, x1);
    MaybeLives(x1, p, ts, ct);
    TakenLives(x, out, rest, HandlePacket(x1, p, ts, ct));
  }

  lemma RefusedLives(x: End, out: seq<byte>, rx: RecvState, e: ChanError, rest: seq<byte>, ts: i64, ct: seq<byte>)
    requires LifeInv(x) && x.m.table <= x.m.objs.Keys
    ensures LifeInv(AfterRecv(x, out, (rx, NotReceived(e), rest), ts, ct).0)
  {
    CloseMuxLives(x);
    EndedLives(x, rx);
  }

  lemma EndedLives(x: End, rx: RecvState)
    requires LifeInv(DoCloseMux(x))
    ensures LifeInv(DoCloseMux(x.(rx := rx)))
  {
    ClosedEnd(x, rx);
    SameLives(DoCloseMux(x), DoCloseMux(x).(rx := rx));
  }

  /** Only what the other end has not read yet changes here. */
  lemma OutLives(y: End, out: seq<byte>)
    requires LifeInv(y)
    ensures LifeInv(y.(out := out))
  {
    SameLives(y, y.(out := out));
  }

  lemma StepLives(s: Sys, step: (bool, Act))
    requires PairInv(s.a, s.b) && !s.a.m.isServer && Limits(Next(s, step)) && LifeInv(s.a) && LifeInv(s.b)
    ensures LifeInv(Next(s, step).a) && LifeInv(Next(s, step).b)
  {
    var (atClient, act) := step;
    if act.Recv? {
      if atClient {
        RecvLives(s.a, s.b, act.ts, act.ct);
        OutLives(s.b, DoRecv(s.a, s.b, act.ts, act.ct).1);
      } else {
        RecvLives(s.b, s.a, act.ts, act.ct);
        OutLives(s.a, DoRecv(s.b, s.a, act.ts, act.ct).1);
      }
    } else if atClient {
      LocalServer(s.a, act);
      LocalLives(s.a, s.b, act);
    } else {
      LocalServer(s.b, act);
      LocalLives(s.b, s.a, act);
    }
  }

  lemma {:induction false} RunLives(steps: seq<(bool, Act)>)
    requires Limits(Run(steps))
    ensures LifeInv(Run(steps).a) && LifeInv(Run(steps).b)
  {
    if steps != [] {
      var before := Run(steps[..|steps| - 1]);
      OpensGrow(before, steps[|steps| - 1]);
      RunInv(steps[..|steps| - 1]);
      RunLives(steps[..|steps| - 1]);
      StepLives(before, steps[|steps| - 1]);
    }
  }

  // ---------- the results ----------

  /** Every stream ever registered is in the table and open, or out of it and closed; a failed OpenStream is apart. */
  ghost predicate ClosedOutside(x: End) {
    && x.m.objs.Keys == x.hist.Keys
    && forall id :: id in x.m.objs ==>
         && (id in x.m.table ==> !x.m.objs[id].closed)
         && (id !in x.m.table && id !in x.failed ==> x.m.objs[id].closed)
  }

  lemma {:induction false} LeftIsClosed(steps: seq<(bool, Act)>)
    requires Limits(Run(steps))
    ensures ClosedOutside(Run(steps).a) && ClosedOutside(Run(steps).b)
  {
    RunLives(steps);
    AreClosed(Run(steps).a);
    AreClosed(Run(steps).b);
  }

  lemma AreClosed(x: End)
    requires Lives(x)
    ensures ClosedOutside(x)
  {
    forall id | id in x.m.objs
      ensures id in x.m.table ==> !x.m.objs[id].closed
      ensures id !in x.m.table && id !in x.failed ==> x.m.objs[id].closed
    {
      assert LifeAt(x, id);
    }
  }

  lemma {:induction false} ToldFull(heard: seq<Frame>, fs: seq<Frame>, id: nat)
    requires heard <= fs && DataFull(fs)
    ensures forall i :: 0 <= i < |Told(heard, id).data| ==> Told(heard, id).data[i] != []
    decreases |heard|
  {
    if heard != [] {
      assert heard[|heard| - 1] == fs[|heard| - 1];
      ToldFull(heard[..|heard| - 1], fs, id);
    }
  }

  lemma StreamReads(s: StreamSt, h: Hist, life: Life, n: nat, eof: bool)
    requires BytesOk(h.got, s.readBuf, s.readCh, h.arrived) && h.arrived == life.data && s.closed == life.closed
    requires forall i :: 0 <= i < |life.data| ==> life.data[i] != []
    ensures ReadsAll(Take(s.readBuf, s.readCh, s.closed, n, eof).2, h.got, Flatten(life.data), life.closed, n, eof)
  {
    ReadsArrived(h.got, s.readBuf, s.readCh, s.closed, h.arrived, n, eof);
  }

  /** What Read answers on streams that were opened and not closed at this end, from the frames heard alone. */
  ghost predicate AnswersLife(x: End) {
    forall id, n: nat, eof :: id in x.m.objs && id in x.hist && id !in x.failed && id !in x.left ==>
      var life := Told(x.heard, id);
      ReadsAll(ReadStream(x.m, id, n, eof).1, x.hist[id].got, Flatten(life.data), life.closed, n, eof)
  }

  /** Open streams wait, and never see an end of file; streams that left the table never wait. */
  ghost predicate AnswersTable(x: End) {
    forall id, n: nat, eof :: id in x.m.objs ==>
      var answer := ReadStream(x.m, id, n, eof).1;
      && (id in x.m.table ==> !answer.Eof?)
      && (id !in x.m.table && id !in x.failed ==> !answer.Blocked?)
  }

  lemma ReadsAsHeard(x: End, y: End)
    requires LifeInv(x) && LifeInv(y) && EndInv(x) && x.heard <= y.fs
    ensures AnswersLife(x) && AnswersTable(x)
  {
    forall id, n: nat, eof | id in x.m.objs && id in x.hist && id !in x.failed && id !in x.left
      ensures var life := Told(x.heard, id);
              ReadsAll(ReadStream(x.m, id, n, eof).1, x.hist[id].got, Flatten(life.data), life.closed, n, eof)
    {
      assert LifeAt(x, id) && StreamOk(x.m.objs[id], x.hist[id], id in x.m.table, DataFor(x.heard, id));
      ToldFull(x.heard, y.fs, id);
      StreamReads(x.m.objs[id], x.hist[id], Told(x.heard, id), n, eof);
    }
    AreClosed(x);
  }

  /** Both ends, every stream, in every run: Read answers as the frames heard say. */
  lemma {:induction false} ReadAnswers(steps: seq<(bool, Act)>)
    requires Limits(Run(steps))
    ensures var s := Run(steps);
            AnswersLife(s.a) && AnswersTable(s.a) && AnswersLife(s.b) && AnswersTable(s.b)
  {
    RunInv(steps);
    RunLives(steps);
    var s := Run(steps);
    InStepPrefix(s.a, s.b);
    InStepPrefix(s.b, s.a);
    ReadsAsHeard(s.a, s.b);
    ReadsAsHeard(s.b, s.a);
  }

  /** The frames for one id end with a CLOSE. */
  ghost predicate EndsClosed(fs: seq<Frame>, id: nat, last: nat) {
    && last < |fs| && fs[last].cmd == CMD_CLOSE && fs[last].id == id
    && forall i :: 0 <= i < |fs| && i != last && About(fs[i], id) ==> i < last && fs[i].cmd != CMD_CLOSE
  }

  /** Without a CLOSE frame all data after the OPEN frame counts. */
  lemma {:induction false} ToldAll(fs: seq<Frame>, id: nat)
    requires OpenFirst(fs) && forall i :: 0 <= i < |fs| && fs[i].id == id ==> fs[i].cmd != CMD_CLOSE
    ensures Told(fs, id) == Life(DataFor(fs, id), false)
  {
    if fs != [] {
      var k := |fs| - 1;
      ToldAll(fs[..k], id);
      if fs[k].cmd == CMD_OPEN && fs[k].id == id {
        forall i | 0 <= i < k ensures !IsData(fs[..k][i], id) {
          assert !IsData(fs[i], fs[k].id);
        }
        NoDataFor(fs[..k], id);
      }
    }
  }

  lemma {:induction false} ToldEnds(fs: seq<Frame>, id: nat, last: nat)
    requires OpenFirst(fs) && EndsClosed(fs, id, last)
    ensures Told(fs, id) == Life(DataFor(fs, id), true)
  {
    var k := |fs| - 1;
    if last == k {
      ToldAll(fs[..k], id);
    } else {
      assert !About(fs[k], id);
      ToldEnds(fs[..k], id, last);
    }
  }

  /** Reads with the given sizes return the rest of `all`, and whatever read comes next says end of file. */
  ghost predicate DrainsTo(s: StreamSt, got: seq<byte>, all: seq<byte>, sizes: seq<nat>, n: nat, eof: bool) {
    var (bytes, buf, ch) := Takes(s.readBuf, s.readCh, s.closed, sizes);
    got + bytes == all && Take(buf, ch, s.closed, n, eof).2 == Eof
  }

  lemma Drained(s: StreamSt, h: Hist, sizes: seq<nat>, n: nat, eof: bool)
    requires BytesOk(h.got, s.readBuf, s.readCh, h.arrived) && s.closed
    requires |sizes| >= Rounds(s.readBuf, s.readCh) && forall i :: 0 <= i < |sizes| ==> sizes[i] > 0
    ensures DrainsTo(s, h.got, Flatten(h.arrived), sizes, n, eof)
  {
    BytesInOrder(h.got, s.readBuf, s.readCh, h.arrived);
    Associate(h.got, s.readBuf, Flatten(s.readCh));
    TakesAll(s.readBuf, s.readCh, s.closed, sizes);
    TakeAnswers([], [], s.closed, n, eof);
  }

  lemma LifeOfOne(x: End, y: End, id: nat, last: nat)
    requires LifeInv(x) && PairInv(x, y) && id in x.m.objs && id in x.hist && id !in x.failed && id !in x.left
    requires x.k == |y.tx.sent| && EndsClosed(y.fs, id, last)
    ensures var s, h := x.m.objs[id], x.hist[id];
            BytesOk(h.got, s.readBuf, s.readCh, h.arrived) && s.closed && Flatten(h.arrived) == Get(y.wrote, id)
  {
    AllHeard(x, y);
    ToldEnds(y.fs, id, last);
    assert LifeAt(x, id) && StreamOk(x.m.objs[id], x.hist[id], id in x.m.table, DataFor(x.heard, id));
    assert Flatten(DataFor(y.fs, id)) == Get(y.wrote, id);
  }

  /** One end, and the other. */
  function EndOf(s: Sys, atClient: bool): End {
    if atClient then s.a else s.b
  }

  /**
   The whole life of a stream whose writer closed it after its last write: once every packet
   was taken, enough reads return all that was written and every read after them says end of
   file. Streams whose OPEN frame was never sent, or that were closed at this end, are apart.
   */
  lemma {:induction false} CloseDelivers(steps: seq<(bool, Act)>, atClient: bool, id: nat, last: nat,
                                         sizes: seq<nat>, n: nat, eof: bool)
    requires Limits(Run(steps))
    requires var x := EndOf(Run(steps), atClient);
             && id in x.m.objs && id !in x.failed && id !in x.left
             && x.k == |EndOf(Run(steps), !atClient).tx.sent| && EndsClosed(EndOf(Run(steps), !atClient).fs, id, last)
             && |sizes| >= Rounds(x.m.objs[id].readBuf, x.m.objs[id].readCh)
    requires forall i :: 0 <= i < |sizes| ==> sizes[i] > 0
    ensures var x := EndOf(Run(steps), atClient);
            id in x.hist &&
            DrainsTo(x.m.objs[id], x.hist[id].got, Get(EndOf(Run(steps), !atClient).wrote, id), sizes, n, eof)
  {
    RunInv(steps);
    RunLives(steps);
    var x, y := EndOf(Run(steps), atClient), EndOf(Run(steps), !atClient);
    LifeOfOne(x, y, id, last);
    Drained(x.m.objs[id], x.hist[id], sizes, n, eof);
  }

  // ---------- when the read loop waits, and what it answers ----------

  /**
   The read loop waits with a frame exactly when 32 streams wait to be accepted and one more
   is being offered, or the frame is data for an open stream with 256 chunks queued.
   */
  ghost predicate WaitsWhenFull(x: End) {
    forall f :: HandleFrame(x.m, f).Waiting? <==>
      || (x.m.held.Holding? && |x.m.acceptCh| == 32)
      || (f.cmd == 3 && f.id in x.m.table && f.id in x.m.objs && |x.m.objs[f.id].readCh| == 256)
  }

  lemma FullWaits(x: End)
    requires LifeInv(x) && A.EndOffers(x) && x.m.objs.Keys == x.hist.Keys
    ensures WaitsWhenFull(x)
  {
    forall f
      ensures HandleFrame(x.m, f).Waiting? <==>
        || (x.m.held.Holding? && |x.m.acceptCh| == 32)
        || (f.cmd == 3 && f.id in x.m.table && f.id in x.m.objs && |x.m.objs[f.id].readCh| == 256)
    {
      assert f.id in x.m.objs ==> LifeAt(x, f.id);
    }
  }

  lemma {:induction false} BackPressure(steps: seq<(bool, Act)>)
    requires Limits(Run(steps))
    ensures WaitsWhenFull(Run(steps).a) && WaitsWhenFull(Run(steps).b)
  {
    RunLives(steps);
    A.RunOffers(steps);
    FullWaits(Run(steps).a);
    FullWaits(Run(steps).b);
  }

  /** A ping is answered by a pong of the same id, and nothing else is; frames of no known kind do nothing. */
  lemma RepliesToPings(m: MuxSt, f: Frame)
    requires HandleFrame(m, f).Handled?
    ensures HandleFrame(m, f).reply == if f.cmd == 4 then [Frame(5, f.id, [])] else []
    ensures f.cmd == 0 || f.cmd > 3 ==> HandleFrame(m, f).m == m
  {
  }
}
