/** The mutable mux endpoint and its streams, proved against module MuxState. */
module MuxObject {
  import opened Bytes
  import opened Reader
  import opened PacketCodec
  import opened M = MuxState
  import C = SecureChannel
  import opened SecureConnObject

  class Stream {
    const id: u32
    var readCh: seq<seq<byte>>
    var readBuf: seq<byte>
    var closed: bool

    ghost function View(): StreamSt
      reads this
    {
      StreamSt(readCh, readBuf, closed)
    }

    constructor (id: u32)
      ensures View() == FRESH && this.id == id
    {
      this.id := id;
      readCh, readBuf, closed := [], [], false;
    }

    method Read(n: nat, eof: bool) returns (result: ReadResult)
      modifies this
      ensures (readBuf, readCh, result) == Take(old(readBuf), old(readCh), closed, n, eof)
      ensures closed == old(closed)
      ensures Answers(old(readBuf), old(readCh), closed, n, eof, result)
    {
      if |readBuf| > 0 {
        var m := if n < |readBuf| then n else |readBuf|;
        result := Got(readBuf[..m]);
        readBuf := readBuf[m..];
        return;
      }
      if |readCh| > 0 && !(closed && eof) {
        var data := readCh[0];
        readCh := readCh[1..];
        var m := if n < |data| then n else |data|;
        if m < |data| {
          readBuf := data[m..];
        }
        assert readBuf == data[m..];
        return Got(data[..m]);
      }
      return if closed then Eof else Blocked;
    }
  }

  function Ids(ss: seq<Stream>): seq<nat> {
    seq(|ss|, i requires 0 <= i < |ss| => ss[i].id)
  }

  /** The value of every stream object. */
  ghost function Objects(all: map<nat, Stream>): map<nat, StreamSt>
    reads all.Values
  {
    map i | i in all :: all[i].View()
  }

  lemma ObjectsSet(all: map<nat, Stream>, s: Stream)
    ensures Objects(all[s.id := s]) == Objects(all)[s.id := s.View()]
  {
  }

  datatype Maybe<T> = Nothing | Just(value: T)

  function HeldId(held: Maybe<Stream>): Held {
    if held.Just? then Holding(held.value.id) else Nobody
  }

  /** The sending state, seal log and output after the given frames, of which there is at most one. */
  function AfterFrames(st: C.SendState, log: C.SealLog, written: seq<byte>, fs: seq<Frame>, timestamp: i64, ct: seq<byte>)
    : (C.SendState, C.SealLog, seq<byte>)
  {
    if fs == [] then (st, log, written)
    else
      var (st', log', bytes, r) := C.Send(st, log, EncodeFrame(fs[0]), timestamp, ct);
      (st', log', written + bytes)
  }

  class Mux {
    const isServer: bool
    const sc: SecureConn
    var nextID: u32
    var streams: map<nat, Stream>
    var acceptCh: seq<Stream>
    var held: Maybe<Stream>
    var closed: bool
    ghost var all: map<nat, Stream>

    /** Every stream sits under its own id, and the table holds the current ones. */
    ghost predicate Valid()
      reads this
    {
      && (forall i :: i in all ==> all[i].id == i)
      && (forall i :: i in streams ==> i in all && streams[i] == all[i])
    }

    ghost function View(): MuxSt
      reads this, all.Values
    {
      MuxSt(isServer, nextID, Objects(all), streams.Keys,
            Ids(acceptCh), HeldId(held), closed)
    }

    constructor (sc: SecureConn, isServer: bool)
      ensures Valid() && View() == NewMux(isServer) && this.sc == sc && all == map[]
    {
      this.sc, this.isServer := sc, isServer;
      nextID := if isServer then SERVER_BASE else 0;
      streams, acceptCh, held, closed, all := map[], [], Nothing, false, map[];
    }

    /** One frame, sent as one DATA packet. */
    method SendFrame(f: Frame, timestamp: i64, ct: seq<byte>) returns (sent: bool)
      modifies sc`sendSeq, sc`sendMsgCount, sc`sendByteCount, sc`written, sc.sendCipher
      ensures var (st, log, bytes, r) :=
                C.Send(old(sc.SendSide()), old(sc.sendCipher.log), EncodeFrame(f), timestamp, ct);
              && sc.SendSide() == st && sc.sendCipher.log == log && sc.written == old(sc.written) + bytes
              && sent == r.Sent?
    {
      var r := sc.Send(EncodeFrame(f), timestamp, ct);
      sent := r.Sent?;
    }

    /** A stream goes into the table under its id. */
    method Enter(s: Stream)
      requires Valid()
      modifies this`streams, this`all
      ensures Valid() && streams == old(streams)[s.id := s]
      ensures View() == old(View()).(objs := old(View()).objs[s.id := s.View()], table := old(View()).table + {s.id})
    {
      ObjectsSet(all, s);
      streams := streams[s.id := s];
      all := all[s.id := s];
    }

    /** A new stream object under the given id, in the table. */
    method Register(id: u32) returns (s: Stream)
      requires Valid()
      modifies this`streams, this`all
      ensures Valid() && fresh(s) && s.id == id && streams == old(streams)[id := s]
      ensures View() == old(View()).(objs := old(View()).objs[id := FRESH], table := old(View()).table + {id})
    {
      s := new Stream(id);
      Enter(s);
    }

    /** The next id and a new stream under it. */
    method Allocate() returns (s: Stream)
      requires Valid()
      modifies this`nextID, this`streams, this`all
      ensures Valid() && View() == M.OpenStream(old(View()), true)
      ensures nextID == NextID(old(View())) && nextID in streams && s == streams[nextID]
    {
      nextID := (nextID + 1) % ID_MOD;
      s := Register(nextID);
    }

    method Unregister(id: u32)
      requires Valid()
      modifies this`streams
      ensures Valid() && View() == old(View()).(table := old(View()).table - {id})
    {
      streams := streams - {id};
    }

    /** The new stream, unless the mux is closed or the OPEN frame cannot be sent. */
    method OpenStream(timestamp: i64, ct: seq<byte>) returns (result: Maybe<Stream>)
      requires Valid()
      modifies this`nextID, this`streams, this`all
      modifies sc`sendSeq, sc`sendMsgCount, sc`sendByteCount, sc`written, sc.sendCipher
      ensures Valid()
      ensures old(closed) ==> result == Nothing && View() == old(View()) && unchanged(sc) && unchanged(sc.sendCipher)
      ensures !old(closed) ==>
                && View() == M.OpenStream(old(View()), result.Just?)
                && (result.Just? <==>
                      C.Send(old(sc.SendSide()), old(sc.sendCipher.log),
                             EncodeFrame(Frame(CMD_OPEN, nextID, [])), timestamp, ct).3.Sent?)
                && (sc.SendSide(), sc.sendCipher.log, sc.written) ==
                   AfterFrames(old(sc.SendSide()), old(sc.sendCipher.log), old(sc.written),
                               [Frame(CMD_OPEN, nextID, [])], timestamp, ct)
      ensures result.Just? ==> nextID in streams && result.value == streams[nextID]
    {
      if closed {
        return Nothing;
      }
      ghost var before := View();
      var s := Allocate();
      var sent := SendFrame(Frame(CMD_OPEN, nextID, []), timestamp, ct);
      if !sent {
        Unregister(nextID);
        assert before.table + {nextID} - {nextID} == before.table - {nextID};
        return Nothing;
      }
      return Just(s);
    }

    /** OPEN: a stream for the other end's id goes into the table and is offered to AcceptStream. */
    method HandleOpen(id: u32)
      requires Valid() && held == Nothing
      modifies this`streams, this`all, this`acceptCh, this`held
      ensures Valid()
      ensures Handled(View(), []) == M.HandleFrame(old(View()), Frame(CMD_OPEN, id, []))
    {
      var s := Register(id);
      Offer(s);
    }

    /** A stream joins the accept queue, or is held while there is no room. */
    method Offer(s: Stream)
      requires Valid()
      modifies this`acceptCh, this`held
      ensures Valid() && View() == OfferStream(old(View()), s.id)
    {
      if |acceptCh| >= ACCEPT_CAPACITY {
        held := Just(s);
      } else {
        acceptCh := acceptCh + [s];
      }
    }

    /** AcceptStream: the first stream of the queue; `eof` picks the closed case when both are ready. */
    method AcceptStream(eof: bool) returns (result: Maybe<Stream>)
      requires Valid()
      modifies this`acceptCh, this`held
      ensures Valid()
      ensures View() == M.AcceptStream(old(View()), eof).0
      ensures M.AcceptStream(old(View()), eof).1 ==
              if result.Just? then Accepted(result.value.id) else if closed then MuxClosed else NoneYet
    {
      if |acceptCh| == 0 || (closed && eof) {
        return Nothing;
      }
      result := Just(acceptCh[0]);
      acceptCh := acceptCh[1..];
      if held.Just? {
        acceptCh := acceptCh + [held.value];
        held := Nothing;
      }
    }

    /** DATA: the payload goes to the stream's queue; true when there is no room. */
    method HandleData(id: u32, payload: seq<byte>) returns (waiting: bool)
      requires Valid() && held == Nothing
      modifies all.Values
      ensures Valid()
      ensures waiting ==> View() == old(View())
      ensures (if waiting then Waiting else Handled(View(), [])) ==
              M.HandleFrame(old(View()), Frame(CMD_DATA, id, payload))
    {
      if id in streams && !streams[id].closed {
        var s := streams[id];
        if |s.readCh| >= READ_CAPACITY {
          return true;
        }
        s.readCh := s.readCh + [payload];
      }
      return false;
    }

    /** CLOSE: the stream is closed and taken out of the table. */
    method HandleClose(id: u32)
      requires Valid() && held == Nothing
      modifies this`streams, all.Values
      ensures Valid()
      ensures Handled(View(), []) == M.HandleFrame(old(View()), Frame(CMD_CLOSE, id, []))
    {
      if id in streams {
        MarkClosed(streams[id]);
        Unregister(id);
      }
    }

    /**
     A received frame, and the reply to a ping. While a stream is being offered, or a
     stream's queue is full, the handler waits and the frame changes nothing.
     */
    method HandleFrame(f: Frame, timestamp: i64, ct: seq<byte>) returns (waiting: bool)
      requires Valid()
      modifies this, all.Values
      modifies sc`sendSeq, sc`sendMsgCount, sc`sendByteCount, sc`written, sc.sendCipher
      ensures Valid()
      ensures waiting <==> M.HandleFrame(old(View()), f) == Waiting
      ensures waiting ==> View() == old(View()) && unchanged(sc) && unchanged(sc.sendCipher)
      ensures !waiting ==>
                var h := M.HandleFrame(old(View()), f);
                && View() == h.m
                && (sc.SendSide(), sc.sendCipher.log, sc.written) ==
                   AfterFrames(old(sc.SendSide()), old(sc.sendCipher.log), old(sc.written), h.reply, timestamp, ct)
    {
      if held.Just? {
        return true;
      }
      waiting := false;
      if f.cmd == CMD_OPEN {
        HandleOpen(f.id);
      } else if f.cmd == CMD_DATA {
        waiting := HandleData(f.id, f.payload);
      } else if f.cmd == CMD_CLOSE {
        HandleClose(f.id);
      } else if f.cmd == CMD_PING {
        var sent := SendFrame(Frame(CMD_PONG, f.id, []), timestamp, ct);
      }
    }

    /** Stream.Close at this end: the first call sends CLOSE and takes the stream out of the table. */
    method CloseStream(s: Stream, timestamp: i64, ct: seq<byte>)
      requires Valid() && s.id in all && all[s.id] == s
      modifies this`streams, s
      modifies sc`sendSeq, sc`sendMsgCount, sc`sendByteCount, sc`written, sc.sendCipher
      ensures Valid() && View() == M.CloseStream(old(View()), s.id)
      ensures (sc.SendSide(), sc.sendCipher.log, sc.written) ==
              AfterFrames(old(sc.SendSide()), old(sc.sendCipher.log), old(sc.written),
                          if old(s.closed) then [] else [Frame(CMD_CLOSE, s.id, [])], timestamp, ct)
    {
      if s.closed {
        return;
      }
      MarkClosed(s);
      var sent := SendFrame(Frame(CMD_CLOSE, s.id, []), timestamp, ct);
      Unregister(s.id);
    }

    method MarkClosed(s: Stream)
      requires Valid() && s.id in all && all[s.id] == s
      modifies s`closed
      ensures Valid()
      ensures View() == old(View()).(objs := old(View()).objs[s.id := old(View()).objs[s.id].(closed := true)])
    {
      s.closed := true;
    }

    /** One turn of the loop in Close. */
    method CloseOne(id: nat)
      requires Valid() && id in streams
      modifies this`streams, streams[id]
      ensures Valid() && streams == old(streams) - {id} && all == old(all)
      ensures View() == old(View()).(table := old(View()).table - {id},
                                     objs := CloseSome(old(View()).objs, {id}))
    {
      streams[id].closed := true;
      streams := streams - {id};
    }

    /** Mux.Close: the loop over the table closes every stream and takes it out. */
    method Close()
      requires Valid()
      modifies this, all.Values
      ensures Valid() && View() == M.CloseAll(old(View()))
    {
      if closed {
        return;
      }
      closed, held := true, Nothing;
      CloseStreams();
    }

    /** The loop of Close, over the table in any order. */
    method CloseStreams()
      requires Valid()
      modifies this`streams, all.Values
      ensures Valid() && all == old(all)
      ensures View() == old(View()).(table := {}, objs := CloseSome(old(View()).objs, old(View()).table))
    {
      ghost var before := View();
      var todo := streams.Keys;
      ClosedNone(before);
      while todo != {}
        invariant Valid() && all == old(all) && todo == streams.Keys
        invariant ClosedBut(before, View(), todo)
        decreases todo
      {
        var id :| id in todo;
        ClosedNext(before, View(), todo, id);
        CloseOne(id);
        todo := todo - {id};
      }
      ClosedAll(before, View());
    }

    /** One turn of the loop in Write, after `done` were sent. */
    method SendChunk(id: u32, done: seq<seq<byte>>, chunk: seq<byte>, timestamp: nat -> i64, ct: nat -> seq<byte>,
                     ghost st: C.SendState, ghost log: C.SealLog, ghost written: seq<byte>) returns (ok: bool)
      requires (sc.SendSide(), sc.sendCipher.log, sc.written, true) == SendChunks(st, log, written, id, done, timestamp, ct)
      modifies sc`sendSeq, sc`sendMsgCount, sc`sendByteCount, sc`written, sc.sendCipher
      ensures (sc.SendSide(), sc.sendCipher.log, sc.written, ok) ==
              SendChunks(st, log, written, id, done + [chunk], timestamp, ct)
    {
      SendChunksNext(st, log, written, id, done, chunk, timestamp, ct);
      ok := SendFrame(Frame(CMD_DATA, id, chunk), timestamp(|done|), ct(|done|));
    }

    /** The loop of Write. */
    method SendPieces(id: u32, p: seq<byte>, timestamp: nat -> i64, ct: nat -> seq<byte>)
      returns (sent: nat, ok: bool, chunks: seq<seq<byte>>)
      modifies sc`sendSeq, sc`sendMsgCount, sc`sendByteCount, sc`written, sc.sendCipher
      ensures sent <= |p| && WellCut(chunks, 32768)
      ensures (sc.SendSide(), sc.sendCipher.log, sc.written, ok) ==
              SendChunks(old(sc.SendSide()), old(sc.sendCipher.log), old(sc.written), id, chunks, timestamp, ct)
      ensures ok ==> sent == |p| && Flatten(chunks) == p
      ensures !ok ==>
                && chunks != [] && Flatten(chunks) <= p && Flatten(chunks[..|chunks| - 1]) == p[..sent]
                && SendChunks(old(sc.SendSide()), old(sc.sendCipher.log), old(sc.written), id,
                              chunks[..|chunks| - 1], timestamp, ct).3
    {
      sent, ok, chunks := 0, true, [];
      ghost var st, log, written := sc.SendSide(), sc.sendCipher.log, sc.written;
      while sent < |p|
        invariant ok && CutUpTo(p, sent, MAX_CHUNK, chunks)
        invariant (sc.SendSide(), sc.sendCipher.log, sc.written, true) ==
                  SendChunks(st, log, written, id, chunks, timestamp, ct)
        decreases |p| - sent
      {
        var end := if sent + MAX_CHUNK > |p| then |p| else sent + MAX_CHUNK;
        var chunk := p[sent..end];
        CutOne(p, sent, MAX_CHUNK, chunks);
        ok := SendChunk(id, chunks, chunk, timestamp, ct, st, log, written);
        chunks := chunks + [chunk];
        if !ok {
          return;
        }
        sent := end;
      }
    }

    /**
     Stream.Write: one DATA frame for every piece of p, in order, until one cannot be sent.
     `chunks` are the pieces tried; when one fails it is the last, and `sent` does not count it.
     */
    method WriteStream(s: Stream, p: seq<byte>, timestamp: nat -> i64, ct: nat -> seq<byte>)
      returns (sent: nat, ok: bool, chunks: seq<seq<byte>>)
      modifies sc`sendSeq, sc`sendMsgCount, sc`sendByteCount, sc`written, sc.sendCipher
      ensures sent <= |p| && WellCut(chunks, 32768)
      ensures s.closed ==> !ok && sent == 0 && chunks == [] && unchanged(sc) && unchanged(sc.sendCipher)
      ensures !s.closed ==>
                (sc.SendSide(), sc.sendCipher.log, sc.written, ok) ==
                SendChunks(old(sc.SendSide()), old(sc.sendCipher.log), old(sc.written), s.id, chunks, timestamp, ct)
      ensures ok ==> sent == |p| && Flatten(chunks) == p
      ensures !ok && !s.closed ==>
                && chunks != [] && Flatten(chunks) <= p && Flatten(chunks[..|chunks| - 1]) == p[..sent]
                && SendChunks(old(sc.SendSide()), old(sc.sendCipher.log), old(sc.written), s.id,
                              chunks[..|chunks| - 1], timestamp, ct).3
    {
      if s.closed {
        return 0, false, [];
      }
      sent, ok, chunks := SendPieces(s.id, p, timestamp, ct);
    }
  }

  /** Every stream of the table was closed and taken out, but those in `todo`. */
  ghost predicate ClosedBut(before: MuxSt, now: MuxSt, todo: set<nat>) {
    todo <= before.table && now == before.(table := todo, objs := CloseSome(before.objs, before.table - todo))
  }

  lemma ClosedNone(before: MuxSt)
    ensures ClosedBut(before, before, before.table)
  {
    assert CloseSome(before.objs, before.table - before.table) == before.objs;
  }

  lemma ClosedNext(before: MuxSt, now: MuxSt, todo: set<nat>, id: nat)
    requires ClosedBut(before, now, todo) && id in todo
    ensures ClosedBut(before, now.(table := now.table - {id}, objs := CloseSome(now.objs, {id})), todo - {id})
  {
    assert CloseSome(CloseSome(before.objs, before.table - todo), {id}) ==
           CloseSome(before.objs, before.table - (todo - {id}));
  }

  lemma ClosedAll(before: MuxSt, now: MuxSt)
    requires ClosedBut(before, now, {})
    ensures now == before.(table := {}, objs := CloseSome(before.objs, before.table))
  {
    assert before.table - {} == before.table;
  }

  /** The state, log and output after one DATA frame for each chunk, and whether all were sent. */
  function SendChunks(st: C.SendState, log: C.SealLog, written: seq<byte>, id: u32,
                      chunks: seq<seq<byte>>, timestamp: nat -> i64, ct: nat -> seq<byte>)
    : (C.SendState, C.SealLog, seq<byte>, bool)
  {
    if chunks == [] then (st, log, written, true)
    else
      var k := |chunks| - 1;
      var (st1, log1, written1, ok) := SendChunks(st, log, written, id, chunks[..k], timestamp, ct);
      var (st2, log2, bytes, r) := C.Send(st1, log1, EncodeFrame(Frame(CMD_DATA, id, chunks[k])), timestamp(k), ct(k));
      (st2, log2, written1 + bytes, ok && r.Sent?)
  }

  lemma SendChunksNext(st: C.SendState, log: C.SealLog, written: seq<byte>, id: u32,
                       chunks: seq<seq<byte>>, chunk: seq<byte>, timestamp: nat -> i64, ct: nat -> seq<byte>)
    ensures var k := |chunks|;
            var (st1, log1, written1, ok) := SendChunks(st, log, written, id, chunks, timestamp, ct);
            var (st2, log2, bytes, r) := C.Send(st1, log1, EncodeFrame(Frame(CMD_DATA, id, chunk)), timestamp(k), ct(k));
            SendChunks(st, log, written, id, chunks + [chunk], timestamp, ct) ==
            (st2, log2, written1 + bytes, ok && r.Sent?)
  {
    assert (chunks + [chunk])[..|chunks|] == chunks;
  }
}
