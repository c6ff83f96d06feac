/**
 The mutable GroukStream object. Each method is proved to take the object from the
 value it has to the value that the function of the same name in module Grouk gives.
 */
module GroukObject {
  import opened Bytes
  import opened Reader
  import opened G = Grouk

  class GroukStream {
    var sendSeq: nat
    var sendBuf: map<nat, SendEntry>
    var sendWin: int
    var cwnd: int
    var ssthresh: int
    var recvBuf: map<nat, seq<byte>>
    var recvNext: nat
    var readCh: seq<seq<byte>>
    var readBuf: seq<byte>
    var closed: bool

    ghost function View(): Stream
      reads this
    {
      Stream(sendSeq, sendBuf, sendWin, cwnd, ssthresh, recvBuf, recvNext, readCh, readBuf, closed)
    }

    constructor ()
      ensures View() == NewStream(1) && cwnd == 16 && ssthresh == 64
    {
      sendSeq, sendBuf, sendWin := 0, map[], 0;
      cwnd, ssthresh := INITIAL_CWND, WINDOW_SIZE / 2;
      recvBuf, recvNext, readCh, readBuf, closed := map[], 1, [], [], false;
    }

    /** Number a chunk, keep it for retransmission, and return the packet to send. */
    method SendChunk(chunk: seq<byte>, now: int) returns (frame: Frame)
      modifies this
      ensures View() == PushChunk(old(View()), chunk, now)
      ensures frame == (sendSeq, chunk)
    {
      sendSeq := (sendSeq + 1) % SEQ_MOD;
      sendBuf := sendBuf[sendSeq := SendEntry(chunk, now, 0)];
      sendWin := sendWin + 1;
      frame := (sendSeq, chunk);
    }

    /** One turn of the sending loop, after `chunks` went out in `frames`. */
    method SendNext(p: seq<byte>, sent: nat, frames: seq<Frame>, chunks: seq<seq<byte>>, clock: nat -> int,
                    ghost start: Stream)
      returns (sent': nat, frames': seq<Frame>, chunks': seq<seq<byte>>)
      requires sent < |p| && Sending(start, View(), p, sent, frames, chunks, clock)
      modifies this
      ensures sent < sent' && Sending(start, View(), p, sent', frames', chunks', clock)
    {
      sent' := if sent + MAX_PAYLOAD > |p| then |p| else sent + MAX_PAYLOAD;
      var chunk := p[sent..sent'];
      SendingNext(start, View(), p, sent, frames, chunks, clock);
      var frame := SendChunk(chunk, clock(|chunks|));
      frames', chunks' := frames + [frame], chunks + [chunk];
    }

    /** The sending loop, up to the point where it is done or the window is full. */
    method SendAvailable(p: seq<byte>, clock: nat -> int)
      returns (sent: nat, frames: seq<Frame>, chunks: seq<seq<byte>>)
      requires sendSeq < SEQ_MOD
      modifies this
      ensures sent <= |p| && Flatten(chunks) == p[..sent] && WellCut(chunks, 1356)
      ensures View() == PushChunks(old(View()), chunks, clock)
      ensures Numbered(frames, chunks, old(sendSeq))
      ensures sent < |p| ==> sendWin >= cwnd
    {
      sent, frames, chunks := 0, [], [];
      while sent < |p| && sendWin < cwnd
        invariant Sending(old(View()), View(), p, sent, frames, chunks, clock)
        decreases |p| - sent
      {
        sent, frames, chunks := SendNext(p, sent, frames, chunks, clock, old(View()));
      }
    }

    /** Write: refuse on a closed stream, otherwise send while the window allows. */
    method Write(p: seq<byte>, clock: nat -> int)
      returns (result: WriteResult, sent: nat, frames: seq<Frame>, chunks: seq<seq<byte>>)
      requires sendSeq < SEQ_MOD
      modifies this
      ensures result == ClosedPipe <==> old(closed)
      ensures result == Done <==> !old(closed) && sent == |p|
      ensures result == WindowFull ==> sent < |p| && sendWin >= cwnd
      ensures old(closed) ==> sent == 0
      ensures sent <= |p| && Flatten(chunks) == p[..sent] && WellCut(chunks, 1356)
      ensures View() == PushChunks(old(View()), chunks, clock)
      ensures Numbered(frames, chunks, old(sendSeq))
    {
      if closed {
        return ClosedPipe, 0, [], [];
      }
      sent, frames, chunks := SendAvailable(p, clock);
      result := if sent == |p| then Done else WindowFull;
    }

    method Read(n: nat, eof: bool) returns (result: ReadResult)
      modifies this
      ensures (View(), result) == G.Read(old(View()), n, eof)
      ensures Answers(old(readBuf), old(readCh), old(closed), n, eof, result)
    {
      if |readBuf| > 0 {
        var m := if n < |readBuf| then n else |readBuf|;
        result := Got(readBuf[..m]);
        readBuf := readBuf[m..];
        return;
      }
      if |readCh| > 0 && !(closed && eof) {
        var data := readCh[0];
        readCh := readCh[1..];
        var m := if n < |data| then n else |data|;
        if m < |data| {
          readBuf := data[m..];
        }
        assert readBuf == data[m..];
        return Got(data[..m]);
      }
      return if closed then Eof else Blocked;
    }

    method DeliverOrdered(sends: nat)
      modifies this
      ensures View() == G.DeliverOrdered(old(View()), sends)
    {
      var left := sends;
      while true
        invariant G.DeliverOrdered(View(), left) == G.DeliverOrdered(old(View()), sends)
        decreases |recvBuf|
      {
        var next := recvNext;
        if next !in recvBuf {
          return;
        }
        var data := recvBuf[next];
        ghost var before := recvBuf;
        recvBuf := recvBuf - {next};
        RemoveShrinks(before, next);
        if closed && (|readCh| >= READ_CAPACITY || left == 0) {
          return;
        } else if |readCh| < READ_CAPACITY {
          readCh := readCh + [data];
          recvNext := (recvNext + 1) % SEQ_MOD;
          left := if closed then left - 1 else left;
        } else {
          recvBuf := recvBuf[next := data];
          assert recvBuf == before;
          return;
        }
      }
    }

    method HandleRecv(q: nat, data: seq<byte>)
      modifies this
      ensures View() == G.HandleRecv(old(View()), q, data)
    {
      if closed {
        return;
      }
      recvBuf := recvBuf[q := data];
      DeliverOrdered(0);
    }

    method HandleAck(ack: nat)
      modifies this
      ensures View() == G.HandleAck(old(View()), ack)
    {
      if ack in sendBuf {
        sendBuf := sendBuf - {ack};
        sendWin := sendWin - 1;
        if cwnd < WINDOW_SIZE {
          cwnd := cwnd + 1;
        }
      }
    }

    /** One turn of the walk: an overdue entry is sent again, or closes the stream. */
    method RetryOne(q: nat, now: int) returns (resent: seq<nat>, stop: bool)
      modifies this
      ensures if q !in old(sendBuf) || !Overdue(old(View()), q, now) then View() == old(View()) && resent == [] && !stop
              else if old(sendBuf[q]).retries + 1 > MAX_RETRANSMIT then
                View() == Retry(old(View()), q).(closed := true) && resent == [] && stop
              else View() == Resend(old(View()), q, now) && resent == [q] && !stop
    {
      resent, stop := [], false;
      if q in sendBuf {
        var e := sendBuf[q];
        if now - e.sentAt > Rto(e.retries) {
          e := e.(retries := e.retries + 1);
          sendBuf := sendBuf[q := e];
          if e.retries == 1 {
            var half := cwnd / 2;
            if half < MIN_CWND {
              half := MIN_CWND;
            }
            cwnd := half;
            ssthresh := half;
          }
          if e.retries > MAX_RETRANSMIT {
            MarkClosed();
            stop := true;
          } else {
            sendBuf := sendBuf[q := e.(sentAt := now)];
            resent := [q];
          }
        }
      }
    }

    method RetransmitTick(order: seq<nat>, now: int, sends: nat) returns (resent: seq<nat>)
      modifies this
      ensures (View(), resent) == Tick(old(View()), order, now, sends)
    {
      resent := [];
      var i := 0;
      var stop := false;
      assert order[0..] == order && forall more: seq<nat> :: resent + more == more;
      while i < |order| && !stop
        invariant 0 <= i <= |order|
        invariant stop ==> (View(), resent) == Scan(old(View()), order, now)
        invariant !stop ==>
                    var (rest, more) := Scan(View(), order[i..], now);
                    (rest, resent + more) == Scan(old(View()), order, now)
      {
        assert order[i..][0] == order[i] && order[i..][1..] == order[i + 1..];
        var again;
        again, stop := RetryOne(order[i], now);
        ghost var more := Scan(View(), order[i + 1..], now).1;
        assert resent + (again + more) == (resent + again) + more;
        resent := resent + again;
        i := i + 1;
      }
      assert !stop ==> order[i..] == [] && resent + [] == resent;
      DeliverOrdered(sends);
    }

    /** Close: the number spent on the CLOSE packet, or nothing when already closed. */
    method Close() returns (closeSeq: seq<nat>)
      modifies this
      ensures View() == CloseStream(old(View()))
      ensures closeSeq == if old(closed) then [] else [sendSeq]
    {
      if closed {
        return [];
      }
      closed := true;
      sendSeq := (sendSeq + 1) % SEQ_MOD;
      return [sendSeq];
    }

    method MarkClosed()
      modifies this
      ensures View() == old(View()).(closed := true)
    {
      closed := true;
    }
  }
}
