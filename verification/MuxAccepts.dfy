/** AcceptStream over whole runs of two mux endpoints: the peer's streams, in the order it opened them. */
module MuxAccepts {
  import opened Bytes
  import opened PacketCodec
  import opened MuxState
  import opened SecureChannel
  import opened SecureRuns
  import opened SecureFifo
  import opened MuxRuns

  /** The ids of the OPEN frames, in order. */
  function OpenIds(fs: seq<Frame>): seq<nat> {
    if fs == [] then []
    else
      var f := fs[|fs| - 1];
      OpenIds(fs[..|fs| - 1]) + if f.cmd == 1 then [f.id] else []
  }

  lemma OpenIdsSnoc(fs: seq<Frame>, f: Frame)
    ensures OpenIds(fs + [f]) == if f.cmd == CMD_OPEN then OpenIds(fs) + [f.id] else OpenIds(fs)
  {
    assert (fs + [f])[..|fs|] == fs;
    assert OpenIds(fs) + [] == OpenIds(fs);
  }

  lemma {:induction false} OpenIdsPrefix(fs: seq<Frame>, gs: seq<Frame>)
    requires fs <= gs
    ensures OpenIds(fs) <= OpenIds(gs)
  {
    if |fs| < |gs| {
      var init, g := gs[..|gs| - 1], gs[|gs| - 1];
      OpenIdsPrefix(fs, init);
      assert init + [g] == gs;
      OpenIdsSnoc(init, g);
    } else {
      assert fs == gs;
    }
  }

  function HeldIds(held: Held): seq<nat> {
    if held.Holding? then [held.id] else []
  }

  /** Everything offered so far: returned by AcceptStream, queued, being offered. */
  function Offered(accepted: seq<nat>, m: MuxSt): seq<nat> {
    accepted + m.acceptCh + HeldIds(m.held)
  }

  /** Everything, or everything but the last. */
  ghost predicate AllButOne(offered: seq<nat>, ids: seq<nat>) {
    offered == ids || (ids != [] && offered == ids[..|ids| - 1])
  }

  /**
   The streams offered are those the peer was heard to open: all of them until the mux
   closes, and after that all but the one that was being offered.
   */
  ghost predicate OffersInv(accepted: seq<nat>, m: MuxSt, heard: seq<Frame>) {
    && Offered(accepted, m) <= OpenIds(heard)
    && (!m.closed ==> Offered(accepted, m) == OpenIds(heard))
    && (m.closed ==> m.held.Nobody? && AllButOne(Offered(accepted, m), OpenIds(heard)))
    && |m.acceptCh| <= 32 && (m.held.Holding? ==> |m.acceptCh| == 32)
  }

  /** When AcceptStream waits, when it fails, and otherwise whose turn it is. */
  lemma AcceptAnswers(m: MuxSt, eof: bool)
    ensures var result := AcceptStream(m, eof).1;
            && (result.NoneYet? <==> m.acceptCh == [] && !m.closed)
            && (result.MuxClosed? <==> m.closed && (m.acceptCh == [] || eof))
            && (result.Accepted? ==> m.acceptCh != [] && result.id == m.acceptCh[0])
  {
  }

  lemma AcceptKeeps(accepted: seq<nat>, m: MuxSt, heard: seq<Frame>, eof: bool)
    requires OffersInv(accepted, m, heard)
    ensures var (m', result) := AcceptStream(m, eof);
            OffersInv(accepted + if result.Accepted? then [result.id] else [], m', heard)
  {
    if m.acceptCh == [] || (m.closed && eof) {
      assert accepted + [] == accepted;
    } else {
      TakeFirst(accepted, m.acceptCh, HeldIds(m.held));
    }
  }

  lemma TakeFirst(accepted: seq<nat>, queued: seq<nat>, held: seq<nat>)
    requires queued != []
    ensures accepted + [queued[0]] + (queued[1..] + held) + [] == accepted + queued + held
    ensures accepted + [queued[0]] + queued[1..] + held == accepted + queued + held
  {
    assert queued == [queued[0]] + queued[1..];
  }

  lemma CloseKeeps(accepted: seq<nat>, m: MuxSt, heard: seq<Frame>)
    requires OffersInv(accepted, m, heard)
    ensures OffersInv(accepted, CloseAll(m), heard)
  {
    assert Offered(accepted, m) == (accepted + m.acceptCh + []) + HeldIds(m.held);
    assert m.held.Nobody? ==> Offered(accepted, m) == accepted + m.acceptCh + [];
  }

  lemma FrameKeeps(accepted: seq<nat>, m: MuxSt, heard: seq<Frame>, f: Frame)
    requires OffersInv(accepted, m, heard) && !m.closed && HandleFrame(m, f).Handled?
    ensures OffersInv(accepted, HandleFrame(m, f).m, heard + [f])
  {
    OpenIdsSnoc(heard, f);
    if f.cmd == CMD_OPEN {
      assert accepted + m.acceptCh + [] == accepted + m.acceptCh;
      assert accepted + (m.acceptCh + [f.id]) + [] == accepted + m.acceptCh + [f.id];
    }
  }

  ghost predicate EndOffers(x: End) {
    OffersInv(x.accepted, x.m, x.heard)
  }

  lemma SameOffers(x: End, x': End)
    requires EndOffers(x) && x'.accepted == x.accepted && x'.heard == x.heard
    requires x'.m.acceptCh == x.m.acceptCh && x'.m.held == x.m.held && x'.m.closed == x.m.closed
    ensures EndOffers(x')
  {
  }

  lemma OtherCalls(x: End, act: Act)
    requires !act.Accept? && !act.CloseMux?
    ensures var x' := Local(x, act);
            && x'.accepted == x.accepted && x'.heard == x.heard
            && x'.m.acceptCh == x.m.acceptCh && x'.m.held == x.m.held && x'.m.closed == x.m.closed
  {
  }

  lemma LocalOffers(x: End, act: Act)
    requires EndOffers(x)
    ensures EndOffers(Local(x, act))
  {
    if act.Accept? {
      AcceptKeeps(x.accepted, x.m, x.heard, act.eof);
    } else if act.CloseMux? {
      CloseKeeps(x.accepted, x.m, x.heard);
    } else {
      OtherCalls(x, act);
      SameOffers(x, Local(x, act));
    }
  }

  lemma PostSame(x: End, f: Frame, ts: i64, ct: seq<byte>)
    ensures var x' := Post(x, f, ts, ct).0; x'.accepted == x.accepted && x'.heard == x.heard && x'.m == x.m
  {
  }

  lemma PacketOffers(x: End, p: Packet, ts: i64, ct: seq<byte>)
    requires EndOffers(x) && !x.m.closed && HandlePacket(x, p, ts, ct).Took?
    ensures EndOffers(HandlePacket(x, p, ts, ct).x)
  {
    if p.kind == TYPE_PING {
      SameOffers(x, HandlePacket(x, p, ts, ct).x);
    } else if p.kind == TYPE_CLOSE {
      CloseKeeps(x.accepted, x.m, x.heard);
    } else if p.kind == TYPE_DATA && DecodeFrame(p.payload) != [] {
      var f := DecodeFrame(p.payload)[0];
      var h := HandleFrame(x.m, f);
      FrameKeeps(x.accepted, x.m, x.heard, f);
      if h.reply != [] {
        PostSame(Hear(x, f, h.m), h.reply[0], ts, ct);
        SameOffers(Hear(x, f, h.m), HandlePacket(x, p, ts, ct).x);
      }
    }
  }

  lemma RecvOffers(x: End, y: End, ts: i64, ct: seq<byte>)
    requires EndOffers(x)
    ensures EndOffers(DoRecv(x, y, ts, ct).0)
  {
    if !x.m.closed && !x.m.held.Holding? && y.out != [] {
      AfterRecvOffers(x, y.out, RecvPacket(x.rx, y.tx.log, y.out), ts, ct);
    }
  }

  lemma AfterRecvOffers(x: End, out: seq<byte>, received: (RecvState, RecvResult, seq<byte>), ts: i64, ct: seq<byte>)
    requires EndOffers(x) && !x.m.closed
    ensures EndOffers(AfterRecv(x, out, received, ts, ct).0)
  {
    var (rx, result, rest) := received;
    if result.Received? {
      var x1 := x.(rx := rx, k := x.k + 1);
      SameOffers(x, x1);
      if HandlePacket(x1, result.packet, ts, ct).Took? {
        PacketOffers(x1, result.packet, ts, ct);
      }
    } else {
      CloseKeeps(x.accepted, x.m, x.heard);
    }
  }

  lemma {:induction false} RunOffers(steps: seq<(bool, Act)>)
    ensures EndOffers(Run(steps).a) && EndOffers(Run(steps).b)
  {
    if steps != [] {
      var step := steps[|steps| - 1];
      RunOffers(steps[..|steps| - 1]);
      StepOffers(Run(steps[..|steps| - 1]), step.0, step.1);
    }
  }

  lemma StepOffers(s: Sys, atClient: bool, act: Act)
    requires EndOffers(s.a) && EndOffers(s.b)
    ensures var s' := Next(s, (atClient, act)); EndOffers(s'.a) && EndOffers(s'.b)
  {
    if act.Recv? {
      RecvOffers(s.a, s.b, act.ts, act.ct);
      RecvOffers(s.b, s.a, act.ts, act.ct);
    } else {
      LocalOffers(s.a, act);
      LocalOffers(s.b, act);
    }
  }

  /**
   AcceptStream returns the streams that the peer opened, in the order it opened them and
   each once; with what is queued and being offered they are all of those, when every
   packet was taken and the mux is open, and all but at most one of those it heard of when
   it is closed.
   */
  ghost predicate AcceptsPeers(x: End, y: End) {
    && x.accepted <= OpenIds(y.fs)
    && Offered(x.accepted, x.m) <= OpenIds(y.fs)
    && (!x.m.closed && x.k == |y.tx.sent| ==> Offered(x.accepted, x.m) == OpenIds(y.fs))
    && (x.m.closed ==> x.m.held.Nobody? && AllButOne(Offered(x.accepted, x.m), OpenIds(x.heard)))
  }

  lemma OfferedPrefix(accepted: seq<nat>, m: MuxSt, heard: seq<Frame>, fs: seq<Frame>)
    requires OffersInv(accepted, m, heard) && heard <= fs
    ensures accepted <= Offered(accepted, m) <= OpenIds(fs)
    ensures !m.closed && heard == fs ==> Offered(accepted, m) == OpenIds(fs)
  {
    OpenIdsPrefix(heard, fs);
  }

  lemma PairAccepts(x: End, y: End)
    requires ChannelInv(y) && InStepWith(y, x) && EndOffers(x)
    ensures AcceptsPeers(x, y)
  {
    InStepPrefix(y, x);
    OfferedPrefix(x.accepted, x.m, x.heard, y.fs);
    if x.k == |y.tx.sent| {
      AllHeard(x, y);
    }
  }

  lemma {:induction false} AcceptedInOrder(steps: seq<(bool, Act)>)
    requires Limits(Run(steps))
    ensures var s := Run(steps); AcceptsPeers(s.a, s.b) && AcceptsPeers(s.b, s.a)
  {
    RunInv(steps);
    RunOffers(steps);
    PairAccepts(Run(steps).a, Run(steps).b);
    PairAccepts(Run(steps).b, Run(steps).a);
  }
}
