/**
 Two mux endpoints, each sending to the other over a sealed channel on a byte stream. One
 action is one call: opening, writing a chunk, closing, reading, padding, or taking one
 packet off the stream and handling it.
 */
module MuxRuns {
  import opened Bytes
  import opened Reader
  import opened PacketCodec
  import opened MuxState
  import opened SecureChannel
  import opened SecureRuns
  import opened SecureFifo

  /** What a stream has returned from Read, and the chunks that were put on its queue. */
  datatype Hist = Hist(got: seq<byte>, arrived: seq<seq<byte>>)

  /**
   An endpoint with its side of both channels: `out` is what it wrote and the peer has not
   read, `k` the number of packets it took. `fs` are the frames it sent, `heard` those it
   handled, `wrote` the bytes framed for every id, `opens` the calls of OpenStream, `accepted`
   the ids AcceptStream returned, `failed` the ids whose OPEN frame could not be sent, and
   `left` the ids whose stream was closed here, by its own Close or by Mux.Close.
   */
  datatype End = End(
    m: MuxSt, tx: Sender, out: seq<byte>, rx: RecvState, k: nat,
    fs: seq<Frame>, heard: seq<Frame>, hist: map<nat, Hist>, wrote: map<nat, seq<byte>>, opens: nat,
    accepted: seq<nat>, failed: set<nat>, left: set<nat>)

  datatype Sys = Sys(a: End, b: End)

  /** Timestamps and ciphertexts are outcomes of the clock and of the random source. */
  datatype Act =
    | Open(ts: i64, ct: seq<byte>)
    | Write(id: u32, chunk: seq<byte>, ts: i64, ct: seq<byte>)
    | CloseOne(id: u32, ts: i64, ct: seq<byte>)
    | Read(id: u32, n: nat, eof: bool)
    | Padding(packet: Packet, ct: seq<byte>)
    | KeepAlive(ts: i64, ct: seq<byte>)
    | Accept(eof: bool)
    | CloseMux
    | Recv(ts: i64, ct: seq<byte>)

  function NewEnd(isServer: bool): End {
    End(NewMux(isServer), NewSender(), [], QUIET, 0, [], [], map[], map[], 0, [], {}, {})
  }

  function Init(): Sys {
    Sys(NewEnd(false), NewEnd(true))
  }

  function Get(wrote: map<nat, seq<byte>>, id: nat): seq<byte> {
    if id in wrote then wrote[id] else []
  }

  /** Send one frame; the flag tells whether it went out. */
  function Post(x: End, f: Frame, ts: i64, ct: seq<byte>): (End, bool) {
    var (tx, bytes) := SenderNext(x.tx, Payload(EncodeFrame(f), ts, ct));
    var ok := |tx.sent| > |x.tx.sent|;
    (x.(tx := tx, out := x.out + bytes, fs := if ok then x.fs + [f] else x.fs), ok)
  }

  function PostOther(x: End, p: Packet, ct: seq<byte>): End {
    var (tx, bytes) := SenderNext(x.tx, Other(p, ct));
    x.(tx := tx, out := x.out + bytes)
  }

  function DoOpen(x: End, ts: i64, ct: seq<byte>): End {
    if x.m.closed then x
    else
      var id := NextID(x.m);
      var (x1, ok) := Post(x, Frame(CMD_OPEN, id, []), ts, ct);
      x1.(m := OpenStream(x.m, ok), hist := x.hist[id := Hist([], [])], opens := x.opens + 1,
          failed := if ok then x.failed - {id} else x.failed + {id}, left := x.left - {id})
  }

  /** One turn of the loop in Write, by whoever holds the stream. */
  function DoWrite(x: End, id: u32, chunk: seq<byte>, ts: i64, ct: seq<byte>): End {
    if id !in x.m.objs || !(0 < |chunk| <= MAX_CHUNK) then x
    else
      var (x1, ok) := Post(x, Frame(CMD_DATA, id, chunk), ts, ct);
      if ok then x1.(wrote := x.wrote[id := Get(x.wrote, id) + chunk]) else x1
  }

  function DoClose(x: End, id: u32, ts: i64, ct: seq<byte>): End {
    if id !in x.m.objs || x.m.objs[id].closed then x
    else Post(x, Frame(CMD_CLOSE, id, []), ts, ct).0.(m := CloseStream(x.m, id), left := x.left + {id})
  }

  function DoRead(x: End, id: nat, n: nat, eof: bool): End {
    if id !in x.m.objs || id !in x.hist then x
    else
      var (m, result) := ReadStream(x.m, id, n, eof);
      x.(m := m, hist := x.hist[id := x.hist[id].(got := x.hist[id].got + BytesOf(result))])
  }

  function DoCloseMux(x: End): End {
    if x.m.closed then x else x.(m := CloseAll(x.m), left := x.left + x.m.table)
  }

  function DoAccept(x: End, eof: bool): End {
    var (m, result) := AcceptStream(x.m, eof);
    x.(m := m, accepted := x.accepted + if result.Accepted? then [result.id] else [])
  }

  function DoPing(x: End, ts: i64, ct: seq<byte>): End {
    if x.m.closed then x else Post(x, Frame(CMD_PING, 0, []), ts, ct).0
  }

  function Local(x: End, act: Act): End {
    match act
    case Open(ts, ct) => DoOpen(x, ts, ct)
    case Write(id, chunk, ts, ct) => DoWrite(x, id, chunk, ts, ct)
    case CloseOne(id, ts, ct) => DoClose(x, id, ts, ct)
    case Read(id, n, eof) => DoRead(x, id, n, eof)
    case Padding(p, ct) => PostOther(x, p, ct)
    case KeepAlive(ts, ct) => DoPing(x, ts, ct)
    case Accept(eof) => DoAccept(x, eof)
    case CloseMux => DoCloseMux(x)
    case Recv(ts, ct) => x
  }

  /** The histories after frame f was handled. */
  function HistAfter(x: End, f: Frame): map<nat, Hist> {
    if f.cmd == CMD_OPEN then x.hist[f.id := Hist([], [])]
    else if f.cmd == CMD_DATA && f.id in x.m.table && f.id in x.m.objs && !x.m.objs[f.id].closed && f.id in x.hist then
      x.hist[f.id := x.hist[f.id].(arrived := x.hist[f.id].arrived + [f.payload])]
    else x.hist
  }

  /** Handling a frame, without the replies. */
  function Hear(x: End, f: Frame, m: MuxSt): End {
    var begun := if f.cmd == CMD_OPEN then {f.id} else {};
    x.(m := m, heard := x.heard + [f], hist := HistAfter(x, f), failed := x.failed - begun, left := x.left - begun)
  }

  /** Handling a packet; `Wait` means that the handler cannot finish yet. */
  datatype Took = Wait | Took(x: End)

  function HandlePacket(x: End, p: Packet, ts: i64, ct: seq<byte>): Took {
    if p.kind == TYPE_PING then Took(PostOther(x, NewEmptyPacket(TYPE_PONG, p.seqNum, ts), ct))
    else if p.kind == TYPE_CLOSE then Took(DoCloseMux(x))
    else if p.kind == TYPE_DATA then
      var frames := DecodeFrame(p.payload);
      if frames == [] then Took(x)
      else
        match HandleFrame(x.m, frames[0])
        case Waiting => Wait
        case Handled(m, reply) =>
          var x1 := Hear(x, frames[0], m);
          Took(if reply == [] then x1 else Post(x1, reply[0], ts, ct).0)
    else Took(x)
  }

  /** One turn of the read loop of x: the new x, and what is left of y's output. */
  function DoRecv(x: End, y: End, ts: i64, ct: seq<byte>): (End, seq<byte>) {
    if x.m.closed || x.m.held.Holding? || y.out == [] then (x, y.out)
    else AfterRecv(x, y.out, RecvPacket(x.rx, y.tx.log, y.out), ts, ct)
  }

  function AfterRecv(x: End, out: seq<byte>, received: (RecvState, RecvResult, seq<byte>), ts: i64, ct: seq<byte>)
    : (End, seq<byte>)
  {
    var (rx, result, rest) := received;
    match result
    case NotReceived(e) => (DoCloseMux(x.(rx := rx)), rest)
    case Received(p) => AfterTake(x, out, rest, HandlePacket(x.(rx := rx, k := x.k + 1), p, ts, ct))
  }

  /** A packet whose handler has to wait stays on the stream. */
  function AfterTake(x: End, out: seq<byte>, rest: seq<byte>, took: Took): (End, seq<byte>) {
    match took
    case Wait => (x, out)
    case Took(x1) => (x1, rest)
  }

  /** An action at the client (`true`) or at the server. */
  function Next(s: Sys, step: (bool, Act)): Sys {
    var (atClient, act) := step;
    if act.Recv? then
      if atClient then
        var (x, rest) := DoRecv(s.a, s.b, act.ts, act.ct); Sys(x, s.b.(out := rest))
      else
        var (x, rest) := DoRecv(s.b, s.a, act.ts, act.ct); Sys(s.a.(out := rest), x)
    else if atClient then s.(a := Local(s.a, act))
    else s.(b := Local(s.b, act))
  }

  function Run(steps: seq<(bool, Act)>): Sys {
    if steps == [] then Init() else Next(Run(steps[..|steps| - 1]), steps[|steps| - 1])
  }

  /** The client opened at most 10^9 streams, and the server's ids did not wrap. */
  predicate Limits(s: Sys) {
    s.a.opens <= SERVER_BASE && s.b.opens < ID_MOD - SERVER_BASE
  }

  // ---------- frames ----------

  /** The payloads of the DATA frames for one id, in order. */
  function DataFor(fs: seq<Frame>, id: nat): seq<seq<byte>> {
    if fs == [] then []
    else
      var f := fs[|fs| - 1];
      DataFor(fs[..|fs| - 1], id) + if f.cmd == CMD_DATA && f.id == id then [f.payload] else []
  }

  lemma DataForSnoc(fs: seq<Frame>, f: Frame, id: nat)
    ensures DataFor(fs + [f], id) == DataFor(fs, id) + if f.cmd == CMD_DATA && f.id == id then [f.payload] else []
  {
    assert (fs + [f])[..|fs|] == fs;
  }

  lemma {:induction false} DataForPrefix(fs: seq<Frame>, gs: seq<Frame>, id: nat)
    requires fs <= gs
    ensures DataFor(fs, id) <= DataFor(gs, id)
  {
    if |fs| < |gs| {
      DataForPrefix(fs, gs[..|gs| - 1], id);
      assert gs == gs[..|gs| - 1] + [gs[|gs| - 1]];
    } else {
      assert fs == gs;
    }
  }

  lemma {:induction false} NoDataFor(fs: seq<Frame>, id: nat)
    requires forall i :: 0 <= i < |fs| ==> !(fs[i].cmd == CMD_DATA && fs[i].id == id)
    ensures DataFor(fs, id) == []
  {
    if fs != [] {
      NoDataFor(fs[..|fs| - 1], id);
    }
  }

  /** The frame that a packet carries, if any. */
  function FramesIn(p: Packet): seq<Frame> {
    if p.kind == TYPE_DATA then DecodeFrame(p.payload) else []
  }

  /** The frames in a list of packets. */
  function Frames(ps: seq<Packet>): seq<Frame> {
    if ps == [] then []
    else
      var p := ps[|ps| - 1];
      Frames(ps[..|ps| - 1]) + FramesIn(p)
  }

  lemma FramesSnoc(ps: seq<Packet>, p: Packet)
    ensures Frames(ps + [p]) == Frames(ps) + FramesIn(p)
  {
    assert (ps + [p])[..|ps|] == ps;
  }

  lemma {:induction false} FramesPrefix(ps: seq<Packet>, k: nat)
    requires k <= |ps|
    ensures Frames(ps[..k]) <= Frames(ps)
    decreases |ps|
  {
    if k < |ps| {
      FramesPrefix(ps[..|ps| - 1], k);
      assert ps[..|ps| - 1][..k] == ps[..k];
    } else {
      assert ps[..k] == ps;
    }
  }

  // ---------- the invariant ----------

  predicate Own(isServer: bool, id: nat) {
    if isServer then SERVER_BASE < id else 1 <= id <= SERVER_BASE
  }

  predicate IsOpen(f: Frame, id: nat) {
    f.cmd == CMD_OPEN && f.id == id
  }

  predicate IsData(f: Frame, id: nat) {
    f.cmd == CMD_DATA && f.id == id
  }

  /** An end opens only ids of its own that it has counted. */
  ghost predicate OpensOwn(fs: seq<Frame>, isServer: bool, next: nat) {
    forall i :: 0 <= i < |fs| && fs[i].cmd == CMD_OPEN ==> Own(isServer, fs[i].id) && fs[i].id <= next
  }

  /** Before an id is opened there is neither an OPEN nor a DATA frame for it. */
  ghost predicate OpenFirst(fs: seq<Frame>) {
    forall i, j :: 0 <= j < i < |fs| && fs[i].cmd == CMD_OPEN ==>
      !IsOpen(fs[j], fs[i].id) && !IsData(fs[j], fs[i].id)
  }

  ghost predicate DataKnown(fs: seq<Frame>, ids: set<nat>) {
    forall i :: 0 <= i < |fs| && fs[i].cmd == CMD_DATA ==> fs[i].id in ids
  }

  ghost predicate Opened(heard: seq<Frame>, id: nat) {
    exists i :: 0 <= i < |heard| && IsOpen(heard[i], id)
  }

  /** Every stream object was opened here or on an OPEN frame that was heard. */
  ghost predicate ObjsKnown(ids: set<nat>, isServer: bool, next: nat, heard: seq<Frame>) {
    forall id :: id in ids ==> (Own(isServer, id) && id <= next) || Opened(heard, id)
  }

  ghost predicate WroteOk(fs: seq<Frame>, wrote: map<nat, seq<byte>>) {
    forall id :: Flatten(DataFor(fs, id)) == Get(wrote, id)
  }

  /** A stream holds the chunks heard for it; all of them while it is in the table. */
  ghost predicate StreamOk(s: StreamSt, h: Hist, inTable: bool, data: seq<seq<byte>>) {
    && BytesOk(h.got, s.readBuf, s.readCh, h.arrived)
    && h.arrived <= data
    && (inTable ==> h.arrived == data && !s.closed)
  }

  ghost predicate StreamsOk(m: MuxSt, hist: map<nat, Hist>, heard: seq<Frame>) {
    && m.table <= m.objs.Keys && hist.Keys == m.objs.Keys
    && forall id :: id in m.objs && id in hist ==> StreamOk(m.objs[id], hist[id], id in m.table, DataFor(heard, id))
  }

  ghost predicate FramesInv(x: End) {
    && OpensOwn(x.fs, x.m.isServer, x.m.nextID)
    && OpenFirst(x.fs)
    && DataKnown(x.fs, x.m.objs.Keys)
    && WroteOk(x.fs, x.wrote)
  }

  ghost predicate EndInv(x: End) {
    && x.m.nextID == (if x.m.isServer then SERVER_BASE else 0) + x.opens
    && FramesInv(x)
    && ObjsKnown(x.m.objs.Keys, x.m.isServer, x.m.nextID, x.heard)
    && StreamsOk(x.m, x.hist, x.heard)
  }

  ghost predicate ChannelInv(y: End) {
    SenderInv(y.tx) && Lengths(y.tx.cts) && y.fs == Frames(y.tx.sent)
  }

  /** What x took off the stream is the beginning of what y sent; the rest is on the stream. */
  ghost predicate InStepWith(y: End, x: End) {
    && x.k <= |y.tx.sent|
    && x.heard == Frames(y.tx.sent[..x.k])
    && (!x.m.closed ==> At(y.tx, x.rx, x.k, y.out))
  }

  // ---------- the channel under the frames ----------

  /** Appending to what was sent leaves a receiver in step. */
  lemma AtAppends(s: Sender, s': Sender, bytes: seq<byte>, r: RecvState, k: nat, input: seq<byte>)
    requires At(s, r, k, input) && Appends(s, s', bytes)
    requires AllSealed(s'.log, s'.sent, s'.cts) && Lengths(s'.cts)
    ensures At(s', r, k, input + bytes)
  {
    AppendsWire(s, s', bytes, k);
    AppendsCounts(s, s', bytes, k);
  }

  lemma AppendsCounts(s: Sender, s': Sender, bytes: seq<byte>, k: nat)
    requires Appends(s, s', bytes) && k <= |s.sent| == |s.cts|
    ensures |s.sent| <= |s'.sent| && |s.cts| <= |s'.cts|
    ensures LastNumber(s'.sent, k) == LastNumber(s.sent, k) && Total(s'.cts, k) == Total(s.cts, k)
  {
    if |s'.sent| > |s.sent| {
      var p, ct := s'.sent[|s.sent|], s'.cts[|s.cts|];
      assert s'.sent == s.sent + [p] && s'.cts == s.cts + [ct];
      LastNumberSnoc(s.sent, p, k);
      TotalSnoc(s.cts, ct, k);
    }
  }

  lemma SamePrefix<T>(a: seq<T>, b: seq<T>, k: nat)
    requires a <= b && k <= |a|
    ensures a[..k] == b[..k]
  {
  }

  lemma SendStepSender(x: End, op: SendOp)
    requires ChannelInv(x)
    ensures var (tx, bytes) := SenderNext(x.tx, op);
            SenderInv(tx) && Lengths(tx.cts) && x.tx.sent <= tx.sent && Appends(x.tx, tx, bytes)
  {
    var (tx, bytes) := SenderNext(x.tx, op);
    SenderKeeps(x.tx, op);
    SealedLengths(tx.log, tx.sent, tx.cts);
    SenderStep(x.tx, op);
    SentGrows(x.tx, op);
  }

  lemma SendStepKeeps(x: End, y: End, op: SendOp)
    requires ChannelInv(x) && InStepWith(x, y)
    ensures var (tx, bytes) := SenderNext(x.tx, op);
            && SenderInv(tx) && Lengths(tx.cts) && x.tx.sent <= tx.sent
            && y.heard == Frames(tx.sent[..y.k])
            && (!y.m.closed ==> At(tx, y.rx, y.k, x.out + bytes))
  {
    var (tx, bytes) := SenderNext(x.tx, op);
    SendStepSender(x, op);
    SamePrefix(x.tx.sent, tx.sent, y.k);
    if !y.m.closed {
      AtAppends(x.tx, tx, bytes, y.rx, y.k, x.out);
    }
  }

  /** What a successful Send appends is one DATA packet with the frame in it. */
  lemma PostSends(x: End, f: Frame, ts: i64, ct: seq<byte>)
    requires |f.payload| <= MAX_CHUNK
    ensures var (x', ok) := Post(x, f, ts, ct);
            Frames(x'.tx.sent) == Frames(x.tx.sent) + if ok then [f] else []
  {
    var data := EncodeFrame(f);
    var p := SendCases(x.tx.st, x.tx.log, data, ts, ct);
    var counted := x.tx.st.(sendSeq := p.seqNum);
    SendRawCases(counted, x.tx.log, p, ct);
    var (st', log, bytes, result) := SendRaw(counted, x.tx.log, p, ct);
    RecordSent(x.tx, st', log, result, ct);
    FramesSnoc(x.tx.sent, p);
    FrameRoundTrip(f);
    assert Frames(x.tx.sent) + [] == Frames(x.tx.sent);
  }

  lemma PostFrame(x: End, f: Frame, ts: i64, ct: seq<byte>)
    ensures var (x', ok) := Post(x, f, ts, ct);
            x' == x.(tx := x'.tx, out := x'.out, fs := if ok then x.fs + [f] else x.fs)
  {
  }

  lemma PostKeeps(x: End, y: End, f: Frame, ts: i64, ct: seq<byte>)
    requires ChannelInv(x) && InStepWith(x, y) && |f.payload| <= MAX_CHUNK
    ensures var (x', ok) := Post(x, f, ts, ct);
            ChannelInv(x') && InStepWith(x', y)
  {
    SendStepKeeps(x, y, Payload(EncodeFrame(f), ts, ct));
    PostSends(x, f, ts, ct);
  }

  lemma OtherSends(s: Sender, p: Packet, ct: seq<byte>)
    ensures Frames(SenderNext(s, Other(p, ct)).0.sent) == Frames(s.sent)
  {
    if Valid(p) && p.kind != TYPE_DATA {
      SendRawCases(s.st, s.log, p, ct);
      FramesSnoc(s.sent, p);
      assert Frames(s.sent) + [] == Frames(s.sent);
    }
  }

  /** An end that sent a packet without a frame keeps its sending half. */
  lemma SentOther(x: End, x': End, y: End, p: Packet, ct: seq<byte>)
    requires ChannelInv(x) && InStepWith(x, y)
    requires var (tx, bytes) := SenderNext(x.tx, Other(p, ct)); x'.tx == tx && x'.out == x.out + bytes && x'.fs == x.fs
    ensures ChannelInv(x') && InStepWith(x', y)
  {
    SendStepKeeps(x, y, Other(p, ct));
    OtherSends(x.tx, p, ct);
  }

  lemma TakeNext(s: Sender, r: RecvState, k: nat, input: seq<byte>)
    requires At(s, r, k, input) && input != [] && |s.sent| <= MSG_LIMIT
    ensures k < |s.sent|
    ensures var (r', result, rest) := RecvPacket(r, s.log, input);
            result.Received? ==> result.packet == s.sent[k] && At(s, r', k + 1, rest)
  {
    PullOne(s, r, k, input);
  }

  /** Taking a packet gives the next one that was sent, or closes the mux. */
  lemma TakePacket(y: End, x: End)
    requires ChannelInv(y) && InStepWith(y, x) && !x.m.closed && y.out != []
    ensures var (rx, result, rest) := RecvPacket(x.rx, y.tx.log, y.out);
            result.Received? ==>
              && x.k < |y.tx.sent| && result.packet == y.tx.sent[x.k]
              && At(y.tx, rx, x.k + 1, rest)
              && Frames(y.tx.sent[..x.k + 1]) == x.heard + FramesIn(result.packet) <= y.fs
  {
    TakeNext(y.tx, x.rx, x.k, y.out);
    NextFrames(y, x);
  }

  lemma NextFrames(y: End, x: End)
    requires ChannelInv(y) && InStepWith(y, x) && x.k < |y.tx.sent|
    ensures Frames(y.tx.sent[..x.k + 1]) == x.heard + FramesIn(y.tx.sent[x.k]) <= y.fs
  {
    FramesNext(y.tx.sent, x.k);
  }

  lemma FramesNext(ps: seq<Packet>, k: nat)
    requires k < |ps|
    ensures Frames(ps[..k + 1]) == Frames(ps[..k]) + FramesIn(ps[k])
    ensures Frames(ps[..k + 1]) <= Frames(ps)
  {
    FramesStep(ps, k);
    FramesPrefix(ps, k + 1);
  }

  lemma FramesStep(ps: seq<Packet>, k: nat)
    requires k < |ps|
    ensures Frames(ps[..k + 1]) == Frames(ps[..k]) + FramesIn(ps[k])
  {
    assert ps[..k + 1] == ps[..k] + [ps[k]];
    FramesSnoc(ps[..k], ps[k]);
  }

  // ---------- frames and streams at one end ----------

  lemma WroteSnoc(fs: seq<Frame>, wrote: map<nat, seq<byte>>, f: Frame)
    requires WroteOk(fs, wrote)
    ensures WroteOk(fs + [f], if f.cmd == CMD_DATA then wrote[f.id := Get(wrote, f.id) + f.payload] else wrote)
  {
    var wrote' := if f.cmd == CMD_DATA then wrote[f.id := Get(wrote, f.id) + f.payload] else wrote;
    forall id: nat ensures Flatten(DataFor(fs + [f], id)) == Get(wrote', id) {
      DataForSnoc(fs, f, id);
      if f.cmd == CMD_DATA && f.id == id {
        FlattenSnoc(DataFor(fs, id), f.payload);
      } else {
        assert DataFor(fs, id) + [] == DataFor(fs, id);
      }
      assert Flatten(DataFor(fs, id)) == Get(wrote, id);
    }
  }

  /** A frame that is neither an OPEN nor a DATA frame changes nothing that is recorded. */
  lemma PlainFrame(x: End, f: Frame)
    requires FramesInv(x) && f.cmd != CMD_OPEN && f.cmd != CMD_DATA
    ensures FramesInv(x.(fs := x.fs + [f]))
  {
    WroteSnoc(x.fs, x.wrote, f);
  }

  lemma DataFrame(x: End, f: Frame)
    requires FramesInv(x) && f.cmd == CMD_DATA && f.id in x.m.objs
    ensures FramesInv(x.(fs := x.fs + [f], wrote := x.wrote[f.id := Get(x.wrote, f.id) + f.payload]))
  {
    WroteSnoc(x.fs, x.wrote, f);
  }

  lemma NotOpened(heard: seq<Frame>, fs: seq<Frame>, isServer: bool, next: nat, id: nat)
    requires heard <= fs && OpensOwn(fs, isServer, next) && (!Own(isServer, id) || id > next)
    ensures !Opened(heard, id)
  {
    forall i | 0 <= i < |heard| ensures !IsOpen(heard[i], id) {
      assert heard[i] == fs[i];
    }
  }

  /** A new id of this end's own is in no frame of either end. */
  lemma NewIdUnused(x: End, y: End, id: nat)
    requires EndInv(x) && EndInv(y) && x.m.isServer != y.m.isServer && x.heard <= y.fs && y.heard <= x.fs
    requires Own(x.m.isServer, id) && id > x.m.nextID
    ensures id !in x.m.objs
    ensures forall i :: 0 <= i < |x.fs| ==> !IsOpen(x.fs[i], id) && !IsData(x.fs[i], id)
    ensures DataFor(x.heard, id) == []
  {
    NotOpened(x.heard, y.fs, y.m.isServer, y.m.nextID, id);
    NotOpened(y.heard, x.fs, x.m.isServer, x.m.nextID, id);
    assert id !in y.m.objs;
    forall i | 0 <= i < |x.heard| ensures !IsData(x.heard[i], id) {
      assert x.heard[i] == y.fs[i];
    }
    NoDataFor(x.heard, id);
  }

  lemma OpenFrame(x: End, f: Frame)
    requires FramesInv(x) && f.cmd == CMD_OPEN && f.id > x.m.nextID && Own(x.m.isServer, f.id)
    requires forall i :: 0 <= i < |x.fs| ==> !IsOpen(x.fs[i], f.id) && !IsData(x.fs[i], f.id)
    ensures OpensOwn(x.fs + [f], x.m.isServer, f.id) && OpenFirst(x.fs + [f])
    ensures DataKnown(x.fs + [f], x.m.objs.Keys + {f.id}) && WroteOk(x.fs + [f], x.wrote)
  {
    WroteSnoc(x.fs, x.wrote, f);
  }

  lemma MoreKnown(x: End, id: nat, heard: seq<Frame>, next: nat)
    requires ObjsKnown(x.m.objs.Keys, x.m.isServer, x.m.nextID, x.heard) && x.heard <= heard && x.m.nextID <= next
    requires (Own(x.m.isServer, id) && id <= next) || Opened(heard, id)
    ensures ObjsKnown(x.m.objs.Keys + {id}, x.m.isServer, next, heard)
  {
    forall j | j in x.m.objs.Keys + {id}
      ensures (Own(x.m.isServer, j) && j <= next) || Opened(heard, j)
    {
      if j != id && Opened(x.heard, j) {
        var i :| 0 <= i < |x.heard| && IsOpen(x.heard[i], j);
        assert IsOpen(heard[i], j);
      }
    }
  }

  /** All streams but one are as they should be. */
  ghost predicate OthersOk(m: MuxSt, hist: map<nat, Hist>, heard: seq<Frame>, but: nat) {
    && m.table <= m.objs.Keys && hist.Keys == m.objs.Keys
    && forall id :: id in m.objs && id in hist && id != but ==>
         StreamOk(m.objs[id], hist[id], id in m.table, DataFor(heard, id))
  }

  /** Putting the one right, in or out of the table. */
  lemma SetOne(m: MuxSt, hist: map<nat, Hist>, heard: seq<Frame>, id: nat, s: StreamSt, h: Hist, table: set<nat>)
    requires OthersOk(m, hist, heard, id) && StreamOk(s, h, id in table, DataFor(heard, id))
    requires table == m.table || table == m.table + {id} || table == m.table - {id}
    ensures StreamsOk(m.(objs := m.objs[id := s], table := table), hist[id := h], heard)
  {
    var m', hist' := m.(objs := m.objs[id := s], table := table), hist[id := h];
    assert hist'.Keys == hist.Keys + {id} && m'.objs.Keys == m.objs.Keys + {id};
    forall j | j in m'.objs && j in hist'
      ensures StreamOk(m'.objs[j], hist'[j], j in m'.table, DataFor(heard, j))
    {
      if j != id {
        assert StreamOk(m.objs[j], hist[j], j in m.table, DataFor(heard, j));
      }
    }
  }

  /** Replacing one stream and its history. */
  lemma SetStream(m: MuxSt, hist: map<nat, Hist>, heard: seq<Frame>, id: nat, s: StreamSt, h: Hist, table: set<nat>)
    requires StreamsOk(m, hist, heard) && StreamOk(s, h, id in table, DataFor(heard, id))
    requires table == m.table || table == m.table + {id} || table == m.table - {id}
    ensures StreamsOk(m.(objs := m.objs[id := s], table := table), hist[id := h], heard)
  {
    SetOne(m, hist, heard, id, s, h, table);
  }

  lemma FreshOk(heard: seq<Frame>, id: nat, inTable: bool)
    requires DataFor(heard, id) == []
    ensures StreamOk(FRESH, Hist([], []), inTable, DataFor(heard, id))
  {
    assert BytesOk([], [], [], []);
  }

  /** The parts of the invariant that do not look at streams, when the ids stay the same. */
  lemma SameIds(x: End, x': End)
    requires EndInv(x)
    requires x'.m.isServer == x.m.isServer && x'.m.nextID == x.m.nextID && x'.opens == x.opens
    requires x'.m.objs.Keys == x.m.objs.Keys && x'.heard == x.heard
    requires FramesInv(x') && StreamsOk(x'.m, x'.hist, x'.heard)
    ensures EndInv(x')
  {
  }

  lemma SameFrames(x: End, x': End)
    requires FramesInv(x) && x'.fs == x.fs && x'.wrote == x.wrote
    requires x'.m.isServer == x.m.isServer && x'.m.nextID == x.m.nextID && x'.m.objs.Keys == x.m.objs.Keys
    ensures FramesInv(x')
  {
  }

  lemma MoreIds(x: End, x': End)
    requires FramesInv(x) && x'.fs == x.fs && x'.wrote == x.wrote
    requires x'.m.isServer == x.m.isServer && x.m.nextID <= x'.m.nextID && x.m.objs.Keys <= x'.m.objs.Keys
    ensures FramesInv(x')
  {
  }

  lemma DoOpenFrames(x: End, y: End, ts: i64, ct: seq<byte>)
    requires EndInv(x) && EndInv(y) && x.m.isServer != y.m.isServer && x.heard <= y.fs && y.heard <= x.fs
    requires !x.m.closed && NextID(x.m) == x.m.nextID + 1 && Own(x.m.isServer, NextID(x.m))
    ensures FramesInv(DoOpen(x, ts, ct))
  {
    var id := NextID(x.m);
    var f := Frame(CMD_OPEN, id, []);
    var ok := Post(x, f, ts, ct).1;
    var x' := DoOpen(x, ts, ct);
    assert x'.m.objs.Keys == x.m.objs.Keys + {id};
    NewIdUnused(x, y, id);
    if ok {
      OpenFrame(x, f);
    } else {
      MoreIds(x, x');
    }
  }

  lemma DoOpenStreams(m: MuxSt, hist: map<nat, Hist>, heard: seq<Frame>, sent: bool)
    requires StreamsOk(m, hist, heard) && DataFor(heard, NextID(m)) == []
    ensures StreamsOk(OpenStream(m, sent), hist[NextID(m) := Hist([], [])], heard)
    ensures OpenStream(m, sent).objs.Keys == m.objs.Keys + {NextID(m)}
  {
    var m' := OpenStream(m, sent);
    FreshOk(heard, NextID(m), NextID(m) in m'.table);
    SetStream(m, hist, heard, NextID(m), FRESH, Hist([], []), m'.table);
  }

  lemma DoOpenKeeps(x: End, y: End, ts: i64, ct: seq<byte>)
    requires EndInv(x) && EndInv(y) && x.m.isServer != y.m.isServer && x.heard <= y.fs && y.heard <= x.fs
    requires if x.m.isServer then x.opens + 1 < ID_MOD - SERVER_BASE else x.opens + 1 <= SERVER_BASE
    ensures EndInv(DoOpen(x, ts, ct))
  {
    if !x.m.closed {
      var id := NextID(x.m);
      assert id == x.m.nextID + 1 && Own(x.m.isServer, id);
      DoOpenFrames(x, y, ts, ct);
      NewIdUnused(x, y, id);
      MoreKnown(x, id, x.heard, id);
      DoOpenStreams(x.m, x.hist, x.heard, Post(x, Frame(CMD_OPEN, id, []), ts, ct).1);
    }
  }

  lemma DoWriteKeeps(x: End, id: u32, chunk: seq<byte>, ts: i64, ct: seq<byte>)
    requires EndInv(x)
    ensures EndInv(DoWrite(x, id, chunk, ts, ct))
  {
    if id in x.m.objs {
      DataFrame(x, Frame(CMD_DATA, id, chunk));
    }
  }

  lemma ClosedOk(s: StreamSt, h: Hist, inTable: bool, data: seq<seq<byte>>)
    requires StreamOk(s, h, inTable, data)
    ensures StreamOk(s.(closed := true), h, false, data)
  {
  }

  /** Closing a stream and taking it out of the table. */
  lemma CloseStreamOk(m: MuxSt, hist: map<nat, Hist>, heard: seq<Frame>, id: nat)
    requires StreamsOk(m, hist, heard) && id in m.objs
    ensures StreamsOk(m.(objs := m.objs[id := m.objs[id].(closed := true)], table := m.table - {id}), hist, heard)
  {
    var s, h := m.objs[id], hist[id];
    ClosedOk(s, h, id in m.table, DataFor(heard, id));
    SetStream(m, hist, heard, id, s.(closed := true), h, m.table - {id});
    SameEntry(hist, id);
  }

  lemma SameEntry<K, V>(m: map<K, V>, k: K)
    requires k in m
    ensures m[k := m[k]] == m
  {
  }

  lemma DoCloseKeeps(x: End, id: u32, ts: i64, ct: seq<byte>)
    requires EndInv(x)
    ensures EndInv(DoClose(x, id, ts, ct))
  {
    if id in x.m.objs && !x.m.objs[id].closed {
      var f := Frame(CMD_CLOSE, id, []);
      var x1 := Post(x, f, ts, ct).0;
      var x' := DoClose(x, id, ts, ct);
      PlainFrame(x, f);
      PostFrame(x, f, ts, ct);
      assert FramesInv(x1);
      CloseStreamOk(x.m, x.hist, x.heard, id);
      assert x'.m.objs.Keys == x.m.objs.Keys;
      SameFrames(x1, x');
      SameIds(x, x');
    }
  }

  lemma ReadOk(s: StreamSt, h: Hist, inTable: bool, data: seq<seq<byte>>, n: nat, eof: bool)
    requires StreamOk(s, h, inTable, data)
    ensures var (buf, ch, result) := Take(s.readBuf, s.readCh, s.closed, n, eof);
            StreamOk(s.(readBuf := buf, readCh := ch), h.(got := h.got + BytesOf(result)), inTable, data)
  {
    TakeConserves(h.got, s.readBuf, s.readCh, s.closed, h.arrived, n, eof);
  }

  lemma DoReadKeeps(x: End, id: nat, n: nat, eof: bool)
    requires EndInv(x)
    ensures EndInv(DoRead(x, id, n, eof))
  {
    if id in x.m.objs && id in x.hist {
      var x' := DoRead(x, id, n, eof);
      var s, h := x.m.objs[id], x.hist[id];
      ReadOk(s, h, id in x.m.table, DataFor(x.heard, id), n, eof);
      SetStream(x.m, x.hist, x.heard, id, x'.m.objs[id], x'.hist[id], x.m.table);
      ReadSameIds(x.m, id, n, eof);
      SameFrames(x, x');
      SameIds(x, x');
    }
  }

  lemma ReadSameIds(m: MuxSt, id: nat, n: nat, eof: bool)
    requires id in m.objs
    ensures var m' := ReadStream(m, id, n, eof).0;
            m'.objs.Keys == m.objs.Keys && m'.table == m.table && m'.isServer == m.isServer && m'.nextID == m.nextID
            && m'.closed == m.closed
  {
  }

  lemma CloseAllOk(m: MuxSt, hist: map<nat, Hist>, heard: seq<Frame>)
    requires StreamsOk(m, hist, heard)
    ensures StreamsOk(CloseAll(m), hist, heard)
  {
    var m' := CloseAll(m);
    assert m'.objs.Keys == m.objs.Keys;
    forall id | id in m.objs && id in hist
      ensures StreamOk(m'.objs[id], hist[id], id in m'.table, DataFor(heard, id))
    {
      assert StreamOk(m.objs[id], hist[id], id in m.table, DataFor(heard, id));
    }
  }

  lemma CloseAllKeeps(x: End)
    requires EndInv(x)
    ensures EndInv(DoCloseMux(x))
  {
    var x' := DoCloseMux(x);
    assert x'.m.objs.Keys == x.m.objs.Keys;
    CloseAllOk(x.m, x.hist, x.heard);
    SameFrames(x, x');
    SameIds(x, x');
  }

  lemma DoAcceptKeeps(x: End, eof: bool)
    requires EndInv(x)
    ensures EndInv(DoAccept(x, eof))
  {
    SameFrames(x, DoAccept(x, eof));
    SameIds(x, DoAccept(x, eof));
  }

  // ---------- handling the next frame ----------

  /** A frame that is not queued for stream j leaves it as it was. */
  lemma OtherHeard(m: MuxSt, hist: map<nat, Hist>, heard: seq<Frame>, f: Frame, j: nat)
    requires StreamsOk(m, hist, heard) && j in m.objs && !(IsData(f, j) && j in m.table)
    ensures StreamOk(m.objs[j], hist[j], j in m.table, DataFor(heard + [f], j))
  {
    DataForSnoc(heard, f, j);
    assert StreamOk(m.objs[j], hist[j], j in m.table, DataFor(heard, j));
    assert DataFor(heard, j) + [] == DataFor(heard, j);
  }

  lemma HeardMore(m: MuxSt, hist: map<nat, Hist>, heard: seq<Frame>, f: Frame)
    requires StreamsOk(m, hist, heard) && (f.cmd == CMD_DATA ==> f.id !in m.table)
    ensures StreamsOk(m, hist, heard + [f])
  {
    forall id | id in m.objs && id in hist
      ensures StreamOk(m.objs[id], hist[id], id in m.table, DataFor(heard + [f], id))
    {
      OtherHeard(m, hist, heard, f, id);
    }
  }

  lemma NoDataBefore(heard: seq<Frame>, fs: seq<Frame>, f: Frame)
    requires heard + [f] <= fs && OpenFirst(fs) && f.cmd == CMD_OPEN
    ensures DataFor(heard, f.id) == []
  {
    var k := |heard|;
    assert f == fs[k];
    forall i | 0 <= i < k ensures !IsData(heard[i], f.id) {
      assert heard[i] == fs[i];
    }
    NoDataFor(heard, f.id);
  }

  lemma HearOpen(x: End, y: End, f: Frame, m: MuxSt)
    requires EndInv(x) && EndInv(y) && x.m.isServer != y.m.isServer && x.heard + [f] <= y.fs
    requires f.cmd == CMD_OPEN && HandleFrame(x.m, f) == Handled(m, [])
    ensures EndInv(Hear(x, f, m))
  {
    NoDataBefore(x.heard, y.fs, f);
    OpenKnown(x, f);
    HearOpenStreams(x, f);
    OpenedState(x.m, f, m);
    SameStreams(x.m.(objs := x.m.objs[f.id := FRESH], table := x.m.table + {f.id}), m,
                x.hist[f.id := Hist([], [])], x.heard + [f]);
    MoreIds(x, Hear(x, f, m));
  }

  /** An OPEN frame adds a stream; beside that only the accept queue changes. */
  lemma OpenedState(m: MuxSt, f: Frame, m': MuxSt)
    requires f.cmd == CMD_OPEN && HandleFrame(m, f) == Handled(m', [])
    ensures m' == m.(objs := m.objs[f.id := FRESH], table := m.table + {f.id}, acceptCh := m'.acceptCh, held := m'.held)
    ensures m'.objs.Keys == m.objs.Keys + {f.id}
  {
  }

  lemma SameStreams(m: MuxSt, m': MuxSt, hist: map<nat, Hist>, heard: seq<Frame>)
    requires StreamsOk(m, hist, heard) && m'.objs == m.objs && m'.table == m.table
    ensures StreamsOk(m', hist, heard)
  {
  }

  lemma OpenKnown(x: End, f: Frame)
    requires EndInv(x) && f.cmd == CMD_OPEN
    ensures ObjsKnown(x.m.objs.Keys + {f.id}, x.m.isServer, x.m.nextID, x.heard + [f])
  {
    assert IsOpen((x.heard + [f])[|x.heard|], f.id);
    MoreKnown(x, f.id, x.heard + [f], x.m.nextID);
  }

  lemma HearOpenStreams(x: End, f: Frame)
    requires StreamsOk(x.m, x.hist, x.heard) && DataFor(x.heard, f.id) == [] && f.cmd == CMD_OPEN
    ensures StreamsOk(x.m.(objs := x.m.objs[f.id := FRESH], table := x.m.table + {f.id}),
                      x.hist[f.id := Hist([], [])], x.heard + [f])
  {
    FreshOk(x.heard, f.id, true);
    SetStream(x.m, x.hist, x.heard, f.id, FRESH, Hist([], []), x.m.table + {f.id});
    HeardMore(x.m.(objs := x.m.objs[f.id := FRESH], table := x.m.table + {f.id}), x.hist[f.id := Hist([], [])], x.heard, f);
  }

  lemma HearKnown(x: End, f: Frame)
    requires ObjsKnown(x.m.objs.Keys, x.m.isServer, x.m.nextID, x.heard)
    ensures ObjsKnown(x.m.objs.Keys, x.m.isServer, x.m.nextID, x.heard + [f])
  {
    if x.m.objs.Keys != {} {
      var id :| id in x.m.objs.Keys;
      assert x.heard <= x.heard + [f];
      if Opened(x.heard, id) {
        var i :| 0 <= i < |x.heard| && IsOpen(x.heard[i], id);
        assert IsOpen((x.heard + [f])[i], id);
      }
      MoreKnown(x, id, x.heard + [f], x.m.nextID);
      assert x.m.objs.Keys + {id} == x.m.objs.Keys;
    }
  }

  lemma HearData(x: End, f: Frame, m: MuxSt)
    requires EndInv(x)
    requires f.cmd == CMD_DATA && HandleFrame(x.m, f) == Handled(m, [])
    ensures EndInv(Hear(x, f, m))
  {
    var x' := Hear(x, f, m);
    HearKnown(x, f);
    if f.id in x.m.table {
      assert StreamOk(x.m.objs[f.id], x.hist[f.id], true, DataFor(x.heard, f.id));
      assert m.objs.Keys == x.m.objs.Keys;
      HeardData(x.m, x.hist, x.heard, f);
    } else {
      HeardMore(x.m, x.hist, x.heard, f);
    }
    SameFrames(x, x');
  }

  lemma QueueOk(s: StreamSt, h: Hist, data: seq<seq<byte>>, payload: seq<byte>)
    requires StreamOk(s, h, true, data)
    ensures StreamOk(s.(readCh := s.readCh + [payload]), h.(arrived := h.arrived + [payload]), true, data + [payload])
  {
    QueueOne(h.got, s.readBuf, s.readCh, h.arrived, payload);
  }

  lemma OthersHeard(m: MuxSt, hist: map<nat, Hist>, heard: seq<Frame>, f: Frame)
    requires StreamsOk(m, hist, heard)
    ensures OthersOk(m, hist, heard + [f], f.id)
  {
    forall id | id in m.objs && id in hist && id != f.id
      ensures StreamOk(m.objs[id], hist[id], id in m.table, DataFor(heard + [f], id))
    {
      OtherHeard(m, hist, heard, f, id);
    }
  }

  lemma HeardData(m: MuxSt, hist: map<nat, Hist>, heard: seq<Frame>, f: Frame)
    requires StreamsOk(m, hist, heard) && f.cmd == CMD_DATA && f.id in m.table
    ensures var s, h := m.objs[f.id], hist[f.id];
            StreamsOk(m.(objs := m.objs[f.id := s.(readCh := s.readCh + [f.payload])], table := m.table),
                      hist[f.id := h.(arrived := h.arrived + [f.payload])], heard + [f])
  {
    var s, h := m.objs[f.id], hist[f.id];
    assert StreamOk(s, h, true, DataFor(heard, f.id));
    QueueOk(s, h, DataFor(heard, f.id), f.payload);
    DataForSnoc(heard, f, f.id);
    OthersHeard(m, hist, heard, f);
    SetOne(m, hist, heard + [f], f.id, s.(readCh := s.readCh + [f.payload]),
           h.(arrived := h.arrived + [f.payload]), m.table);
  }

  lemma HearClose(x: End, f: Frame, m: MuxSt)
    requires EndInv(x)
    requires f.cmd == CMD_CLOSE && HandleFrame(x.m, f) == Handled(m, [])
    ensures EndInv(Hear(x, f, m))
  {
    var x' := Hear(x, f, m);
    HearKnown(x, f);
    HeardMore(x.m, x.hist, x.heard, f);
    if f.id in x.m.table {
      CloseStreamOk(x.m, x.hist, x.heard + [f], f.id);
      assert m.objs.Keys == x.m.objs.Keys;
    }
    SameFrames(x, x');
  }

  lemma HearKeeps(x: End, y: End, f: Frame, m: MuxSt, reply: seq<Frame>)
    requires EndInv(x) && EndInv(y) && x.m.isServer != y.m.isServer && x.heard + [f] <= y.fs
    requires HandleFrame(x.m, f) == Handled(m, reply)
    ensures EndInv(Hear(x, f, m))
    ensures reply == [] || (|reply| == 1 && reply[0].cmd == CMD_PONG && reply[0].payload == [])
  {
    if f.cmd == CMD_OPEN {
      HearOpen(x, y, f, m);
    } else if f.cmd == CMD_DATA {
      HearData(x, f, m);
    } else if f.cmd == CMD_CLOSE {
      HearClose(x, f, m);
    } else {
      HearKnown(x, f);
      HeardMore(x.m, x.hist, x.heard, f);
    }
  }

  // ---------- whole runs ----------

  lemma InStepPrefix(y: End, x: End)
    requires ChannelInv(y) && InStepWith(y, x)
    ensures x.heard <= y.fs
  {
    FramesPrefix(y.tx.sent, x.k);
  }

  /** Everything about one end and the channels both ways. */
  ghost predicate PairInv(x: End, y: End) {
    && EndInv(x) && EndInv(y) && ChannelInv(x) && ChannelInv(y)
    && InStepWith(x, y) && InStepWith(y, x)
    && x.m.isServer == !y.m.isServer
  }

  predicate MayOpen(x: End) {
    if x.m.isServer then x.opens < ID_MOD - SERVER_BASE else x.opens <= SERVER_BASE
  }

  /** An action that only sends, or only touches streams, leaves the receiving half alone. */
  lemma ReceivingHalf(x: End, x': End, y: End)
    requires InStepWith(y, x)
    requires x'.rx == x.rx && x'.k == x.k && x'.heard == x.heard && (x.m.closed ==> x'.m.closed)
    ensures InStepWith(y, x')
  {
  }

  lemma SendingHalf(x: End, x': End, y: End)
    requires ChannelInv(x) && InStepWith(x, y)
    requires x'.tx == x.tx && x'.out == x.out && x'.fs == x.fs
    ensures ChannelInv(x') && InStepWith(x', y)
  {
  }

  lemma PostedHalf(x: End, x': End, y: End, f: Frame, ts: i64, ct: seq<byte>)
    requires ChannelInv(x) && InStepWith(x, y) && |f.payload| <= MAX_CHUNK
    requires var x1 := Post(x, f, ts, ct).0; x'.tx == x1.tx && x'.out == x1.out && x'.fs == x1.fs
    ensures ChannelInv(x') && InStepWith(x', y)
  {
    PostKeeps(x, y, f, ts, ct);
    SendingHalf(Post(x, f, ts, ct).0, x', y);
  }

  lemma OpenEnd(x: End, y: End, ts: i64, ct: seq<byte>)
    requires PairInv(x, y) && MayOpen(DoOpen(x, ts, ct))
    ensures EndInv(DoOpen(x, ts, ct))
  {
    if !x.m.closed {
      assert DoOpen(x, ts, ct).opens == x.opens + 1 && DoOpen(x, ts, ct).m.isServer == x.m.isServer;
      InStepPrefix(x, y);
      InStepPrefix(y, x);
      DoOpenKeeps(x, y, ts, ct);
    }
  }

  lemma LocalEnd(x: End, y: End, act: Act)
    requires PairInv(x, y) && (act.Open? ==> MayOpen(DoOpen(x, act.ts, act.ct)))
    ensures EndInv(Local(x, act))
  {
    match act
    case Open(ts, ct) => OpenEnd(x, y, ts, ct);
    case Write(id, chunk, ts, ct) => DoWriteKeeps(x, id, chunk, ts, ct);
    case CloseOne(id, ts, ct) => DoCloseKeeps(x, id, ts, ct);
    case Read(id, n, eof) => DoReadKeeps(x, id, n, eof);
    case Padding(p, ct) => OtherKeepsEnd(x, p, ct);
    case KeepAlive(ts, ct) => PlainKeeps(x, Frame(CMD_PING, 0, []), ts, ct);
    case Accept(eof) => DoAcceptKeeps(x, eof);
    case CloseMux => CloseAllKeeps(x);
    case Recv(ts, ct) =>
  }

  /** Ping and pong frames are not recorded. */
  lemma PlainKeeps(x: End, f: Frame, ts: i64, ct: seq<byte>)
    requires EndInv(x) && f.cmd != CMD_OPEN && f.cmd != CMD_DATA
    ensures EndInv(Post(x, f, ts, ct).0)
  {
    var (x', ok) := Post(x, f, ts, ct);
    PlainFrame(x, f);
    PostFrame(x, f, ts, ct);
    SameFrames(if ok then x.(fs := x.fs + [f]) else x, x');
    SameIds(x, x');
  }

  lemma OtherKeepsEnd(x: End, p: Packet, ct: seq<byte>)
    requires EndInv(x)
    ensures EndInv(PostOther(x, p, ct))
  {
    SameFrames(x, PostOther(x, p, ct));
    SameIds(x, PostOther(x, p, ct));
  }

  lemma OpenChannels(x: End, y: End, ts: i64, ct: seq<byte>)
    requires ChannelInv(x) && InStepWith(x, y)
    ensures ChannelInv(DoOpen(x, ts, ct)) && InStepWith(DoOpen(x, ts, ct), y)
  {
    if !x.m.closed {
      PostedHalf(x, DoOpen(x, ts, ct), y, Frame(CMD_OPEN, NextID(x.m), []), ts, ct);
    }
  }

  lemma WriteChannels(x: End, y: End, id: u32, chunk: seq<byte>, ts: i64, ct: seq<byte>)
    requires ChannelInv(x) && InStepWith(x, y)
    ensures ChannelInv(DoWrite(x, id, chunk, ts, ct)) && InStepWith(DoWrite(x, id, chunk, ts, ct), y)
  {
    if id in x.m.objs && 0 < |chunk| <= MAX_CHUNK {
      PostedHalf(x, DoWrite(x, id, chunk, ts, ct), y, Frame(CMD_DATA, id, chunk), ts, ct);
    }
  }

  lemma CloseChannels(x: End, y: End, id: u32, ts: i64, ct: seq<byte>)
    requires ChannelInv(x) && InStepWith(x, y)
    ensures ChannelInv(DoClose(x, id, ts, ct)) && InStepWith(DoClose(x, id, ts, ct), y)
  {
    if id in x.m.objs && !x.m.objs[id].closed {
      PostedHalf(x, DoClose(x, id, ts, ct), y, Frame(CMD_CLOSE, id, []), ts, ct);
    }
  }

  lemma PingChannels(x: End, y: End, ts: i64, ct: seq<byte>)
    requires ChannelInv(x) && InStepWith(x, y)
    ensures ChannelInv(DoPing(x, ts, ct)) && InStepWith(DoPing(x, ts, ct), y)
  {
    if !x.m.closed {
      PostedHalf(x, DoPing(x, ts, ct), y, Frame(CMD_PING, 0, []), ts, ct);
    }
  }

  lemma LocalSending(x: End, y: End, act: Act)
    requires ChannelInv(x) && InStepWith(x, y)
    ensures ChannelInv(Local(x, act)) && InStepWith(Local(x, act), y)
  {
    if act.Open? || act.Write? || act.CloseOne? {
      StreamSending(x, y, act);
    } else if act.Padding? {
      PaddingSending(x, y, act);
    } else if act.KeepAlive? {
      PingSending(x, y, act);
    } else {
      NothingSent(x, act);
      SendingHalf(x, Local(x, act), y);
    }
  }

  /** The calls that send a frame for a stream. */
  lemma StreamSending(x: End, y: End, act: Act)
    requires ChannelInv(x) && InStepWith(x, y) && (act.Open? || act.Write? || act.CloseOne?)
    ensures ChannelInv(Local(x, act)) && InStepWith(Local(x, act), y)
  {
    match act
    case Open(ts, ct) =>
      OpenChannels(x, y, ts, ct);
      SendingHalf(DoOpen(x, ts, ct), Local(x, act), y);
    case Write(id, chunk, ts, ct) =>
      WriteChannels(x, y, id, chunk, ts, ct);
      SendingHalf(DoWrite(x, id, chunk, ts, ct), Local(x, act), y);
    case CloseOne(id, ts, ct) =>
      CloseChannels(x, y, id, ts, ct);
      SendingHalf(DoClose(x, id, ts, ct), Local(x, act), y);
  }

  lemma PaddingSending(x: End, y: End, act: Act)
    requires ChannelInv(x) && InStepWith(x, y) && act.Padding?
    ensures ChannelInv(Local(x, act)) && InStepWith(Local(x, act), y)
  {
    SentOther(x, Local(x, act), y, act.packet, act.ct);
  }

  lemma PingSending(x: End, y: End, act: Act)
    requires ChannelInv(x) && InStepWith(x, y) && act.KeepAlive?
    ensures ChannelInv(Local(x, act)) && InStepWith(Local(x, act), y)
  {
    PingChannels(x, y, act.ts, act.ct);
    SendingHalf(DoPing(x, act.ts, act.ct), Local(x, act), y);
  }

  lemma NothingSent(x: End, act: Act)
    requires act.Read? || act.Accept? || act.CloseMux? || act.Recv?
    ensures var x' := Local(x, act); x'.tx == x.tx && x'.out == x.out && x'.fs == x.fs
  {
  }

  lemma LocalReceiving(x: End, act: Act)
    ensures var x' := Local(x, act);
            x'.rx == x.rx && x'.k == x.k && x'.heard == x.heard && (x.m.closed ==> x'.m.closed)
  {
  }

  lemma LocalServer(x: End, act: Act)
    ensures Local(x, act).m.isServer == x.m.isServer && x.opens <= Local(x, act).opens
  {
  }

  /** x became x' by taking packet p, which y sent. */
  ghost predicate TookPacket(x: End, x': End, y: End, p: Packet) {
    && EndInv(x') && ChannelInv(x') && InStepWith(x', y)
    && x'.rx == x.rx && x'.k == x.k && x'.m.isServer == x.m.isServer && x'.opens == x.opens
    && x'.heard == x.heard + FramesIn(p)
    && (x.m.closed ==> x'.m.closed)
  }

  lemma TakePing(x: End, y: End, p: Packet, ts: i64, ct: seq<byte>)
    requires EndInv(x) && ChannelInv(x) && InStepWith(x, y) && p.kind == TYPE_PING
    ensures TookPacket(x, PostOther(x, NewEmptyPacket(TYPE_PONG, p.seqNum, ts), ct), y, p)
  {
    var pong := NewEmptyPacket(TYPE_PONG, p.seqNum, ts);
    SentOther(x, PostOther(x, pong, ct), y, pong, ct);
    OtherKeepsEnd(x, pong, ct);
  }

  lemma TakeClose(x: End, y: End, p: Packet)
    requires EndInv(x) && ChannelInv(x) && InStepWith(x, y) && p.kind == TYPE_CLOSE
    ensures TookPacket(x, DoCloseMux(x), y, p)
  {
    CloseAllKeeps(x);
    SendingHalf(x, DoCloseMux(x), y);
  }

  /** Taking the frame that is next, and answering it. */
  lemma HandleKeeps(x: End, y: End, p: Packet, ts: i64, ct: seq<byte>)
    requires EndInv(x) && EndInv(y) && ChannelInv(x) && InStepWith(x, y) && x.m.isServer == !y.m.isServer
    requires x.heard + FramesIn(p) <= y.fs
    requires HandlePacket(x, p, ts, ct).Took?
    ensures TookPacket(x, HandlePacket(x, p, ts, ct).x, y, p)
  {
    assert x.heard + [] == x.heard;
    if p.kind == TYPE_PING {
      TakePing(x, y, p, ts, ct);
    } else if p.kind == TYPE_CLOSE {
      TakeClose(x, y, p);
    } else if p.kind == TYPE_DATA && DecodeFrame(p.payload) != [] {
      TakeFrame(x, y, p, DecodeFrame(p.payload)[0], ts, ct);
    }
  }

  lemma TakeFrame(x: End, y: End, p: Packet, f: Frame, ts: i64, ct: seq<byte>)
    requires EndInv(x) && EndInv(y) && ChannelInv(x) && InStepWith(x, y) && x.m.isServer == !y.m.isServer
    requires FramesIn(p) == [f] && x.heard + [f] <= y.fs && HandleFrame(x.m, f).Handled?
    ensures var h := HandleFrame(x.m, f);
            var x1 := Hear(x, f, h.m);
            TookPacket(x, if h.reply == [] then x1 else Post(x1, h.reply[0], ts, ct).0, y, p)
  {
    FrameKeeps(x, y, f, ts, ct);
    HandledKeepsId(x.m, f);
  }

  lemma FrameKeeps(x: End, y: End, f: Frame, ts: i64, ct: seq<byte>)
    requires EndInv(x) && EndInv(y) && ChannelInv(x) && InStepWith(x, y) && x.m.isServer == !y.m.isServer
    requires x.heard + [f] <= y.fs && HandleFrame(x.m, f).Handled?
    ensures var h := HandleFrame(x.m, f);
            var x1 := Hear(x, f, h.m);
            var x' := if h.reply == [] then x1 else Post(x1, h.reply[0], ts, ct).0;
            && EndInv(x') && ChannelInv(x') && InStepWith(x', y)
            && x'.m == h.m
  {
    var h := HandleFrame(x.m, f);
    var x1 := Hear(x, f, h.m);
    HearKeeps(x, y, f, h.m, h.reply);
    SendingHalf(x, x1, y);
    if h.reply != [] {
      PlainKeeps(x1, h.reply[0], ts, ct);
      PostKeeps(x1, y, h.reply[0], ts, ct);
      PostFrame(x1, h.reply[0], ts, ct);
    }
  }

  lemma HandledKeepsId(m: MuxSt, f: Frame)
    requires HandleFrame(m, f).Handled?
    ensures var m' := HandleFrame(m, f).m; m'.isServer == m.isServer && m'.closed == m.closed && m'.nextID == m.nextID
  {
  }

  lemma RecvKeeps(x: End, y: End, ts: i64, ct: seq<byte>)
    requires PairInv(x, y)
    ensures var (x', rest) := DoRecv(x, y, ts, ct); PairInv(x', y.(out := rest)) && x'.opens == x.opens
  {
    if !x.m.closed && !x.m.held.Holding? && y.out != [] {
      TakePacket(y, x);
      AfterRecvKeeps(x, y, RecvPacket(x.rx, y.tx.log, y.out), ts, ct);
    } else {
      assert y.(out := y.out) == y;
    }
  }

  lemma AfterRecvKeeps(x: End, y: End, received: (RecvState, RecvResult, seq<byte>), ts: i64, ct: seq<byte>)
    requires PairInv(x, y)
    requires received.1.Received? ==>
               && x.k < |y.tx.sent| && At(y.tx, received.0, x.k + 1, received.2)
               && Frames(y.tx.sent[..x.k + 1]) == x.heard + FramesIn(received.1.packet) <= y.fs
    ensures var (x', rest) := AfterRecv(x, y.out, received, ts, ct);
            PairInv(x', y.(out := rest)) && x'.opens == x.opens
  {
    var (rx, result, rest) := received;
    if result.Received? {
      TakenPacketKeeps(x, y, rx, result.packet, rest, ts, ct);
    } else {
      CloseAllKeeps(x);
      EndedKeeps(x, y, rx, rest);
    }
  }

  lemma TakenPacketKeeps(x: End, y: End, rx: RecvState, p: Packet, rest: seq<byte>, ts: i64, ct: seq<byte>)
    requires PairInv(x, y) && x.k < |y.tx.sent| && At(y.tx, rx, x.k + 1, rest)
    requires Frames(y.tx.sent[..x.k + 1]) == x.heard + FramesIn(p) <= y.fs
    ensures var (x', out) := AfterTake(x, y.out, rest, HandlePacket(x.(rx := rx, k := x.k + 1), p, ts, ct));
            PairInv(x', y.(out := out)) && x'.opens == x.opens
  {
    var x1 := x.(rx := rx, k := x.k + 1);
    BeforeTaking(x, y, rx);
    if HandlePacket(x1, p, ts, ct).Took? {
      HandleKeeps(x1, y, p, ts, ct);
    }
    TakenKeeps(x, y, rx, p, rest, HandlePacket(x1, p, ts, ct));
  }

  lemma EndedKeeps(x: End, y: End, rx: RecvState, rest: seq<byte>)
    requires PairInv(x, y) && EndInv(DoCloseMux(x))
    ensures PairInv(DoCloseMux(x.(rx := rx)), y.(out := rest))
  {
    ClosedEnd(x, rx);
    EndedPair(x, DoCloseMux(x), y, rx, rest);
  }

  lemma ClosedEnd(x: End, rx: RecvState)
    ensures DoCloseMux(x.(rx := rx)) == DoCloseMux(x).(rx := rx) && DoCloseMux(x).m.closed
    ensures var z := DoCloseMux(x);
            z.tx == x.tx && z.out == x.out && z.fs == x.fs && z.k == x.k && z.heard == x.heard
            && z.m.isServer == x.m.isServer
  {
  }

  lemma EndedPair(x: End, z: End, y: End, rx: RecvState, rest: seq<byte>)
    requires PairInv(x, y) && EndInv(z) && z.m.closed && z.tx == x.tx && z.out == x.out && z.fs == x.fs
    requires z.k == x.k && z.heard == x.heard && z.m.isServer == x.m.isServer
    ensures PairInv(z.(rx := rx), y.(out := rest))
  {
    var x', y' := z.(rx := rx), y.(out := rest);
    SameFrames(z, x');
    SameIds(z, x');
    SameFrames(y, y');
    SameIds(y, y');
    SendingHalf(x, x', y);
  }

  /** The packet was handled, or its handler waits and nothing happened. */
  lemma TakenKeeps(x: End, y: End, rx: RecvState, p: Packet, rest: seq<byte>, took: Took)
    requires PairInv(x, y) && x.k < |y.tx.sent| && At(y.tx, rx, x.k + 1, rest)
    requires Frames(y.tx.sent[..x.k + 1]) == x.heard + FramesIn(p)
    requires took.Took? ==> TookPacket(x.(rx := rx, k := x.k + 1), took.x, y, p)
    ensures var (x', out) := AfterTake(x, y.out, rest, took); PairInv(x', y.(out := out)) && x'.opens == x.opens
  {
    if took.Took? {
      SameFrames(y, y.(out := rest));
      SameIds(y, y.(out := rest));
    } else {
      assert y.(out := y.out) == y;
    }
  }

  lemma BeforeTaking(x: End, y: End, rx: RecvState)
    requires PairInv(x, y)
    ensures var x1 := x.(rx := rx, k := x.k + 1); EndInv(x1) && ChannelInv(x1) && InStepWith(x1, y)
  {
    var x1 := x.(rx := rx, k := x.k + 1);
    SameFrames(x, x1);
    SameIds(x, x1);
    SendingHalf(x, x1, y);
  }

  lemma LocalKeeps(x: End, y: End, act: Act)
    requires PairInv(x, y) && (act.Open? ==> MayOpen(DoOpen(x, act.ts, act.ct)))
    ensures PairInv(Local(x, act), y)
  {
    LocalEnd(x, y, act);
    LocalSending(x, y, act);
    LocalReceiving(x, act);
    LocalServer(x, act);
    ReceivingHalf(x, Local(x, act), y);
  }

  lemma NextKeeps(s: Sys, step: (bool, Act))
    requires PairInv(s.a, s.b) && !s.a.m.isServer && Limits(Next(s, step))
    ensures var s' := Next(s, step);
            PairInv(s'.a, s'.b) && !s'.a.m.isServer && s.a.opens <= s'.a.opens && s.b.opens <= s'.b.opens
  {
    var (atClient, act) := step;
    if act.Recv? {
      if atClient {
        RecvKeeps(s.a, s.b, act.ts, act.ct);
        RecvServer(s.a, s.b, act.ts, act.ct);
      } else {
        RecvKeeps(s.b, s.a, act.ts, act.ct);
        RecvServer(s.b, s.a, act.ts, act.ct);
      }
    } else if atClient {
      LocalServer(s.a, act);
      LocalKeeps(s.a, s.b, act);
    } else {
      LocalServer(s.b, act);
      LocalKeeps(s.b, s.a, act);
    }
  }

  lemma RecvServer(x: End, y: End, ts: i64, ct: seq<byte>)
    ensures DoRecv(x, y, ts, ct).0.m.isServer == x.m.isServer
  {
    if !x.m.closed && !x.m.held.Holding? && y.out != [] {
      var (rx, result, rest) := RecvPacket(x.rx, y.tx.log, y.out);
      if result.Received? {
        HandleServer(x.(rx := rx, k := x.k + 1), result.packet, ts, ct);
      }
    }
  }

  lemma HandleServer(x: End, p: Packet, ts: i64, ct: seq<byte>)
    ensures var took := HandlePacket(x, p, ts, ct); took.Took? ==> took.x.m.isServer == x.m.isServer
  {
  }

  lemma InitInv()
    ensures PairInv(Init().a, Init().b)
  {
    assert Wire([], 0) == [];
    assert forall id: nat :: DataFor([], id) == [];
    assert Flatten<byte>([]) == [];
  }

  lemma {:induction false} RunInv(steps: seq<(bool, Act)>)
    requires Limits(Run(steps))
    ensures PairInv(Run(steps).a, Run(steps).b) && !Run(steps).a.m.isServer
  {
    if steps == [] {
      InitInv();
    } else {
      var before := Run(steps[..|steps| - 1]);
      OpensGrow(before, steps[|steps| - 1]);
      RunInv(steps[..|steps| - 1]);
      NextKeeps(before, steps[|steps| - 1]);
    }
  }

  lemma OpensGrow(s: Sys, step: (bool, Act))
    ensures s.a.opens <= Next(s, step).a.opens && s.b.opens <= Next(s, step).b.opens
  {
    var (atClient, act) := step;
    if act.Recv? {
      RecvOpens(s.a, s.b, act.ts, act.ct);
      RecvOpens(s.b, s.a, act.ts, act.ct);
    } else {
      LocalServer(s.a, act);
      LocalServer(s.b, act);
    }
  }

  lemma RecvOpens(x: End, y: End, ts: i64, ct: seq<byte>)
    ensures DoRecv(x, y, ts, ct).0.opens == x.opens
  {
  }

  // ---------- the results ----------

  /**
   Stream by stream: what x has returned from Read, still buffers and still queues is the
   beginning of what y wrote for that id; all of it when x has taken every packet and the
   stream is still in its table.
   */
  ghost predicate StreamsPrefix(x: End, y: End) {
    forall id :: id in x.m.objs && id in x.hist ==>
      var held := x.hist[id].got + x.m.objs[id].readBuf + Flatten(x.m.objs[id].readCh);
      && held <= Get(y.wrote, id)
      && (id in x.m.table && x.k == |y.tx.sent| ==> held == Get(y.wrote, id))
  }

  lemma PairPrefix(x: End, y: End)
    requires PairInv(x, y)
    ensures StreamsPrefix(x, y) && x.hist.Keys == x.m.objs.Keys
  {
    InStepPrefix(y, x);
    forall id | id in x.m.objs && id in x.hist
      ensures var held := x.hist[id].got + x.m.objs[id].readBuf + Flatten(x.m.objs[id].readCh);
              && held <= Get(y.wrote, id)
              && (id in x.m.table && x.k == |y.tx.sent| ==> held == Get(y.wrote, id))
    {
      StreamPrefix(x, y, id);
    }
  }

  lemma StreamPrefix(x: End, y: End, id: nat)
    requires PairInv(x, y) && x.heard <= y.fs && id in x.m.objs && id in x.hist
    ensures var held := x.hist[id].got + x.m.objs[id].readBuf + Flatten(x.m.objs[id].readCh);
            && held <= Get(y.wrote, id)
            && (id in x.m.table && x.k == |y.tx.sent| ==> held == Get(y.wrote, id))
  {
    HeldWrote(x.m.objs[id], x.hist[id], id in x.m.table, x.heard, y.fs, y.wrote, id);
    if x.k == |y.tx.sent| {
      AllHeard(x, y);
    }
  }

  lemma AllHeard(x: End, y: End)
    requires InStepWith(y, x) && ChannelInv(y) && x.k == |y.tx.sent|
    ensures x.heard == y.fs
  {
    assert y.tx.sent[..|y.tx.sent|] == y.tx.sent;
  }

  lemma HeldWrote(s: StreamSt, h: Hist, inTable: bool, heard: seq<Frame>, fs: seq<Frame>, wrote: map<nat, seq<byte>>, id: nat)
    requires StreamOk(s, h, inTable, DataFor(heard, id)) && heard <= fs && WroteOk(fs, wrote)
    ensures var held := h.got + s.readBuf + Flatten(s.readCh);
            held <= Get(wrote, id) && (inTable && heard == fs ==> held == Get(wrote, id))
  {
    DataForPrefix(heard, fs, id);
    HeldPrefix(s, h, inTable, DataFor(heard, id), DataFor(fs, id));
    assert Flatten(DataFor(fs, id)) == Get(wrote, id);
  }

  lemma HeldPrefix(s: StreamSt, h: Hist, inTable: bool, data: seq<seq<byte>>, all: seq<seq<byte>>)
    requires StreamOk(s, h, inTable, data) && data <= all
    ensures var held := h.got + s.readBuf + Flatten(s.readCh);
            held <= Flatten(all) && (inTable && data == all ==> held == Flatten(all))
  {
    BytesInOrder(h.got, s.readBuf, s.readCh, h.arrived);
    FlattenPrefix(h.arrived, all);
  }

  /** Every stream, both ways, in every run. */
  lemma {:induction false} PerStreamPrefix(steps: seq<(bool, Act)>)
    requires Limits(Run(steps))
    ensures var s := Run(steps);
            && StreamsPrefix(s.a, s.b) && StreamsPrefix(s.b, s.a)
            && s.a.hist.Keys == s.a.m.objs.Keys && s.b.hist.Keys == s.b.m.objs.Keys
  {
    RunInv(steps);
    var s := Run(steps);
    PairPrefix(s.a, s.b);
    PairPrefix(s.b, s.a);
  }

  /** No id is opened twice, by one end or by both. */
  lemma {:induction false} IdsDisjoint(steps: seq<(bool, Act)>)
    requires Limits(Run(steps))
    ensures var s := Run(steps);
            && (forall i, j :: 0 <= i < |s.a.fs| && 0 <= j < |s.b.fs| && s.a.fs[i].cmd == s.b.fs[j].cmd == CMD_OPEN ==>
                  s.a.fs[i].id != s.b.fs[j].id)
            && (forall i, j :: 0 <= i < j < |s.a.fs| && s.a.fs[i].cmd == s.a.fs[j].cmd == CMD_OPEN ==>
                  s.a.fs[i].id != s.a.fs[j].id)
            && (forall i, j :: 0 <= i < j < |s.b.fs| && s.b.fs[i].cmd == s.b.fs[j].cmd == CMD_OPEN ==>
                  s.b.fs[i].id != s.b.fs[j].id)
  {
    RunInv(steps);
    var s := Run(steps);
    OpenedOnce(s.a.fs);
    OpenedOnce(s.b.fs);
  }

  lemma OpenedOnce(fs: seq<Frame>)
    requires OpenFirst(fs)
    ensures forall i, j :: 0 <= i < j < |fs| && fs[i].cmd == fs[j].cmd == CMD_OPEN ==> fs[i].id != fs[j].id
  {
    forall i, j | 0 <= i < j < |fs| && fs[i].cmd == fs[j].cmd == CMD_OPEN
      ensures fs[i].id != fs[j].id
    {
      assert !IsOpen(fs[i], fs[j].id);
    }
  }
}
