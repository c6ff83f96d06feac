/**
 Many streams over one sealed channel: frames, one endpoint as a value, and what each
 received frame does to it. A handler that has to wait for room in a queue is a step that
 is not taken yet.
 */
module MuxState {
  import opened Bytes
  import opened Reader
  import opened PacketCodec

  const CMD_OPEN: byte := 1
  const CMD_CLOSE: byte := 2
  const CMD_DATA: byte := 3
  const CMD_PING: byte := 4
  const CMD_PONG: byte := 5
  const MUX_HEADER := 5
  const MAX_CHUNK: nat := 32768
  const READ_CAPACITY: nat := 256
  const ACCEPT_CAPACITY: nat := 32
  const SERVER_BASE: nat := 1_000_000_000
  const ID_MOD: nat := 0x1_0000_0000

  datatype Frame = Frame(cmd: byte, id: u32, payload: seq<byte>)

  function EncodeFrame(f: Frame): seq<byte> {
    [f.cmd] + Put32(f.id) + f.payload
  }

  /** The frame in a packet, or nothing when the packet is too short for one. */
  function DecodeFrame(data: seq<byte>): seq<Frame> {
    if |data| < MUX_HEADER then [] else [Frame(data[0], Get32(data[1..5]), data[MUX_HEADER..])]
  }

  /** One byte of command, four of id with the most significant one first, then the payload. */
  lemma FrameRoundTrip(f: Frame)
    ensures DecodeFrame(EncodeFrame(f)) == [f]
    ensures var data := EncodeFrame(f);
            |data| >= 5 && data[0] == f.cmd && f.id == Weigh(data[1], data[2], data[3], data[4]) && data[5..] == f.payload
  {
    var data := EncodeFrame(f);
    assert data[1..5] == Put32(f.id) && data[5..] == f.payload;
    Get32Put32(f.id);
    Put32Weights(f.id);
    assert data[1] == data[1..5][0] && data[2] == data[1..5][1] && data[3] == data[1..5][2] && data[4] == data[1..5][3];
  }

  /** What is shorter than five bytes is no frame. */
  lemma ShortIsNoFrame(data: seq<byte>)
    ensures DecodeFrame(data) == [] <==> |data| < 5
  {
  }

  datatype StreamSt = StreamSt(readCh: seq<seq<byte>>, readBuf: seq<byte>, closed: bool)

  /**
   One endpoint. `objs` has every stream object by id; `table` has the ids that frames are
   dispatched to; `held` is a stream that the read loop is offering while the accept queue
   is full, and nothing is read meanwhile.
   */
  datatype MuxSt = MuxSt(
    isServer: bool, nextID: u32, objs: map<nat, StreamSt>, table: set<nat>, acceptCh: seq<nat>, held: Held, closed: bool)

  datatype Held = Nobody | Holding(id: nat)

  const FRESH := StreamSt([], [], false)

  function NewMux(isServer: bool): MuxSt {
    MuxSt(isServer, if isServer then SERVER_BASE else 0, map[], {}, [], Nobody, false)
  }

  /** The id the next OpenStream takes. */
  function NextID(m: MuxSt): u32 {
    (m.nextID + 1) % ID_MOD
  }

  /** OpenStream, whose OPEN frame was sent or not. */
  function OpenStream(m: MuxSt, sent: bool): MuxSt {
    var id := NextID(m);
    m.(nextID := id, objs := m.objs[id := FRESH], table := if sent then m.table + {id} else m.table - {id})
  }

  /** Offer a stream to AcceptStream, or hold it while there is no room. */
  function OfferStream(m: MuxSt, id: nat): MuxSt {
    if |m.acceptCh| >= ACCEPT_CAPACITY then m.(held := Holding(id)) else m.(acceptCh := m.acceptCh + [id])
  }

  datatype Accepted = Accepted(id: nat) | NoneYet | MuxClosed

  /**
   AcceptStream takes the first stream, and a held one moves up. `eof` picks the closed case
   when the mux is closed and a stream is queued too.
   */
  function AcceptStream(m: MuxSt, eof: bool): (MuxSt, Accepted) {
    if m.acceptCh == [] || (m.closed && eof) then (m, if m.closed then MuxClosed else NoneYet)
    else
      var rest := m.acceptCh[1..];
      match m.held
      case Nobody => (m.(acceptCh := rest), Accepted(m.acceptCh[0]))
      case Holding(id) => (m.(acceptCh := rest + [id], held := Nobody), Accepted(m.acceptCh[0]))
  }

  datatype Handled = Waiting | Handled(m: MuxSt, reply: seq<Frame>)

  function HandleFrame(m: MuxSt, f: Frame): Handled {
    if m.held.Holding? then Waiting
    else if f.cmd == CMD_OPEN then
      Handled(OfferStream(m.(objs := m.objs[f.id := FRESH], table := m.table + {f.id}), f.id), [])
    else if f.cmd == CMD_DATA then
      if f.id in m.table && f.id in m.objs && !m.objs[f.id].closed then
        var s := m.objs[f.id];
        if |s.readCh| >= READ_CAPACITY then Waiting
        else Handled(m.(objs := m.objs[f.id := s.(readCh := s.readCh + [f.payload])]), [])
      else Handled(m, [])
    else if f.cmd == CMD_CLOSE then
      if f.id in m.table && f.id in m.objs then
        Handled(m.(objs := m.objs[f.id := m.objs[f.id].(closed := true)], table := m.table - {f.id}), [])
      else Handled(m, [])
    else if f.cmd == CMD_PING then Handled(m, [Frame(CMD_PONG, f.id, [])])
    else Handled(m, [])
  }

  /** Stream.Close at this end; the CLOSE frame is sent beside it when the stream was open. */
  function CloseStream(m: MuxSt, id: nat): MuxSt
    requires id in m.objs
  {
    if m.objs[id].closed then m
    else m.(objs := m.objs[id := m.objs[id].(closed := true)], table := m.table - {id})
  }

  function CloseSome(objs: map<nat, StreamSt>, ids: set<nat>): map<nat, StreamSt> {
    map id | id in objs :: if id in ids then objs[id].(closed := true) else objs[id]
  }

  /** Mux.Close: every stream that is still in the table is closed and taken out; a held one is given up. */
  function CloseAll(m: MuxSt): MuxSt {
    if m.closed then m
    else m.(closed := true, table := {}, objs := CloseSome(m.objs, m.table), held := Nobody)
  }

  function ReadStream(m: MuxSt, id: nat, n: nat, eof: bool): (MuxSt, ReadResult)
    requires id in m.objs
  {
    var s := m.objs[id];
    var (buf, ch, result) := Take(s.readBuf, s.readCh, s.closed, n, eof);
    (m.(objs := m.objs[id := s.(readBuf := buf, readCh := ch)]), result)
  }
}
