/** XOR parity over groups of packets, and recovery of the one that is missing. */
module Fec {
  import opened Bytes

  // ---------- exclusive or on bytes ----------

  /** Bitwise exclusive or. */
  function Xor(a: nat, b: nat): nat
    decreases a + b
  {
    if a == 0 && b == 0 then 0 else (a + b) % 2 + 2 * Xor(a / 2, b / 2)
  }

  function Pow2(k: nat): nat {
    if k == 0 then 1 else 2 * Pow2(k - 1)
  }

  lemma {:induction false} XorBound(a: nat, b: nat, k: nat)
    requires a < Pow2(k) && b < Pow2(k)
    ensures Xor(a, b) < Pow2(k)
    decreases k
  {
    if k > 0 {
      XorBound(a / 2, b / 2, k - 1);
    }
  }

  function XorByte(a: byte, b: byte): byte {
    XorBound(a, b, 8);
    Xor(a, b)
  }

  lemma {:induction false} XorZero(a: nat)
    ensures Xor(a, 0) == a && Xor(0, a) == a
    decreases a
  {
    if a != 0 {
      XorZero(a / 2);
    }
  }

  lemma {:induction false} XorSelf(a: nat)
    ensures Xor(a, a) == 0
  {
    if a != 0 {
      XorSelf(a / 2);
    }
  }

  lemma {:induction false} XorComm(a: nat, b: nat)
    ensures Xor(a, b) == Xor(b, a)
    decreases a + b
  {
    if a + b != 0 {
      XorComm(a / 2, b / 2);
    }
  }

  lemma Digits(bit: nat, rest: nat)
    requires bit < 2
    ensures (bit + 2 * rest) % 2 == bit && (bit + 2 * rest) / 2 == rest
  {
  }

  /** The low bit and the rest of an exclusive or. */
  lemma XorParts(a: nat, b: nat)
    ensures Xor(a, b) == (a + b) % 2 + 2 * Xor(a / 2, b / 2)
    ensures Xor(a, b) % 2 == (a + b) % 2 && Xor(a, b) / 2 == Xor(a / 2, b / 2)
  {
    Digits((a + b) % 2, Xor(a / 2, b / 2));
  }

  lemma {:induction false} XorAssoc(a: nat, b: nat, c: nat)
    ensures Xor(Xor(a, b), c) == Xor(a, Xor(b, c))
    decreases a + b + c
  {
    if a + b + c != 0 {
      XorAssoc(a / 2, b / 2, c / 2);
      XorAssocStep(a, b, c);
    }
  }

  lemma XorAssocStep(a: nat, b: nat, c: nat)
    requires Xor(Xor(a / 2, b / 2), c / 2) == Xor(a / 2, Xor(b / 2, c / 2))
    ensures Xor(Xor(a, b), c) == Xor(a, Xor(b, c))
  {
    var ab, bc := Xor(a, b), Xor(b, c);
    XorParts(a, b);
    XorParts(b, c);
    ParityAssoc(a, b, c, ab, bc);
    SameParts(ab, c, a, bc);
  }

  lemma SameParts(a: nat, b: nat, c: nat, d: nat)
    requires (a + b) % 2 == (c + d) % 2
    requires Xor(a / 2, b / 2) == Xor(c / 2, d / 2)
    ensures Xor(a, b) == Xor(c, d)
  {
    XorParts(a, b);
    XorParts(c, d);
  }

  lemma ParityAssoc(a: nat, b: nat, c: nat, ab: nat, bc: nat)
    requires ab % 2 == (a + b) % 2 && bc % 2 == (b + c) % 2
    ensures (ab + c) % 2 == (a + bc) % 2
  {
  }

  // ---------- packets as columns ----------

  /** Byte i of a packet, zero past its end. */
  function At(pkt: seq<byte>, i: nat): byte {
    if i < |pkt| then pkt[i] else 0
  }

  /** The exclusive or of byte i over a list of packets. */
  function Column(pkts: seq<seq<byte>>, i: nat): byte {
    if pkts == [] then 0 else XorByte(Column(pkts[..|pkts| - 1], i), At(pkts[|pkts| - 1], i))
  }

  function MaxLen(pkts: seq<seq<byte>>): nat {
    if pkts == [] then 0
    else
      var m := MaxLen(pkts[..|pkts| - 1]);
      var n := |pkts[|pkts| - 1]|;
      if n > m then n else m
  }

  lemma {:induction false} MaxLenBounds(pkts: seq<seq<byte>>)
    ensures forall i :: 0 <= i < |pkts| ==> |pkts[i]| <= MaxLen(pkts)
  {
    if pkts != [] {
      MaxLenBounds(pkts[..|pkts| - 1]);
    }
  }

  /** The parity of a group: as long as its longest packet, every byte the column's exclusive or. */
  function Parity(pkts: seq<seq<byte>>): seq<byte> {
    seq(MaxLen(pkts), i requires 0 <= i < MaxLen(pkts) => Column(pkts, i))
  }

  /** A payload behind its length in two bytes; a longer length is truncated. */
  function Padded(data: seq<byte>): (p: seq<byte>)
    ensures |p| == 2 + |data|
  {
    Put16(|data| % 0x1_0000) + data
  }

  function PaddedAll(payloads: seq<seq<byte>>): seq<seq<byte>> {
    seq(|payloads|, i requires 0 <= i < |payloads| => Padded(payloads[i]))
  }

  // ---------- the decoder ----------

  /** A slot of the decoder: nothing received yet, or the padded packet. */
  datatype Slot = Empty | Full(pkt: seq<byte>)

  datatype Decoder = Decoder(packets: seq<Slot>, fecData: Slot, received: nat)

  function NewDecoder(n: nat): Decoder {
    Decoder(seq(n, _ => Empty), Empty, 0)
  }

  function AddPacket(d: Decoder, index: int, data: seq<byte>): Decoder {
    if index < 0 || index >= |d.packets| then d
    else Decoder(d.packets[index := Full(Padded(data))], d.fecData,
                 if d.packets[index].Empty? then d.received + 1 else d.received)
  }

  function AddFEC(d: Decoder, data: seq<byte>): Decoder {
    d.(fecData := Full(data))
  }

  predicate CanRecover(d: Decoder) {
    d.fecData.Full? && d.received == |d.packets| - 1
  }

  /** The first empty slot, or -1. */
  function MissingIndex(slots: seq<Slot>, from: nat): int
    requires from <= |slots|
    decreases |slots| - from
  {
    if from == |slots| then -1
    else if slots[from].Empty? then from
    else MissingIndex(slots, from + 1)
  }

  /** The packets of the first k slots except `skip` and the empty ones. */
  function Others(slots: seq<Slot>, skip: int, k: nat): seq<seq<byte>>
    requires k <= |slots|
  {
    if k == 0 then []
    else Others(slots, skip, k - 1) + if k - 1 == skip || slots[k - 1].Empty? then [] else [slots[k - 1].pkt]
  }

  /** The parity with the received packets taken out again. */
  function Rest(d: Decoder, missing: int): seq<byte>
    requires d.fecData.Full?
  {
    var fec := d.fecData.pkt;
    seq(|fec|, i requires 0 <= i < |fec| => XorByte(fec[i], Column(Others(d.packets, missing, |d.packets|), i)))
  }

  /** The payload behind its length; what is there when the length says more. */
  function Unpad(result: seq<byte>): seq<byte> {
    if |result| < 2 then []
    else
      var n := Get16(result[..2]);
      if n + 2 > |result| then result[2..] else result[2..2 + n]
  }

  /** The missing index and its payload, or (-1, []). */
  function Recover(d: Decoder): (int, seq<byte>) {
    if !CanRecover(d) then (-1, [])
    else
      var missing := MissingIndex(d.packets, 0);
      if missing < 0 then (-1, []) else (missing, Unpad(Rest(d, missing)))
  }

  // ---------- runs of the encoder ----------

  /** Add as a function: the packets kept for the group, and the parity when it is complete. */
  function EncodeStep(packets: seq<seq<byte>>, n: nat, data: seq<byte>): (seq<seq<byte>>, seq<seq<byte>>) {
    var all := packets + [Padded(data)];
    if |all| >= n then ([], [Parity(all)]) else (all, [])
  }

  /** Everything Add returns for a list of payloads. */
  function Encode(packets: seq<seq<byte>>, n: nat, payloads: seq<seq<byte>>): seq<seq<byte>>
    decreases |payloads|
  {
    if payloads == [] then []
    else
      var (packets', parity) := EncodeStep(packets, n, payloads[0]);
      parity + Encode(packets', n, payloads[1..])
  }

  /** The payloads cut into complete groups. */
  function Groups(payloads: seq<seq<byte>>, n: nat): seq<seq<seq<byte>>>
    requires n > 0
    decreases |payloads|
  {
    if |payloads| < n then [] else [payloads[..n]] + Groups(payloads[n..], n)
  }

  function Parities(groups: seq<seq<seq<byte>>>): seq<seq<byte>> {
    if groups == [] then [] else [Parity(PaddedAll(groups[0]))] + Parities(groups[1..])
  }

  lemma PaddedAllSnoc(payloads: seq<seq<byte>>, data: seq<byte>)
    ensures PaddedAll(payloads + [data]) == PaddedAll(payloads) + [Padded(data)]
  {
  }

  /** One parity for each complete group, of that group's payloads alone. */
  lemma {:induction false} EncodeGroups(pending: seq<seq<byte>>, n: nat, payloads: seq<seq<byte>>)
    requires |pending| < n
    ensures Encode(PaddedAll(pending), n, payloads) == Parities(Groups(pending + payloads, n))
    decreases |payloads|
  {
    if payloads == [] {
      assert pending + payloads == pending;
    } else {
      var data, more := payloads[0], payloads[1..];
      var all := pending + [data];
      PaddedAllSnoc(pending, data);
      assert pending + payloads == all + more;
      if |all| == n {
        EncodeGroups([], n, more);
        assert PaddedAll([]) == [];
        assert (all + more)[..n] == all && (all + more)[n..] == more && [] + more == more;
      } else {
        EncodeGroups(all, n, more);
      }
    }
  }

  /** A group of its own: the encoder returns its parity, once. */
  lemma {:induction false} EncodedGroup(payloads: seq<seq<byte>>)
    requires payloads != []
    ensures Encode([], |payloads|, payloads) == [Parity(PaddedAll(payloads))]
  {
    EncodeGroups([], |payloads|, payloads);
    assert PaddedAll([]) == [] && [] + payloads == payloads;
    OneGroup(payloads);
    OneParity(payloads);
  }

  lemma OneGroup(payloads: seq<seq<byte>>)
    requires payloads != []
    ensures Groups(payloads, |payloads|) == [payloads]
  {
    assert payloads[..|payloads|] == payloads && payloads[|payloads|..] == [];
  }

  lemma OneParity(payloads: seq<seq<byte>>)
    ensures Parities([payloads]) == [Parity(PaddedAll(payloads))]
  {
    assert [payloads][1..] == [];
  }

  // ---------- recovery ----------

  lemma XorCancel(c: byte, p: byte)
    ensures XorByte(XorByte(c, p), c) == p
  {
    XorComm(c, p);
    XorAssoc(p, c, c);
    XorSelf(c);
    XorZero(p);
  }

  /** What a receiver is given: packets of the group by index, or the parity. */
  datatype Feed = Packet(index: int, data: seq<byte>) | ParityData(data: seq<byte>)

  function Take(d: Decoder, op: Feed): Decoder {
    match op
    case Packet(index, data) => AddPacket(d, index, data)
    case ParityData(data) => AddFEC(d, data)
  }

  function TakeAll(d: Decoder, ops: seq<Feed>): Decoder {
    if ops == [] then d else Take(TakeAll(d, ops[..|ops| - 1]), ops[|ops| - 1])
  }

  /** An honest delivery of a group without packet `missing`; indexes outside the group may occur. */
  ghost predicate Honest(payloads: seq<seq<byte>>, missing: nat, op: Feed) {
    match op
    case Packet(index, data) => 0 <= index < |payloads| ==> index != missing && data == payloads[index]
    case ParityData(data) => data == Parity(PaddedAll(payloads))
  }

  /** The number of full slots. */
  function CountFull(slots: seq<Slot>): nat {
    if slots == [] then 0 else CountFull(slots[..|slots| - 1]) + if slots[|slots| - 1].Full? then 1 else 0
  }

  lemma {:induction false} CountFullUpdate(slots: seq<Slot>, i: nat, pkt: seq<byte>)
    requires i < |slots|
    ensures CountFull(slots[i := Full(pkt)]) == CountFull(slots) + if slots[i].Empty? then 1 else 0
  {
    var init := slots[..|slots| - 1];
    var slots' := slots[i := Full(pkt)];
    if i < |init| {
      CountFullUpdate(init, i, pkt);
      assert slots'[..|slots| - 1] == init[i := Full(pkt)];
    } else {
      assert slots'[..|slots| - 1] == init;
    }
  }

  lemma {:induction false} CountFullEmpty(n: nat)
    ensures CountFull(seq(n, _ => Empty)) == 0
  {
    if n > 0 {
      CountFullEmpty(n - 1);
      assert seq(n, _ => Empty)[..n - 1] == seq(n - 1, _ => Empty);
    }
  }

  /** All slots but one full: one less than there are slots. */
  lemma {:induction false} CountFullAllBut(slots: seq<Slot>, missing: nat)
    requires forall i :: 0 <= i < |slots| ==> (slots[i].Full? <==> i != missing)
    ensures CountFull(slots) == if missing < |slots| then |slots| - 1 else |slots|
  {
    if slots != [] {
      CountFullAllBut(slots[..|slots| - 1], missing);
    }
  }

  /** The decoder has only packets of the group, never the missing one, and counts them right. */
  ghost predicate DecoderInv(d: Decoder, payloads: seq<seq<byte>>, missing: nat) {
    && |d.packets| == |payloads|
    && (forall i :: 0 <= i < |payloads| && d.packets[i].Full? ==> i != missing && d.packets[i].pkt == Padded(payloads[i]))
    && d.received == CountFull(d.packets)
    && (d.fecData.Full? ==> d.fecData.pkt == Parity(PaddedAll(payloads)))
  }

  predicate Gave(ops: seq<Feed>, index: int) {
    exists k :: 0 <= k < |ops| && ops[k].Packet? && ops[k].index == index
  }

  predicate GaveParity(ops: seq<Feed>) {
    exists k :: 0 <= k < |ops| && ops[k].ParityData?
  }

  lemma {:induction false} TakeAllInv(payloads: seq<seq<byte>>, missing: nat, ops: seq<Feed>)
    requires forall k :: 0 <= k < |ops| ==> Honest(payloads, missing, ops[k])
    ensures var d := TakeAll(NewDecoder(|payloads|), ops);
            && DecoderInv(d, payloads, missing)
            && (forall i :: 0 <= i < |payloads| ==> (d.packets[i].Full? <==> Gave(ops, i)))
            && (d.fecData.Full? <==> GaveParity(ops))
  {
    if ops == [] {
      CountFullEmpty(|payloads|);
    } else {
      var init, op := ops[..|ops| - 1], ops[|ops| - 1];
      TakeAllInv(payloads, missing, init);
      TakeKeeps(payloads, missing, init, op);
      assert ops == init + [op];
    }
  }

  lemma GaveSnoc(ops: seq<Feed>, op: Feed, i: int)
    ensures Gave(ops + [op], i) <==> Gave(ops, i) || (op.Packet? && op.index == i)
    ensures GaveParity(ops + [op]) <==> GaveParity(ops) || op.ParityData?
  {
    var all := ops + [op];
    assert all[|ops|] == op;
    if Gave(ops, i) {
      var k :| 0 <= k < |ops| && ops[k].Packet? && ops[k].index == i;
      assert all[k] == ops[k];
    }
    if GaveParity(ops) {
      var k :| 0 <= k < |ops| && ops[k].ParityData?;
      assert all[k] == ops[k];
    }
  }

  lemma TakeKeeps(payloads: seq<seq<byte>>, missing: nat, ops: seq<Feed>, op: Feed)
    requires Honest(payloads, missing, op)
    requires var d := TakeAll(NewDecoder(|payloads|), ops);
             && DecoderInv(d, payloads, missing)
             && (forall i :: 0 <= i < |payloads| ==> (d.packets[i].Full? <==> Gave(ops, i)))
             && (d.fecData.Full? <==> GaveParity(ops))
    ensures var d' := Take(TakeAll(NewDecoder(|payloads|), ops), op);
            && DecoderInv(d', payloads, missing)
            && (forall i :: 0 <= i < |payloads| ==> (d'.packets[i].Full? <==> Gave(ops + [op], i)))
            && (d'.fecData.Full? <==> GaveParity(ops + [op]))
  {
    var d := TakeAll(NewDecoder(|payloads|), ops);
    if op.Packet? && 0 <= op.index < |payloads| {
      CountFullUpdate(d.packets, op.index, Padded(op.data));
    }
    forall i ensures Gave(ops + [op], i) <==> Gave(ops, i) || (op.Packet? && op.index == i) {
      GaveSnoc(ops, op, i);
    }
    GaveSnoc(ops, op, 0);
  }

  lemma {:induction false} MissingIndexIs(slots: seq<Slot>, missing: nat, from: nat)
    requires from <= missing < |slots| && slots[missing].Empty?
    requires forall i :: from <= i < missing ==> slots[i].Full?
    ensures MissingIndex(slots, from) == missing
    decreases missing - from
  {
    if from < missing {
      MissingIndexIs(slots, missing, from + 1);
    }
  }

  /** A column of the whole group is the column of the others and the missing packet's byte. */
  lemma {:induction false} ColumnSplit(pkts: seq<seq<byte>>, slots: seq<Slot>, missing: nat, k: nat, i: nat)
    requires k <= |pkts| == |slots|
    requires forall j :: 0 <= j < |slots| ==> slots[j] == if j == missing then Empty else Full(pkts[j])
    ensures Column(pkts[..k], i) ==
            if missing < k then XorByte(Column(Others(slots, missing, k), i), At(pkts[missing], i))
            else Column(Others(slots, missing, k), i)
  {
    if k > 0 {
      ColumnSplit(pkts, slots, missing, k - 1, i);
      assert pkts[..k][..k - 1] == pkts[..k - 1];
      var before := Others(slots, missing, k - 1);
      if k - 1 == missing {
        assert Others(slots, missing, k) == before;
      } else {
        assert (before + [pkts[k - 1]])[..|before|] == before;
        if missing < k {
          SwapLast(Column(before, i), At(pkts[missing], i), At(pkts[k - 1], i));
        }
      }
    }
  }

  lemma SwapLast(c: byte, p: byte, q: byte)
    ensures XorByte(XorByte(c, p), q) == XorByte(XorByte(c, q), p)
  {
    XorAssoc(c, p, q);
    XorAssoc(c, q, p);
    XorComm(p, q);
  }

  /** Taking the others out of the parity leaves the missing packet and zeros. */
  lemma RestIsMissing(d: Decoder, payloads: seq<seq<byte>>, missing: nat)
    requires DecoderInv(d, payloads, missing) && missing < |payloads| && d.fecData.Full?
    requires forall i :: 0 <= i < |payloads| ==> (d.packets[i].Full? <==> i != missing)
    ensures var rest := Rest(d, missing);
            && |rest| >= |Padded(payloads[missing])|
            && rest[..|Padded(payloads[missing])|] == Padded(payloads[missing])
  {
    var pkts := PaddedAll(payloads);
    var rest, p := Rest(d, missing), pkts[missing];
    MaxLenBounds(pkts);
    forall i | 0 <= i < |p| ensures rest[i] == p[i] {
      ColumnSplit(pkts, d.packets, missing, |pkts|, i);
      assert pkts[..|pkts|] == pkts;
      XorCancel(Column(Others(d.packets, missing, |pkts|), i), At(p, i));
    }
  }

  /** The length prefix gives the payload back, cut to its length modulo 65536. */
  lemma UnpadPadded(rest: seq<byte>, data: seq<byte>)
    requires |rest| >= |Padded(data)| && rest[..|Padded(data)|] == Padded(data)
    ensures Unpad(rest) == data[..|data| % 0x1_0000]
    ensures |rest| >= 2 && Get16(rest[..2]) + 2 <= |rest|
  {
    var n := |data| % 0x1_0000;
    assert rest[..2] == Padded(data)[..2] == Put16(n);
    Get16Put16(n);
    assert Padded(data)[2..] == data;
    assert rest[2..2 + n] == rest[..|Padded(data)|][2..2 + n];
    assert Padded(data)[2..2 + n] == Padded(data)[2..][..n];
  }

  /**
   Recovery: a fresh decoder that is given the other packets of a group, in any order and
   with repeats, and the parity, returns the missing index and the first bytes of its
   payload, and all of the payload exactly when its length fits the two-byte prefix.
   */
  lemma RecoverMissing(payloads: seq<seq<byte>>, missing: nat, ops: seq<Feed>)
    requires 2 <= |payloads| && missing < |payloads|
    requires forall k :: 0 <= k < |ops| ==> Honest(payloads, missing, ops[k])
    requires forall i :: 0 <= i < |payloads| && i != missing ==> Gave(ops, i)
    requires GaveParity(ops)
    ensures var d := TakeAll(NewDecoder(|payloads|), ops);
            var data := payloads[missing];
            && Recover(d) == (missing as int, data[..|data| % 0x1_0000])
            && (Recover(d) == (missing as int, data) <==> |data| <= 65535)
            && |Rest(d, missing)| >= 2 && Get16(Rest(d, missing)[..2]) + 2 <= |Rest(d, missing)|
  {
    var d := TakeAll(NewDecoder(|payloads|), ops);
    TakeAllInv(payloads, missing, ops);
    AllButOne(d, payloads, missing, ops);
    RecoverFrom(d, payloads, missing);
    RestLongEnough(d, payloads, missing);
    CutIsWhole(payloads[missing]);
  }

  lemma CutIsWhole(data: seq<byte>)
    ensures data[..|data| % 0x1_0000] == data <==> |data| <= 65535
  {
  }

  lemma AllButOne(d: Decoder, payloads: seq<seq<byte>>, missing: nat, ops: seq<Feed>)
    requires DecoderInv(d, payloads, missing) && missing < |payloads|
    requires forall i :: 0 <= i < |payloads| ==> (d.packets[i].Full? <==> Gave(ops, i))
    requires forall i :: 0 <= i < |payloads| && i != missing ==> Gave(ops, i)
    ensures forall i :: 0 <= i < |payloads| ==> (d.packets[i].Full? <==> i != missing)
  {
  }

  lemma RestLongEnough(d: Decoder, payloads: seq<seq<byte>>, missing: nat)
    requires DecoderInv(d, payloads, missing) && missing < |payloads| && d.fecData.Full?
    requires forall i :: 0 <= i < |payloads| ==> (d.packets[i].Full? <==> i != missing)
    ensures |Rest(d, missing)| >= 2 && Get16(Rest(d, missing)[..2]) + 2 <= |Rest(d, missing)|
  {
    RestIsMissing(d, payloads, missing);
    UnpadPadded(Rest(d, missing), payloads[missing]);
  }

  lemma RecoverFrom(d: Decoder, payloads: seq<seq<byte>>, missing: nat)
    requires DecoderInv(d, payloads, missing) && missing < |payloads| && d.fecData.Full?
    requires forall i :: 0 <= i < |payloads| ==> (d.packets[i].Full? <==> i != missing)
    ensures Recover(d) == (missing as int, payloads[missing][..|payloads[missing]| % 0x1_0000])
  {
    CountFullAllBut(d.packets, missing);
    MissingIndexIs(d.packets, missing, 0);
    RestIsMissing(d, payloads, missing);
    UnpadPadded(Rest(d, missing), payloads[missing]);
  }

  /** With nothing but packets of the group, recovery is refused until only one is missing. */
  lemma {:induction false} RecoverNeedsAllOthers(payloads: seq<seq<byte>>, missing: nat, ops: seq<Feed>, other: nat)
    requires forall k :: 0 <= k < |ops| ==> Honest(payloads, missing, ops[k])
    requires missing < |payloads| && other < |payloads| && other != missing && !Gave(ops, other)
    ensures Recover(TakeAll(NewDecoder(|payloads|), ops)) == (-1, [])
  {
    var d := TakeAll(NewDecoder(|payloads|), ops);
    TakeAllInv(payloads, missing, ops);
    TwoEmpty(d.packets, missing, other);
  }

  lemma {:induction false} TwoEmpty(slots: seq<Slot>, i: nat, j: nat)
    requires i < |slots| && j < |slots| && i != j && slots[i].Empty? && slots[j].Empty?
    ensures CountFull(slots) <= |slots| - 2
  {
    var last := |slots| - 1;
    if i < last && j < last {
      TwoEmpty(slots[..last], i, j);
    } else {
      OneEmpty(slots[..last], if i == last then j else i);
    }
  }

  lemma {:induction false} OneEmpty(slots: seq<Slot>, i: nat)
    requires i < |slots| && slots[i].Empty?
    ensures CountFull(slots) <= |slots| - 1
  {
    var last := |slots| - 1;
    if i < last {
      OneEmpty(slots[..last], i);
    } else {
      AtMostAll(slots[..last]);
    }
  }

  lemma {:induction false} AtMostAll(slots: seq<Slot>)
    ensures CountFull(slots) <= |slots|
  {
    if slots != [] {
      AtMostAll(slots[..|slots| - 1]);
    }
  }

  // ---------- any input ----------

  /** What was given last for an index, behind the two bytes of its length. */
  function LastGiven(ops: seq<Feed>, index: nat): Slot {
    if ops == [] then Empty
    else
      match ops[|ops| - 1]
      case Packet(i, data) =>
        if i == index then Full(Put16(|data| % 65536) + data) else LastGiven(ops[..|ops| - 1], index)
      case ParityData(_) => LastGiven(ops[..|ops| - 1], index)
  }

  function LastParity(ops: seq<Feed>): Slot {
    if ops == [] then Empty
    else if ops[|ops| - 1].ParityData? then Full(ops[|ops| - 1].data)
    else LastParity(ops[..|ops| - 1])
  }

  /** Whatever it was given, the decoder holds the last packet for every index and counts the indexes it has. */
  lemma {:induction false} HoldsTheLast(n: nat, ops: seq<Feed>)
    ensures var d := TakeAll(NewDecoder(n), ops);
            && |d.packets| == n && (forall i :: 0 <= i < n ==> d.packets[i] == LastGiven(ops, i))
            && d.fecData == LastParity(ops) && d.received == CountFull(d.packets)
  {
    if ops == [] {
      CountFullEmpty(n);
    } else {
      var init, op := ops[..|ops| - 1], ops[|ops| - 1];
      HoldsTheLast(n, init);
      if op.Packet? && 0 <= op.index < n {
        CountFullUpdate(TakeAll(NewDecoder(n), init).packets, op.index, Padded(op.data));
      }
    }
  }

  lemma {:induction false} MissingIndexFound(slots: seq<Slot>, from: nat)
    requires from <= |slots|
    ensures var m := MissingIndex(slots, from);
            m == -1 || (from <= m < |slots| && slots[m].Empty?)
    decreases |slots| - from
  {
    if from < |slots| && slots[from].Full? {
      MissingIndexFound(slots, from + 1);
    }
  }

  /** Index m of the group, and no other, was never given. */
  ghost predicate OnlyMissing(ops: seq<Feed>, n: nat, m: nat) {
    m < n && forall i :: 0 <= i < n ==> (LastGiven(ops, i).Full? <==> i != m)
  }

  /**
   Whatever the decoder was given, recovery answers with index m exactly when the parity
   came and m is the one index of the group that did not; otherwise it answers with -1
   and nothing.
   */
  lemma {:induction false} RecoverExactly(n: nat, ops: seq<Feed>, m: nat)
    ensures var (index, data) := Recover(TakeAll(NewDecoder(n), ops));
            && (index == m <==> LastParity(ops).Full? && OnlyMissing(ops, n, m))
            && (index < 0 ==> index == -1 && data == [])
  {
    var d := TakeAll(NewDecoder(n), ops);
    HoldsTheLast(n, ops);
    MissingIndexFound(d.packets, 0);
    RecoverOne(d, m);
    assert OnlyEmpty(d.packets, m) <==> OnlyMissing(ops, n, m);
  }

  /** Slot m and no other is empty. */
  ghost predicate OnlyEmpty(slots: seq<Slot>, m: nat) {
    m < |slots| && forall i :: 0 <= i < |slots| ==> (slots[i].Full? <==> i != m)
  }

  lemma RecoverOne(d: Decoder, m: nat)
    requires d.received == CountFull(d.packets)
    ensures Recover(d).0 == m <==> d.fecData.Full? && OnlyEmpty(d.packets, m)
  {
    MissingIndexFound(d.packets, 0);
    if Recover(d).0 == m {
      RecoveredIsOnly(d.packets, m);
    }
    if d.fecData.Full? && OnlyEmpty(d.packets, m) {
      CountFullAllBut(d.packets, m);
      MissingIndexIs(d.packets, m, 0);
    }
  }

  lemma RecoveredIsOnly(slots: seq<Slot>, m: nat)
    requires m < |slots| && slots[m].Empty? && CountFull(slots) == |slots| - 1
    ensures OnlyEmpty(slots, m)
  {
    forall i | 0 <= i < |slots| && i != m ensures slots[i].Full? {
      if slots[i].Empty? {
        TwoEmpty(slots, m, i);
      }
    }
  }

  /** The payload is what stands behind the length, as far as the length and the bytes go. */
  lemma UnpadTakes(result: seq<byte>)
    ensures |result| < 2 ==> Unpad(result) == []
    ensures |result| >= 2 ==>
              var n := Get16(result[..2]);
              Unpad(result) <= result[2..] && |Unpad(result)| == if n < |result| - 2 then n else |result| - 2
  {
  }
}
