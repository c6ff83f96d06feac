/** The mutable encoder and decoder, proved against module Fec. */
module FecObject {
  import opened Bytes
  import opened F = Fec

  class FECGroup {
    const groupSize: nat
    var packets: seq<seq<byte>>
    var maxLen: nat

    ghost predicate Valid()
      reads this
    {
      maxLen == MaxLen(packets) && |packets| < groupSize && 2 <= groupSize
    }

    constructor (n: int)
      ensures Valid() && groupSize == (if n < 2 then 4 else n) && packets == []
    {
      groupSize := if n < 2 then 4 else n;
      packets, maxLen := [], 0;
    }

    method GenerateFEC() returns (result: array<byte>)
      requires maxLen == MaxLen(packets)
      ensures fresh(result) && result[..] == Parity(packets)
    {
      MaxLenBounds(packets);
      result := new byte[maxLen](_ => 0);
      var k := 0;
      while k < |packets|
        invariant 0 <= k <= |packets| && result.Length == maxLen
        invariant forall i :: 0 <= i < maxLen ==> result[i] == Column(packets[..k], i)
      {
        var pkt := packets[k];
        XorInto(result, pkt, |pkt|);
        assert packets[..k + 1][..k] == packets[..k];
        forall i | 0 <= i < maxLen && i >= |pkt| ensures XorByte(Column(packets[..k], i), At(pkt, i)) == Column(packets[..k], i) {
          XorZero(Column(packets[..k], i));
        }
        k := k + 1;
      }
      assert packets[..k] == packets;
    }

    method Reset()
      modifies this
      ensures packets == [] && maxLen == 0
    {
      packets, maxLen := [], 0;
    }

    /** Add a packet; when it completes the group, return the parity and start a new group. */
    method Add(data: seq<byte>) returns (parity: seq<seq<byte>>)
      requires Valid()
      modifies this
      ensures Valid()
      ensures (packets, parity) == EncodeStep(old(packets), groupSize, data)
      ensures |old(packets)| + 1 < groupSize ==> parity == [] && packets == old(packets) + [Padded(data)]
      ensures |old(packets)| + 1 == groupSize ==> parity == [Parity(old(packets) + [Padded(data)])] && packets == []
    {
      var padded := Put16(|data| % 0x1_0000) + data;
      assert (packets + [padded])[..|packets|] == packets;
      packets := packets + [padded];
      if |padded| > maxLen {
        maxLen := |padded|;
      }
      if |packets| >= groupSize {
        var fec := GenerateFEC();
        parity := [fec[..]];
        Reset();
      } else {
        parity := [];
      }
    }
  }

  /** The inner loop of both sides: exclusive or of the first n bytes of a packet into a buffer. */
  method XorInto(result: array<byte>, pkt: seq<byte>, n: nat)
    requires n <= |pkt| && n <= result.Length
    modifies result
    ensures forall i :: 0 <= i < n ==> result[i] == XorByte(old(result[i]), pkt[i])
    ensures forall i :: n <= i < result.Length ==> result[i] == old(result[i])
  {
    var j := 0;
    while j < n
      invariant 0 <= j <= n
      invariant forall i :: 0 <= i < j ==> result[i] == XorByte(old(result[i]), pkt[i])
      invariant forall i :: j <= i < result.Length ==> result[i] == old(result[i])
    {
      result[j] := XorByte(result[j], pkt[j]);
      j := j + 1;
    }
  }

  /** Taking out one more packet, byte by byte. */
  lemma TakeOutOne(fec: seq<byte>, before: seq<seq<byte>>, pkt: seq<byte>)
    ensures forall j :: 0 <= j < |fec| ==>
              XorByte(fec[j], Column(before + [pkt], j)) ==
              if j < |pkt| then XorByte(XorByte(fec[j], Column(before, j)), pkt[j]) else XorByte(fec[j], Column(before, j))
  {
    assert (before + [pkt])[..|before|] == before;
    forall j | 0 <= j < |fec|
      ensures XorByte(fec[j], Column(before + [pkt], j)) ==
              if j < |pkt| then XorByte(XorByte(fec[j], Column(before, j)), pkt[j]) else XorByte(fec[j], Column(before, j))
    {
      XorAssoc(fec[j], Column(before, j), At(pkt, j));
      XorZero(XorByte(fec[j], Column(before, j)));
    }
  }

  class FECDecoder {
    const groupSize: nat
    var packets: array<Slot>
    var fecData: Slot
    var received: nat

    ghost function View(): Decoder
      reads this, packets
    {
      Decoder(packets[..], fecData, received)
    }

    constructor (n: int)
      ensures groupSize == (if n < 2 then 4 else n) && packets.Length == groupSize && fresh(packets)
      ensures View() == NewDecoder(groupSize)
    {
      groupSize := if n < 2 then 4 else n;
      var slots := new Slot[if n < 2 then 4 else n](_ => Empty);
      packets := slots;
      fecData, received := Empty, 0;
      new;
      assert packets[..] == seq(groupSize, _ => Empty);
    }

    method AddPacket(index: int, data: seq<byte>)
      requires packets.Length == groupSize
      modifies this, packets
      ensures packets == old(packets)
      ensures View() == F.AddPacket(old(View()), index, data)
    {
      if index < 0 || index >= groupSize {
        return;
      }
      var padded := Put16(|data| % 0x1_0000) + data;
      if packets[index].Empty? {
        received := received + 1;
      }
      packets[index] := Full(padded);
    }

    method AddFEC(data: seq<byte>)
      modifies this
      ensures packets == old(packets) && View() == F.AddFEC(old(View()), data)
    {
      fecData := Full(data);
    }

    method CanRecover() returns (yes: bool)
      requires packets.Length == groupSize
      ensures yes == F.CanRecover(View())
    {
      yes := fecData.Full? && received == groupSize - 1;
    }

    /** The first loop of Recover. */
    method FindMissing() returns (missing: int)
      ensures missing == MissingIndex(packets[..], 0)
    {
      missing := -1;
      var i := 0;
      while i < packets.Length && missing < 0
        invariant 0 <= i <= packets.Length && -1 <= missing
        invariant MissingIndex(packets[..], 0) == if missing < 0 then MissingIndex(packets[..], i) else missing
      {
        if packets[i].Empty? {
          missing := i;
        }
        i := i + 1;
      }
    }

    /** The second loop of Recover: a copy of the parity without the received packets. */
    method TakeOut(missing: int) returns (result: array<byte>)
      requires fecData.Full?
      ensures fresh(result) && result[..] == Rest(View(), missing)
    {
      var fec := fecData.pkt;
      ghost var slots := packets[..];
      result := new byte[|fec|](j requires 0 <= j < |fec| => fec[j]);
      var k := 0;
      forall j | 0 <= j < |fec| ensures XorByte(fec[j], 0) == fec[j] {
        XorZero(fec[j]);
      }
      while k < packets.Length
        invariant 0 <= k <= packets.Length && result.Length == |fec| && packets[..] == slots
        invariant forall j :: 0 <= j < |fec| ==> result[j] == XorByte(fec[j], Column(Others(slots, missing, k), j))
      {
        if k != missing && packets[k].Full? {
          var pkt := packets[k].pkt;
          XorInto(result, pkt, if |pkt| < result.Length then |pkt| else result.Length);
          TakeOutOne(fec, Others(slots, missing, k), pkt);
        } else {
          assert Others(slots, missing, k + 1) == Others(slots, missing, k);
        }
        k := k + 1;
      }
    }

    method Recover() returns (missing: int, data: seq<byte>)
      requires packets.Length == groupSize
      ensures (missing, data) == F.Recover(View())
    {
      var can := CanRecover();
      if !can {
        return -1, [];
      }
      missing := FindMissing();
      if missing < 0 {
        return -1, [];
      }
      var result := TakeOut(missing);
      if result.Length < 2 {
        return missing, [];
      }
      assert result[..2] == result[..][..2] && result[2..] == result[..][2..];
      var n := Get16(result[..2]);
      if n + 2 > result.Length {
        return missing, result[2..];
      }
      return missing, result[2..2 + n];
    }

    method Reset()
      requires packets.Length == groupSize
      modifies this, packets
      ensures packets == old(packets) && View() == NewDecoder(groupSize)
    {
      var i := 0;
      while i < packets.Length
        invariant 0 <= i <= packets.Length && packets == old(packets)
        invariant forall j :: 0 <= j < i ==> packets[j] == Empty
      {
        packets[i] := Empty;
        i := i + 1;
      }
      fecData, received := Empty, 0;
      assert packets[..] == seq(groupSize, _ => Empty);
    }
  }
}
