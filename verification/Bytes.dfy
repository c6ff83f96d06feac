/** Bytes, sequences of byte strings, and big-endian integers. */
module Bytes {

  type byte = n: nat | n < 256

  /** Concatenation of a list of lists. */
  function Flatten<T>(ss: seq<seq<T>>): seq<T> {
    if ss == [] then [] else ss[0] + Flatten(ss[1..])
  }

  lemma Associate<T>(a: seq<T>, b: seq<T>, c: seq<T>)
    ensures a + (b + c) == (a + b) + c
  {
  }

  lemma {:induction false} FlattenConcat<T>(a: seq<seq<T>>, b: seq<seq<T>>)
    ensures Flatten(a + b) == Flatten(a) + Flatten(b)
  {
    if a == [] {
      assert a + b == b;
    } else {
      FlattenConcat(a[1..], b);
      assert (a + b)[1..] == a[1..] + b;
      Associate(a[0], Flatten(a[1..]), Flatten(b));
    }
  }

  lemma FlattenOne<T>(a: seq<T>)
    ensures Flatten([a]) == a
  {
    assert Flatten([a]) == a + Flatten<T>([]);
  }

  lemma FlattenSnoc<T>(a: seq<seq<T>>, x: seq<T>)
    ensures Flatten(a + [x]) == Flatten(a) + x
  {
    FlattenConcat(a, [x]);
    FlattenOne(x);
  }

  lemma FlattenPrefix<T>(a: seq<seq<T>>, b: seq<seq<T>>)
    requires a <= b
    ensures Flatten(a) <= Flatten(b)
  {
    assert b == a + b[|a|..];
    FlattenConcat(a, b[|a|..]);
  }

  /** Every piece is non-empty and fits, and every piece but the last is full. */
  ghost predicate WellCut<T>(pieces: seq<seq<T>>, size: nat) {
    && (forall i :: 0 <= i < |pieces| ==> 0 < |pieces[i]| <= size)
    && (forall i :: 0 <= i < |pieces| - 1 ==> |pieces[i]| == size)
  }

  function Put16(n: nat): (s: seq<byte>)
    requires n < 0x1_0000
    ensures |s| == 2
  {
    [n / 256, n % 256]
  }

  function Get16(s: seq<byte>): (n: nat)
    requires |s| == 2
    ensures n < 0x1_0000
  {
    s[0] as int * 256 + s[1] as int
  }

  function Put32(n: nat): (s: seq<byte>)
    requires n < 0x1_0000_0000
    ensures |s| == 4
  {
    Put16(n / 0x1_0000) + Put16(n % 0x1_0000)
  }

  function Get32(s: seq<byte>): (n: nat)
    requires |s| == 4
    ensures n < 0x1_0000_0000
  {
    Get16(s[..2]) * 0x1_0000 + Get16(s[2..])
  }

  function Put64(n: nat): (s: seq<byte>)
    requires n < 0x1_0000_0000_0000_0000
    ensures |s| == 8
  {
    Put32(n / 0x1_0000_0000) + Put32(n % 0x1_0000_0000)
  }

  function Get64(s: seq<byte>): (n: nat)
    requires |s| == 8
    ensures n < 0x1_0000_0000_0000_0000
  {
    Get32(s[..4]) * 0x1_0000_0000 + Get32(s[4..])
  }

  /** The value of four bytes, the most significant one first. */
  function Weigh(a: nat, b: nat, c: nat, d: nat): nat {
    a * 0x100_0000 + b * 0x1_0000 + c * 0x100 + d
  }

  lemma Put32Weights(n: nat)
    requires n < 0x1_0000_0000
    ensures n == Weigh(Put32(n)[0], Put32(n)[1], Put32(n)[2], Put32(n)[3])
  {
  }

  lemma Get16Put16(n: nat)
    requires n < 0x1_0000
    ensures Get16(Put16(n)) == n
  {
  }

  lemma Put16Get16(s: seq<byte>)
    requires |s| == 2
    ensures Put16(Get16(s)) == s
  {
  }

  lemma Get32Put32(n: nat)
    requires n < 0x1_0000_0000
    ensures Get32(Put32(n)) == n
  {
    assert Put32(n)[..2] == Put16(n / 0x1_0000);
    assert Put32(n)[2..] == Put16(n % 0x1_0000);
  }

  lemma Digits16(a: nat, b: nat)
    requires b < 0x1_0000
    ensures (a * 0x1_0000 + b) / 0x1_0000 == a && (a * 0x1_0000 + b) % 0x1_0000 == b
  {
  }

  lemma Digits32(a: nat, b: nat)
    requires b < 0x1_0000_0000
    ensures (a * 0x1_0000_0000 + b) / 0x1_0000_0000 == a && (a * 0x1_0000_0000 + b) % 0x1_0000_0000 == b
  {
  }

  lemma Put32Get32(s: seq<byte>)
    requires |s| == 4
    ensures Put32(Get32(s)) == s
  {
    var high, low := Get16(s[..2]), Get16(s[2..]);
    Digits16(high, low);
    Put16Get16(s[..2]);
    Put16Get16(s[2..]);
    assert s == s[..2] + s[2..];
  }

  lemma Get64Put64(n: nat)
    requires n < 0x1_0000_0000_0000_0000
    ensures Get64(Put64(n)) == n
  {
    assert Put64(n)[..4] == Put32(n / 0x1_0000_0000);
    assert Put64(n)[4..] == Put32(n % 0x1_0000_0000);
    Get32Put32(n / 0x1_0000_0000);
    Get32Put32(n % 0x1_0000_0000);
  }

  lemma Put64Get64(s: seq<byte>)
    requires |s| == 8
    ensures Put64(Get64(s)) == s
  {
    var high, low := Get32(s[..4]), Get32(s[4..]);
    Digits32(high, low);
    Put32Get32(s[..4]);
    Put32Get32(s[4..]);
    assert s == s[..4] + s[4..];
  }

  /** The pieces are p up to `sent`, well cut; when p goes on, the last piece is full. */
  ghost predicate CutUpTo<T>(p: seq<T>, sent: nat, size: nat, pieces: seq<seq<T>>) {
    && sent <= |p| && Flatten(pieces) == p[..sent] && WellCut(pieces, size)
    && (sent < |p| && pieces != [] ==> |pieces[|pieces| - 1]| == size)
  }

  /** Where the next piece ends. */
  function CutEnd<T>(p: seq<T>, sent: nat, size: nat): nat {
    if sent + size > |p| then |p| else sent + size
  }

  /** The next piece of p keeps the pieces well cut, and together they are what was cut so far. */
  lemma CutOne<T>(p: seq<T>, sent: nat, size: nat, pieces: seq<seq<T>>)
    requires CutUpTo(p, sent, size, pieces) && sent < |p| && 0 < size
    ensures sent < CutEnd(p, sent, size) <= |p|
    ensures CutUpTo(p, CutEnd(p, sent, size), size, pieces + [p[sent..CutEnd(p, sent, size)]])
  {
    var end := CutEnd(p, sent, size);
    FlattenSnoc(pieces, p[sent..end]);
    assert p[..end] == p[..sent] + p[sent..end];
  }
}
