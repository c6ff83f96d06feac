/** Logs of times, and what is left of a log after a cutoff. */
module TimeWindow {

  /** The entries later than the cutoff, in order. */
  function After(ts: seq<int>, cutoff: int): seq<int> {
    if ts == [] then []
    else After(ts[..|ts| - 1], cutoff) + if ts[|ts| - 1] > cutoff then [ts[|ts| - 1]] else []
  }

  lemma AfterSnoc(ts: seq<int>, t: int, cutoff: int)
    ensures After(ts + [t], cutoff) == After(ts, cutoff) + if t > cutoff then [t] else []
  {
    assert (ts + [t])[..|ts|] == ts;
  }

  /** Every time is kept as often as it occurs when it is later than the cutoff, and not at all otherwise. */
  lemma {:induction false} AfterKeeps(ts: seq<int>, cutoff: int, t: int)
    ensures multiset(After(ts, cutoff))[t] == if t > cutoff then multiset(ts)[t] else 0
    ensures t in After(ts, cutoff) <==> t in ts && t > cutoff
  {
    if ts != [] {
      var init, last := ts[..|ts| - 1], ts[|ts| - 1];
      AfterKeeps(init, cutoff, t);
      AfterSnoc(init, last, cutoff);
      assert ts == init + [last];
    }
  }

  function Max(a: int, b: int): int {
    if a < b then b else a
  }

  /** Pruning twice is pruning once, at the later cutoff. */
  lemma {:induction false} AfterAfter(ts: seq<int>, a: int, b: int)
    ensures After(After(ts, a), b) == After(ts, Max(a, b))
  {
    if ts != [] {
      var init, t := ts[..|ts| - 1], ts[|ts| - 1];
      AfterAfter(init, a, b);
      if t > a {
        AfterSnoc(After(init, a), t, b);
      } else {
        assert After(init, a) + [] == After(init, a);
      }
    }
  }

  /** Nothing is later than a cutoff that no entry reaches. */
  lemma {:induction false} AfterNone(ts: seq<int>, cutoff: int)
    requires forall i :: 0 <= i < |ts| ==> ts[i] <= cutoff
    ensures After(ts, cutoff) == []
  {
    if ts != [] {
      AfterNone(ts[..|ts| - 1], cutoff);
    }
  }

  /** Entry i goes to place j, in front of it or in the same place. */
  method MoveDown(a: array<int>, i: nat, j: nat)
    requires j <= i < a.Length
    modifies a
    ensures a[..j + 1] == old(a[..j]) + [old(a[i])]
    ensures forall k :: i < k < a.Length ==> a[k] == old(a[k])
  {
    a[j] := a[i];
  }

  /** Filtering in place: of the first n entries, the later ones move to the front. */
  method Prune(a: array<int>, n: nat, cutoff: int) returns (m: nat)
    requires n <= a.Length
    modifies a
    ensures m <= n && a[..m] == After(old(a[..n]), cutoff)
  {
    ghost var was := a[..n];
    var i := 0;
    m := 0;
    while i < n
      invariant 0 <= m <= i <= n
      invariant a[..m] == After(was[..i], cutoff)
      invariant forall k :: i <= k < n ==> a[k] == was[k]
    {
      AfterSnoc(was[..i], was[i], cutoff);
      assert was[..i + 1] == was[..i] + [was[i]];
      if a[i] > cutoff {
        MoveDown(a, i, m);
        m := m + 1;
      } else {
        assert After(was[..i], cutoff) + [] == After(was[..i], cutoff);
      }
      i := i + 1;
    }
    assert was[..i] == was;
  }

  /** Append behind the first n entries, in a larger array when there is no room. */
  method Append(a: array<int>, n: nat, t: int) returns (b: array<int>)
    requires n <= a.Length
    modifies a
    ensures n < b.Length && b[..n + 1] == old(a[..n]) + [t]
    ensures b == a || fresh(b)
  {
    if n < a.Length {
      b := a;
    } else {
      b := new int[2 * n + 4];
      forall k | 0 <= k < n {
        b[k] := a[k];
      }
    }
    b[n] := t;
  }
}
