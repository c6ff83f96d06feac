/** The mutable AdaptiveCover: samples in a growable array that is compacted in place. */
module AdaptiveObject {
  import opened A = Adaptive

  class AdaptiveCover {
    var buf: array<Sample>
    var len: nat
    var currentLevel: Level
    var pendingLevel: Level
    var pendingSince: Since
    const levels: seq<LevelConfig>

    ghost predicate Valid()
      reads this
    {
      len <= buf.Length
    }

    ghost function View(): Cover
      requires Valid()
      reads this, buf
    {
      Cover(buf[..len], currentLevel, pendingLevel, pendingSince)
    }

    constructor (maxPadding: int)
      ensures Valid() && fresh(buf) && View() == INITIAL && levels == Levels(maxPadding)
    {
      buf := new Sample[600](_ => Sample(0, 0));
      len := 0;
      currentLevel, pendingLevel, pendingSince := IDLE, IDLE, Zero;
      levels := Levels(maxPadding);
    }

    /** Append, with a larger array when the old one is full. */
    method Append(s: Sample)
      requires len <= buf.Length
      modifies this`buf, this`len, buf
      ensures len == old(len) + 1 <= buf.Length && (buf == old(buf) || fresh(buf))
      ensures buf[..len] == old(buf[..len]) + [s]
    {
      if len == buf.Length {
        var bigger := new Sample[2 * len + 1](_ => s);
        forall k | 0 <= k < len {
          bigger[k] := buf[k];
        }
        buf := bigger;
      }
      buf[len] := s;
      len := len + 1;
    }

    method RecordTraffic(bytes: int, now: int)
      requires Valid()
      modifies this, buf
      ensures Valid() && (buf == old(buf) || fresh(buf)) && View() == A.RecordTraffic(old(View()), bytes, now)
    {
      Append(Sample(bytes, now));
      if len > MAX_SAMPLES {
        var half := MAX_SAMPLES / 2;
        var newWindow := new Sample[half](k requires 0 <= k < half && half <= len <= buf.Length reads this, buf => buf[len - half + k]);
        assert newWindow[..] == buf[..len][len - half..];
        buf, len := newWindow, half;
      }
    }

    /** Sample i goes to place j, in front of it or in the same place. */
    method MoveDown(i: nat, j: nat)
      requires j <= i < buf.Length
      modifies buf
      ensures buf[..j + 1] == old(buf[..j]) + [old(buf[i])]
      ensures forall k :: i < k < buf.Length ==> buf[k] == old(buf[k])
    {
      buf[j] := buf[i];
    }

    /** The compaction loop: later samples move to the front of the same array and are added up. */
    method Compact(cutoff: int) returns (total: int)
      requires Valid()
      modifies this`len, buf
      ensures Valid() && buf[..len] == Keep(old(buf[..len]), cutoff)
      ensures total == Sum(Keep(old(buf[..len]), cutoff))
    {
      ghost var was := buf[..len];
      var i, j := 0, 0;
      total := 0;
      while i < len
        invariant 0 <= j <= i <= len == old(len) <= buf.Length
        invariant Compacted(was, i, cutoff, buf[..j], total)
        invariant forall k :: i <= k < len ==> buf[k] == was[k]
      {
        CompactedNext(was, i, cutoff, buf[..j], total);
        if buf[i].at > cutoff {
          total := total + buf[i].bytes;
          MoveDown(i, j);
          j := j + 1;
        }
        i := i + 1;
      }
      assert was[..i] == was;
      KeptBytesIsSum(was, cutoff);
      len := j;
    }

    method Recalculate(now: int)
      requires Valid()
      modifies this, buf
      ensures Valid() && buf == old(buf) && View() == A.Recalculate(old(View()), now)
    {
      var total := Compact(now - WINDOW);
      var proposed: Level := IDLE;
      var k := 0;
      while k < 4
        invariant 0 <= k <= 4 && proposed == LastMet(total, k)
      {
        if total >= THRESHOLDS[k] {
          proposed := k;
        }
        k := k + 1;
      }
      if proposed == currentLevel {
        pendingLevel, pendingSince := currentLevel, Zero;
        return;
      }
      if proposed != pendingLevel {
        pendingLevel, pendingSince := proposed, At(now);
        return;
      }
      if pendingSince == Zero {
        pendingSince := At(now);
        return;
      }
      if now - pendingSince.time < HYSTERESIS {
        return;
      }
      currentLevel, pendingLevel, pendingSince := proposed, proposed, Zero;
    }

    method GetCurrentConfig() returns (cfg: LevelConfig)
      requires levels != []
      ensures cfg == FindConfig(levels, currentLevel, 0)
    {
      var k := 0;
      while k < |levels|
        invariant 0 <= k <= |levels|
        invariant FindConfig(levels, currentLevel, 0) == FindConfig(levels, currentLevel, k)
      {
        if levels[k].level == currentLevel {
          return levels[k];
        }
        k := k + 1;
      }
      return levels[0];
    }
  }

  /** What the compaction loop has after i samples: those to keep, and their bytes. */
  ghost predicate Compacted(was: seq<Sample>, i: nat, cutoff: int, kept: seq<Sample>, total: int) {
    i <= |was| && kept == Keep(was[..i], cutoff) && total == KeptBytes(was[..i], cutoff)
  }

  lemma CompactedNext(was: seq<Sample>, i: nat, cutoff: int, kept: seq<Sample>, total: int)
    requires Compacted(was, i, cutoff, kept, total) && i < |was|
    ensures if was[i].at > cutoff then Compacted(was, i + 1, cutoff, kept + [was[i]], total + was[i].bytes)
            else Compacted(was, i + 1, cutoff, kept, total)
  {
    KeptSnoc(was[..i], was[i], cutoff);
    assert was[..i + 1] == was[..i] + [was[i]];
  }
}
