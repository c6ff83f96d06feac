/** Adaptive cover traffic: the traffic of the last minute proposes a level, and a level must last to be taken. */
module Adaptive {

  const SECOND: int := 1_000_000_000
  const WINDOW: int := 60 * SECOND
  const HYSTERESIS: int := 30 * SECOND
  const MAX_SAMPLES: nat := 10000

  type Level = n: nat | n < 4
  const IDLE: Level := 0

  /** The bytes per minute at which each level begins. */
  const THRESHOLDS: seq<int> := [0, 50_000, 500_000, 5_000_000]

  datatype Sample = Sample(bytes: int, at: int)

  datatype Since = Zero | At(time: int)

  datatype Cover = Cover(samples: seq<Sample>, current: Level, pendingLevel: Level, pendingSince: Since)

  const INITIAL := Cover([], IDLE, IDLE, Zero)

  /** The samples later than the cutoff, in order. */
  function Keep(samples: seq<Sample>, cutoff: int): seq<Sample> {
    if samples == [] then []
    else Keep(samples[..|samples| - 1], cutoff) + if samples[|samples| - 1].at > cutoff then [samples[|samples| - 1]] else []
  }

  function Sum(samples: seq<Sample>): int {
    if samples == [] then 0 else Sum(samples[..|samples| - 1]) + samples[|samples| - 1].bytes
  }

  function RecordTraffic(c: Cover, bytes: int, now: int): Cover {
    var all := c.samples + [Sample(bytes, now)];
    c.(samples := if |all| > MAX_SAMPLES then all[|all| - MAX_SAMPLES / 2..] else all)
  }

  /** The loop over the first k levels: the last one whose threshold is met, else idle. */
  function LastMet(total: int, k: nat): Level
    requires k <= 4
  {
    if k == 0 then IDLE
    else if total >= THRESHOLDS[k - 1] then k - 1
    else LastMet(total, k - 1)
  }

  function Proposed(total: int): Level {
    LastMet(total, 4)
  }

  /** The state machine after the window was compacted. */
  function Decide(c: Cover, proposed: Level, now: int): Cover {
    if proposed == c.current then c.(pendingLevel := c.current, pendingSince := Zero)
    else if proposed != c.pendingLevel then c.(pendingLevel := proposed, pendingSince := At(now))
    else if c.pendingSince.Zero? then c.(pendingSince := At(now))
    else if now - c.pendingSince.time < HYSTERESIS then c
    else c.(current := proposed, pendingLevel := proposed, pendingSince := Zero)
  }

  function Total(c: Cover, now: int): int {
    Sum(Keep(c.samples, now - WINDOW))
  }

  function Recalculate(c: Cover, now: int): Cover {
    Decide(c.(samples := Keep(c.samples, now - WINDOW)), Proposed(Total(c, now)), now)
  }

  // ---------- the proposed level ----------

  /** The proposed level is the highest whose threshold is met, or idle when none is. */
  lemma ProposedIsHighest(total: int)
    ensures var level := Proposed(total);
            && (level > IDLE ==> total >= THRESHOLDS[level])
            && (forall k :: level < k < 4 ==> total < THRESHOLDS[k])
  {
    assert LastMet(total, 4) == (if total >= 5_000_000 then 3 else LastMet(total, 3));
    assert LastMet(total, 3) == (if total >= 500_000 then 2 else LastMet(total, 2));
    assert LastMet(total, 2) == (if total >= 50_000 then 1 else LastMet(total, 1));
    assert LastMet(total, 1) == 0;
  }

  // ---------- runs ----------

  const MINUTE: int := 60_000_000_000

  datatype Event = Traffic(bytes: int, at: int) | Tick(at: int)

  /** A recalculation: when, what it proposed, and the level before and after. */
  datatype Rec = Rec(at: int, proposed: Level, before: Level, after: Level)

  /**
   A cover with its history: every sample ever recorded, how many of the first ones are
   known to be gone by truncation, every recalculation, the one that started the present
   proposal, and the last one that changed the level.
   */
  datatype Tracked = Tracked(
    c: Cover, hist: seq<Sample>, truncated: nat, cutoff: int, recs: seq<Rec>, pendingFrom: nat, lastChange: int, now: int)

  function Start(at: int): Tracked {
    Tracked(INITIAL, [], 0, at - MINUTE, [], 0, -1, at)
  }

  function StepTraffic(t: Tracked, bytes: int, at: int): Tracked {
    var c := RecordTraffic(t.c, bytes, at);
    var hist := t.hist + [Sample(bytes, at)];
    t.(c := c, hist := hist, now := at,
       truncated := if |t.c.samples| + 1 > 10_000 && |hist| >= 5_000 then |hist| - 5_000 else t.truncated)
  }

  function StepTick(t: Tracked, at: int): Tracked {
    var proposed := Proposed(Total(t.c, at));
    var c := Recalculate(t.c, at);
    t.(c := c, now := at, cutoff := at - MINUTE,
       recs := t.recs + [Rec(at, proposed, t.c.current, c.current)],
       pendingFrom := if proposed != t.c.current && proposed != t.c.pendingLevel then |t.recs| else t.pendingFrom,
       lastChange := if c.current != t.c.current then |t.recs| else t.lastChange)
  }

  /** Events come in the order of the clock. */
  function Step(t: Tracked, e: Event): Tracked {
    if e.at < t.now then t
    else match e
      case Traffic(bytes, at) => StepTraffic(t, bytes, at)
      case Tick(at) => StepTick(t, at)
  }

  function Run(at: int, events: seq<Event>): Tracked {
    if events == [] then Start(at) else Step(Run(at, events[..|events| - 1]), events[|events| - 1])
  }

  // ---------- the window ----------

  ghost predicate Sorted(samples: seq<Sample>) {
    forall i, j :: 0 <= i < j < |samples| ==> samples[i].at <= samples[j].at
  }

  lemma KeepSnoc(samples: seq<Sample>, s: Sample, cutoff: int)
    ensures Keep(samples + [s], cutoff) == Keep(samples, cutoff) + if s.at > cutoff then [s] else []
  {
    assert (samples + [s])[..|samples|] == samples;
  }

  lemma {:induction false} KeepConcat(a: seq<Sample>, b: seq<Sample>, cutoff: int)
    ensures Keep(a + b, cutoff) == Keep(a, cutoff) + Keep(b, cutoff)
  {
    if b == [] {
      assert a + b == a;
    } else {
      var init, s := b[..|b| - 1], b[|b| - 1];
      KeepConcat(a, init, cutoff);
      KeepSnoc(a + init, s, cutoff);
      assert a + b == (a + init) + [s];
    }
  }

  /** The bytes of the samples that are kept, added up in one pass. */
  function KeptBytes(samples: seq<Sample>, cutoff: int): int {
    if samples == [] then 0
    else
      var s := samples[|samples| - 1];
      KeptBytes(samples[..|samples| - 1], cutoff) + if s.at > cutoff then s.bytes else 0
  }

  lemma {:induction false} KeptBytesIsSum(samples: seq<Sample>, cutoff: int)
    ensures KeptBytes(samples, cutoff) == Sum(Keep(samples, cutoff))
  {
    if samples != [] {
      var init, s := samples[..|samples| - 1], samples[|samples| - 1];
      KeptBytesIsSum(init, cutoff);
      var kept := Keep(init, cutoff);
      assert (kept + [s])[..|kept|] == kept && kept + [] == kept;
    }
  }

  lemma KeptSnoc(samples: seq<Sample>, s: Sample, cutoff: int)
    ensures Keep(samples + [s], cutoff) == if s.at > cutoff then Keep(samples, cutoff) + [s] else Keep(samples, cutoff)
    ensures KeptBytes(samples + [s], cutoff) == KeptBytes(samples, cutoff) + if s.at > cutoff then s.bytes else 0
  {
    KeepSnoc(samples, s, cutoff);
    assert (samples + [s])[..|samples|] == samples;
    assert Keep(samples, cutoff) + [] == Keep(samples, cutoff);
  }

  lemma {:induction false} SumConcat(a: seq<Sample>, b: seq<Sample>)
    ensures Sum(a + b) == Sum(a) + Sum(b)
  {
    if b == [] {
      assert a + b == a;
    } else {
      SumConcat(a, b[..|b| - 1]);
      assert (a + b)[..|a + b| - 1] == a + b[..|b| - 1];
    }
  }

  lemma {:induction false} KeepNone(samples: seq<Sample>, cutoff: int)
    requires forall i :: 0 <= i < |samples| ==> samples[i].at <= cutoff
    ensures Keep(samples, cutoff) == []
  {
    if samples != [] {
      KeepNone(samples[..|samples| - 1], cutoff);
    }
  }

  /** What is kept of sorted samples is their end. */
  lemma {:induction false} KeepIsSuffix(samples: seq<Sample>, cutoff: int)
    requires Sorted(samples)
    ensures var k := |samples| - |Keep(samples, cutoff)|;
            && 0 <= k && Keep(samples, cutoff) == samples[k..]
            && (forall i :: 0 <= i < k ==> samples[i].at <= cutoff)
  {
    if samples != [] {
      var init, s := samples[..|samples| - 1], samples[|samples| - 1];
      if s.at <= cutoff {
        KeepNone(samples, cutoff);
      } else {
        KeepIsSuffix(init, cutoff);
        KeepSnoc(init, s, cutoff);
        SuffixSnoc(init, s, Keep(init, cutoff));
        assert samples == init + [s];
      }
    }
  }

  lemma SuffixSnoc(samples: seq<Sample>, s: Sample, kept: seq<Sample>)
    requires |kept| <= |samples| && kept == samples[|samples| - |kept|..]
    ensures kept + [s] == (samples + [s])[|samples| - |kept|..]
  {
  }

  /**
   The samples are the end of everything recorded. What is missing was either truncated,
   or too old at the last recalculation.
   */
  ghost predicate WindowOk(hist: seq<Sample>, samples: seq<Sample>, truncated: nat, now: int, cutoff: int) {
    && |samples| <= |hist| && samples == hist[|hist| - |samples|..]
    && truncated <= |hist| - |samples|
    && Sorted(hist) && (forall i :: 0 <= i < |hist| ==> hist[i].at <= now)
    && cutoff <= now - MINUTE
    && (forall i :: truncated <= i < |hist| - |samples| ==> hist[i].at <= cutoff)
  }

  ghost predicate WindowInv(t: Tracked) {
    WindowOk(t.hist, t.c.samples, t.truncated, t.now, t.cutoff)
  }

  lemma TrafficKeepsWindow(t: Tracked, bytes: int, at: int)
    requires WindowInv(t) && t.now <= at
    ensures WindowInv(StepTraffic(t, bytes, at))
  {
    var t', s := StepTraffic(t, bytes, at), Sample(bytes, at);
    RecordedSuffix(t.c, t.hist, bytes, at);
    SortedSnoc(t.hist, s, t.now);
    var k := |t.hist| - |t.c.samples|;
    assert forall i :: t.truncated <= i < k ==> t'.hist[i] == t.hist[i];
  }

  /** The window stays a suffix of the history when a sample is recorded, truncated or not. */
  lemma RecordedSuffix(c: Cover, hist: seq<Sample>, bytes: int, at: int)
    requires |c.samples| <= |hist| && c.samples == hist[|hist| - |c.samples|..]
    ensures var c', hist' := RecordTraffic(c, bytes, at), hist + [Sample(bytes, at)];
            |c'.samples| <= |hist'| && c'.samples == hist'[|hist'| - |c'.samples|..]
  {
    var s := Sample(bytes, at);
    SuffixSnoc(hist, s, c.samples);
    if |c.samples| + 1 > MAX_SAMPLES {
      SuffixOfSuffix(hist + [s], |hist| - |c.samples|, |c.samples| + 1 - MAX_SAMPLES / 2);
    }
  }

  lemma SortedSnoc(hist: seq<Sample>, s: Sample, now: int)
    requires Sorted(hist) && (forall i :: 0 <= i < |hist| ==> hist[i].at <= now) && now <= s.at
    ensures Sorted(hist + [s]) && forall i :: 0 <= i < |hist| + 1 ==> (hist + [s])[i].at <= s.at
  {
  }

  lemma SuffixOfSuffix(samples: seq<Sample>, k: nat, m: nat)
    requires k + m <= |samples|
    ensures samples[k..][m..] == samples[k + m..]
  {
  }

  lemma RecalculateSamples(c: Cover, now: int)
    ensures Recalculate(c, now).samples == Keep(c.samples, now - MINUTE)
  {
  }

  /** Compacting a suffix of sorted samples leaves a suffix, and takes out only old ones. */
  lemma CompactSuffix(hist: seq<Sample>, k: nat, cutoff: int)
    requires Sorted(hist) && k <= |hist|
    ensures var kept := Keep(hist[k..], cutoff);
            && |kept| <= |hist| - k && kept == hist[|hist| - |kept|..]
            && (forall i :: k <= i < |hist| - |kept| ==> hist[i].at <= cutoff)
  {
    var samples := hist[k..];
    assert Sorted(samples);
    KeepIsSuffix(samples, cutoff);
    var m := |samples| - |Keep(samples, cutoff)|;
    assert samples[m..] == hist[k + m..];
    forall i | k <= i < k + m ensures hist[i].at <= cutoff {
      assert hist[i] == samples[i - k];
    }
  }

  /** What a tick does to the window. */
  lemma TickWindow(t: Tracked, at: int)
    ensures var t' := StepTick(t, at);
            && t'.hist == t.hist && t'.truncated == t.truncated && t'.now == at && t'.cutoff == at - MINUTE
            && t'.c.samples == Keep(t.c.samples, at - MINUTE)
  {
    RecalculateSamples(t.c, at);
  }

  lemma TickKeepsWindow(t: Tracked, at: int)
    requires WindowInv(t) && t.now <= at
    ensures WindowInv(StepTick(t, at))
  {
    TickWindow(t, at);
    CompactKeeps(t.hist, t.c.samples, t.truncated, t.now, t.cutoff, at);
  }

  lemma CompactKeeps(hist: seq<Sample>, samples: seq<Sample>, truncated: nat, now: int, cutoff: int, at: int)
    requires WindowOk(hist, samples, truncated, now, cutoff) && now <= at
    ensures WindowOk(hist, Keep(samples, at - MINUTE), truncated, at, at - MINUTE)
  {
    CompactSuffix(hist, |hist| - |samples|, at - MINUTE);
  }

  lemma {:induction false} RunWindow(at: int, events: seq<Event>)
    ensures WindowInv(Run(at, events))
  {
    if events != [] {
      RunWindow(at, events[..|events| - 1]);
      var t, e := Run(at, events[..|events| - 1]), events[|events| - 1];
      if e.at >= t.now {
        if e.Traffic? {
          TrafficKeepsWindow(t, e.bytes, e.at);
        } else {
          TickKeepsWindow(t, e.at);
        }
      }
    }
  }

  lemma {:induction false} KeepShorter(samples: seq<Sample>, cutoff: int)
    ensures |Keep(samples, cutoff)| <= |samples|
  {
    if samples != [] {
      KeepShorter(samples[..|samples| - 1], cutoff);
    }
  }

  /** The window never holds more than the maximum. */
  lemma {:induction false} SamplesBounded(at: int, events: seq<Event>)
    ensures |Run(at, events).c.samples| <= 10_000
  {
    if events != [] {
      SamplesBounded(at, events[..|events| - 1]);
      var t, e := Run(at, events[..|events| - 1]), events[|events| - 1];
      if e.at >= t.now && e.Tick? {
        RecalculateSamples(t.c, e.at);
        KeepShorter(t.c.samples, e.at - MINUTE);
      }
    }
  }

  /** The bytes of truncated samples that a recalculation at `now` should have counted. */
  function Lost(t: Tracked, now: int): int
    requires t.truncated <= |t.hist|
  {
    Sum(Keep(t.hist[..t.truncated], now - MINUTE))
  }

  /** Nothing was truncated, or the newest truncated sample is out of the window. */
  predicate NothingLost(t: Tracked, now: int)
    requires t.truncated <= |t.hist|
  {
    t.truncated == 0 || t.hist[t.truncated - 1].at <= now - MINUTE
  }

  /**
   The total of a recalculation is the full-history sum over the last minute, less the
   truncated samples that were still in the window. For sizes that are not negative it never
   exceeds that sum; for positive sizes it is that sum if and only if nothing was truncated
   or the newest truncated sample is out of the window.
   */
  lemma {:induction false} TotalIsWindowSum(at: int, events: seq<Event>, now: int)
    requires Run(at, events).now <= now
    ensures var t := Run(at, events);
            var full := Sum(Keep(t.hist, now - MINUTE));
            && t.truncated <= |t.hist|
            && Total(t.c, now) == full - Lost(t, now)
            && (NothingLost(t, now) ==> Total(t.c, now) == full)
            && (AtLeast(t.hist, 0) ==> Total(t.c, now) <= full)
            && (AtLeast(t.hist, 1) ==> (Total(t.c, now) == full <==> NothingLost(t, now)))
  {
    RunWindow(at, events);
    TotalIsSum(Run(at, events), now);
  }

  lemma {:induction false} TotalIsSum(t: Tracked, now: int)
    requires WindowInv(t) && t.now <= now
    ensures var full := Sum(Keep(t.hist, now - MINUTE));
            && Total(t.c, now) == full - Lost(t, now)
            && (NothingLost(t, now) ==> Total(t.c, now) == full)
            && (AtLeast(t.hist, 0) ==> Total(t.c, now) <= full)
            && (AtLeast(t.hist, 1) ==> (Total(t.c, now) == full <==> NothingLost(t, now)))
  {
    LostSize(t, now);
    TotalLess(t, now);
  }

  lemma {:induction false} TotalLess(t: Tracked, now: int)
    requires WindowInv(t) && t.now <= now
    ensures Total(t.c, now) == Sum(Keep(t.hist, now - MINUTE)) - Lost(t, now)
  {
    SplitHistory(t, now - MINUTE);
  }

  /** Every sample has at least n bytes. */
  ghost predicate AtLeast(samples: seq<Sample>, n: int) {
    forall i :: 0 <= i < |samples| ==> samples[i].bytes >= n
  }

  lemma PrefixOf(samples: seq<Sample>, k: nat)
    requires k <= |samples|
    ensures Sorted(samples) ==> Sorted(samples[..k])
    ensures forall n :: AtLeast(samples, n) ==> AtLeast(samples[..k], n)
  {
  }

  lemma LostSize(t: Tracked, now: int)
    requires Sorted(t.hist) && t.truncated <= |t.hist|
    ensures NothingLost(t, now) ==> Lost(t, now) == 0
    ensures AtLeast(t.hist, 0) ==> Lost(t, now) >= 0
    ensures AtLeast(t.hist, 1) ==> (Lost(t, now) == 0 <==> NothingLost(t, now))
  {
    PrefixOf(t.hist, t.truncated);
    GoneSize(t.hist[..t.truncated], now - MINUTE);
  }

  /** The bytes in the window of sorted samples: none when the newest is too old, and some when it is not. */
  lemma GoneSize(samples: seq<Sample>, cutoff: int)
    requires Sorted(samples)
    ensures samples == [] || samples[|samples| - 1].at <= cutoff ==> Sum(Keep(samples, cutoff)) == 0
    ensures AtLeast(samples, 0) ==> Sum(Keep(samples, cutoff)) >= 0
    ensures samples != [] && samples[|samples| - 1].at > cutoff && AtLeast(samples, 1) ==> Sum(Keep(samples, cutoff)) > 0
  {
    if samples == [] || samples[|samples| - 1].at <= cutoff {
      KeepNone(samples, cutoff);
    } else if AtLeast(samples, 1) {
      LastIsKept(samples, cutoff);
    }
    if AtLeast(samples, 0) {
      KeepSumNonNegative(samples, cutoff);
    }
  }

  /** A newest sample that is in the window counts, and the others take nothing away. */
  lemma LastIsKept(samples: seq<Sample>, cutoff: int)
    requires samples != [] && samples[|samples| - 1].at > cutoff && AtLeast(samples, 1)
    ensures Sum(Keep(samples, cutoff)) > 0
  {
    var init, s := samples[..|samples| - 1], samples[|samples| - 1];
    KeepSumNonNegative(init, cutoff);
    SumConcat(Keep(init, cutoff), [s]);
    assert Sum([s]) == Sum([]) + s.bytes;
  }

  lemma SplitHistory(t: Tracked, cutoff: int)
    requires WindowInv(t) && t.cutoff <= cutoff
    ensures Sum(Keep(t.hist, cutoff)) == Sum(Keep(t.hist[..t.truncated], cutoff)) + Sum(Keep(t.c.samples, cutoff))
  {
    var k := |t.hist| - |t.c.samples|;
    var gone, aged := t.hist[..t.truncated], t.hist[t.truncated..k];
    assert t.hist == gone + aged + t.c.samples;
    SumInThree(gone, aged, t.c.samples, cutoff);
  }

  lemma SumInThree(gone: seq<Sample>, aged: seq<Sample>, samples: seq<Sample>, cutoff: int)
    requires forall i :: 0 <= i < |aged| ==> aged[i].at <= cutoff
    ensures Sum(Keep(gone + aged + samples, cutoff)) == Sum(Keep(gone, cutoff)) + Sum(Keep(samples, cutoff))
  {
    KeepConcat(gone + aged, samples, cutoff);
    KeepConcat(gone, aged, cutoff);
    KeepNone(aged, cutoff);
    assert Keep(gone, cutoff) + [] == Keep(gone, cutoff);
    SumConcat(Keep(gone, cutoff), Keep(samples, cutoff));
  }

  lemma {:induction false} KeepSumNonNegative(samples: seq<Sample>, cutoff: int)
    requires AtLeast(samples, 0)
    ensures Sum(Keep(samples, cutoff)) >= 0
  {
    if samples != [] {
      var init, s := samples[..|samples| - 1], samples[|samples| - 1];
      KeepSumNonNegative(init, cutoff);
      if s.at > cutoff {
        SumConcat(Keep(init, cutoff), [s]);
        assert Sum([s]) == Sum([]) + s.bytes;
      } else {
        assert Keep(init, cutoff) + [] == Keep(init, cutoff);
      }
    }
  }

  // ---------- hysteresis ----------

  predicate Changes(recs: seq<Rec>, k: nat)
    requires k < |recs|
  {
    recs[k].after != recs[k].before
  }

  /** From j on, every recalculation up to k proposes the level that k takes, and none before k changes the level. */
  ghost predicate Steady(recs: seq<Rec>, j: nat, k: nat)
    requires j <= k < |recs|
  {
    && (forall i :: j <= i <= k ==> recs[i].proposed == recs[k].after)
    && (forall i :: j <= i < k ==> !Changes(recs, i))
  }

  /** A change is preceded by an unbroken run of the same proposal that began 30 s earlier. */
  ghost predicate Justified(recs: seq<Rec>, k: nat)
    requires k < |recs|
  {
    exists j :: 0 <= j < k && Steady(recs, j, k) && recs[j].at <= recs[k].at - MINUTE / 2
  }

  ghost predicate AllJustified(recs: seq<Rec>) {
    forall k :: 0 <= k < |recs| && Changes(recs, k) ==> Justified(recs, k)
  }

  ghost predicate RecsSorted(recs: seq<Rec>, now: int) {
    && (forall i, j :: 0 <= i < j < |recs| ==> recs[i].at <= recs[j].at)
    && (forall i :: 0 <= i < |recs| ==> recs[i].at <= now)
  }

  /** The proposal that is pending has stood, unchanged, since the recalculation that made it. */
  ghost predicate PendingInv(c: Cover, recs: seq<Rec>, from: nat) {
    match c.pendingSince
    case Zero => c.pendingLevel == c.current
    case At(s) =>
      && c.pendingLevel != c.current && from < |recs| && recs[from].at == s
      && (forall i :: from <= i < |recs| ==> recs[i].proposed == c.pendingLevel)
      && (forall i :: from <= i < |recs| ==> !Changes(recs, i))
  }

  /** Changes are at least 30 s apart. */
  ghost predicate FarApart(recs: seq<Rec>) {
    forall i, j :: 0 <= i < j < |recs| && Changes(recs, i) && Changes(recs, j) ==> recs[j].at - recs[i].at >= MINUTE / 2
  }

  ghost predicate HysteresisInv(t: Tracked) {
    RecsSorted(t.recs, t.now) && AllJustified(t.recs) && FarApart(t.recs) && PendingInv(t.c, t.recs, t.pendingFrom)
  }

  lemma DecideHysteresis(c: Cover, recs: seq<Rec>, from: nat, proposed: Level, now: int)
    requires PendingInv(c, recs, from) && RecsSorted(recs, now)
    ensures var c' := Decide(c, proposed, now);
            var rec := Rec(now, proposed, c.current, c'.current);
            var from' := if proposed != c.current && proposed != c.pendingLevel then |recs| else from;
            && PendingInv(c', recs + [rec], from')
            && (rec.after != rec.before ==>
                  && rec.after == proposed && c.pendingSince.At? && from < |recs|
                  && recs[from].at <= now - MINUTE / 2
                  && (forall i :: from <= i < |recs| ==> recs[i].proposed == proposed && !Changes(recs, i)))
  {
    var c' := Decide(c, proposed, now);
    var recs' := recs + [Rec(now, proposed, c.current, c'.current)];
    assert forall i :: 0 <= i < |recs| ==> recs'[i] == recs[i] && Changes(recs', i) == Changes(recs, i);
  }

  /** The branch that restarts a proposal whose start was lost is never taken. */
  lemma ZeroBranchUnreachable(at: int, events: seq<Event>, proposed: Level)
    ensures var c := Run(at, events).c;
            !(proposed != c.current && proposed == c.pendingLevel && c.pendingSince.Zero?)
  {
    RunHysteresis(at, events);
  }

  /** Adding a recalculation leaves what is known of the earlier ones. */
  lemma RecsSnoc(recs: seq<Rec>, rec: Rec)
    requires AllJustified(recs)
    ensures forall k :: 0 <= k < |recs| && Changes(recs + [rec], k) ==> Justified(recs + [rec], k)
  {
    var recs' := recs + [rec];
    assert forall i :: 0 <= i < |recs| ==> recs'[i] == recs[i] && Changes(recs', i) == Changes(recs, i);
    forall k | 0 <= k < |recs| && Changes(recs', k) ensures Justified(recs', k) {
      var j :| 0 <= j < k && Steady(recs, j, k) && recs[j].at <= recs[k].at - MINUTE / 2;
      assert Steady(recs', j, k);
    }
  }

  lemma ChangeIsJustified(recs: seq<Rec>, rec: Rec, from: nat)
    requires from < |recs| && recs[from].at <= rec.at - MINUTE / 2
    requires forall i :: from <= i < |recs| ==> recs[i].proposed == rec.proposed && !Changes(recs, i)
    requires rec.after == rec.proposed
    ensures Justified(recs + [rec], |recs|)
  {
    var recs' := recs + [rec];
    assert forall i :: 0 <= i < |recs| ==> recs'[i] == recs[i] && Changes(recs', i) == Changes(recs, i);
    assert Steady(recs', from, |recs|);
  }

  lemma FarApartSnoc(recs: seq<Rec>, rec: Rec, from: nat, now: int)
    requires FarApart(recs) && RecsSorted(recs, now) && rec.at >= now
    requires rec.after != rec.before ==>
               && from < |recs| && recs[from].at <= rec.at - MINUTE / 2
               && (forall i :: from <= i < |recs| ==> !Changes(recs, i))
    ensures FarApart(recs + [rec]) && RecsSorted(recs + [rec], rec.at)
  {
    var recs' := recs + [rec];
    assert forall i :: 0 <= i < |recs| ==> recs'[i] == recs[i] && Changes(recs', i) == Changes(recs, i);
    forall i, j | 0 <= i < j < |recs'| && Changes(recs', i) && Changes(recs', j)
      ensures recs'[j].at - recs'[i].at >= MINUTE / 2
    {
      if j == |recs| {
        assert i < from;
        assert recs[i].at <= recs[from].at;
      }
    }
  }

  lemma RecalculateIs(c: Cover, now: int)
    ensures var c' := Recalculate(c, now);
            var d := Decide(c, Proposed(Total(c, now)), now);
            c'.current == d.current && c'.pendingLevel == d.pendingLevel && c'.pendingSince == d.pendingSince
  {
  }

  lemma TickKeepsHysteresis(t: Tracked, at: int)
    requires HysteresisInv(t) && t.now <= at
    ensures HysteresisInv(StepTick(t, at))
  {
    var t' := StepTick(t, at);
    var proposed := Proposed(Total(t.c, at));
    var rec := Rec(at, proposed, t.c.current, t'.c.current);
    RecalculateIs(t.c, at);
    DecideHysteresis(t.c, t.recs, t.pendingFrom, proposed, at);
    RecsSnoc(t.recs, rec);
    FarApartSnoc(t.recs, rec, t.pendingFrom, t.now);
    if rec.after != rec.before {
      ChangeIsJustified(t.recs, rec, t.pendingFrom);
    }
  }

  lemma {:induction false} RunHysteresis(at: int, events: seq<Event>)
    ensures HysteresisInv(Run(at, events))
  {
    if events != [] {
      RunHysteresis(at, events[..|events| - 1]);
      var t, e := Run(at, events[..|events| - 1]), events[|events| - 1];
      if e.at >= t.now && e.Tick? {
        TickKeepsHysteresis(t, e.at);
      }
    }
  }

  /**
   Every change of level was proposed without a break for at least 30 s, and two changes
   are at least 30 s apart.
   */
  lemma Hysteresis(at: int, events: seq<Event>)
    ensures var recs := Run(at, events).recs; AllJustified(recs) && FarApart(recs)
  {
    RunHysteresis(at, events);
  }

  // ---------- a sustained proposal is taken ----------

  /** From j to the end, every recalculation proposes `level` and none changes the level. */
  ghost predicate Stands(recs: seq<Rec>, j: nat, level: Level) {
    forall i :: j <= i < |recs| ==> recs[i].proposed == level && !Changes(recs, i)
  }

  /** A proposal for another level that stands is the pending one, from its first recalculation on. */
  ghost predicate SustainedInv(c: Cover, recs: seq<Rec>, from: nat) {
    recs != [] && recs[|recs| - 1].proposed != c.current ==>
      var level := recs[|recs| - 1].proposed;
      && c.pendingLevel == level && c.pendingSince.At?
      && forall j :: 0 <= j < |recs| && Stands(recs, j, level) ==> from <= j
  }

  lemma DecideSustained(c: Cover, recs: seq<Rec>, from: nat, proposed: Level, now: int)
    requires PendingInv(c, recs, from) && SustainedInv(c, recs, from)
    ensures var c' := Decide(c, proposed, now);
            var rec := Rec(now, proposed, c.current, c'.current);
            var from' := if proposed != c.current && proposed != c.pendingLevel then |recs| else from;
            SustainedInv(c', recs + [rec], from')
  {
    var c' := Decide(c, proposed, now);
    var recs' := recs + [Rec(now, proposed, c.current, c'.current)];
    if proposed != c'.current {
      forall j | 0 <= j < |recs| && Stands(recs', j, proposed)
        ensures Stands(recs, j, proposed)
      {
        forall i | j <= i < |recs| ensures recs[i].proposed == proposed && !Changes(recs, i) {
          assert recs'[i] == recs[i] && !Changes(recs', i);
        }
      }
    }
  }

  lemma {:induction false} RunSustained(at: int, events: seq<Event>)
    ensures var t := Run(at, events); SustainedInv(t.c, t.recs, t.pendingFrom)
  {
    if events != [] {
      RunSustained(at, events[..|events| - 1]);
      RunHysteresis(at, events[..|events| - 1]);
      var t, e := Run(at, events[..|events| - 1]), events[|events| - 1];
      if e.at >= t.now {
        if e.Tick? {
          RecalculateIs(t.c, e.at);
          DecideSustained(t.c, t.recs, t.pendingFrom, Proposed(Total(t.c, e.at)), e.at);
        } else {
          TrafficKeepsLevels(t, e.bytes, e.at);
        }
      }
    }
  }

  lemma TrafficKeepsLevels(t: Tracked, bytes: int, at: int)
    ensures var t' := StepTraffic(t, bytes, at);
            && t'.recs == t.recs && t'.pendingFrom == t.pendingFrom
            && t'.c == t.c.(samples := t'.c.samples)
  {
  }

  /**
   A recalculation that proposes another level changes to it exactly when that proposal
   has stood, without a break, since a recalculation at least 30 s ago.
   */
  lemma ChangesExactlyWhenSustained(at: int, events: seq<Event>, now: int)
    requires Run(at, events).now <= now
    ensures var t := Run(at, events);
            var proposed := Proposed(Total(t.c, now));
            proposed != t.c.current ==>
              (Recalculate(t.c, now).current == proposed <==>
               exists j :: 0 <= j < |t.recs| && Stands(t.recs, j, proposed) && t.recs[j].at <= now - MINUTE / 2)
  {
    var t := Run(at, events);
    var proposed := Proposed(Total(t.c, now));
    RunHysteresis(at, events);
    RunSustained(at, events);
    RecalculateIs(t.c, now);
    if proposed != t.c.current {
      DecideExactly(t.c, t.recs, t.pendingFrom, proposed, now);
    }
  }

  lemma DecideExactly(c: Cover, recs: seq<Rec>, from: nat, proposed: Level, now: int)
    requires PendingInv(c, recs, from) && SustainedInv(c, recs, from) && RecsSorted(recs, now)
    requires proposed != c.current
    ensures Decide(c, proposed, now).current == proposed <==>
            exists j :: 0 <= j < |recs| && Stands(recs, j, proposed) && recs[j].at <= now - MINUTE / 2
  {
    if Decide(c, proposed, now).current == proposed {
      assert Stands(recs, from, proposed);
    }
    if j :| 0 <= j < |recs| && Stands(recs, j, proposed) && recs[j].at <= now - MINUTE / 2 {
      var last := |recs| - 1;
      assert recs[last].proposed == proposed;
      assert from <= j;
    }
  }

  // ---------- the configuration in force ----------

  datatype LevelConfig = LevelConfig(
    level: Level, minBytes: int, coverRate: nat, maxPadding: int, activeDomains: nat, coverMin: int, coverMax: int)

  function CapPadding(desired: int, max: int): int {
    if desired > max then max else desired
  }

  function Levels(maxPadding: int): seq<LevelConfig> {
    [LevelConfig(0, 0, 3, CapPadding(128, maxPadding), 2, 15 * SECOND, 30 * SECOND),
     LevelConfig(1, 50_000, 8, CapPadding(256, maxPadding), 3, 6 * SECOND, 12 * SECOND),
     LevelConfig(2, 500_000, 15, CapPadding(512, maxPadding), 4, 3 * SECOND, 8 * SECOND),
     LevelConfig(3, 5_000_000, 20, CapPadding(1024, maxPadding), 6, 2 * SECOND, 6 * SECOND)]
  }

  /** GetCurrentConfig: the first configuration whose level is the current one, else the first of all. */
  function FindConfig(levels: seq<LevelConfig>, current: Level, k: nat): LevelConfig
    requires k <= |levels| && levels != []
    decreases |levels| - k
  {
    if k == |levels| then levels[0]
    else if levels[k].level == current then levels[k]
    else FindConfig(levels, current, k + 1)
  }

  /**
   Every level has its own configuration: threshold, rates and intervals of that level, and
   its padding cut to the mode's cap.
   */
  lemma ConfigOfLevel(current: Level, maxPadding: int)
    ensures var cfg := FindConfig(Levels(maxPadding), current, 0);
            && cfg.level == current && cfg.minBytes == [0, 50_000, 500_000, 5_000_000][current] == THRESHOLDS[current]
            && cfg.coverRate == [3, 8, 15, 20][current] && cfg.activeDomains == [2, 3, 4, 6][current]
            && cfg.maxPadding <= maxPadding && cfg.maxPadding <= [128, 256, 512, 1024][current]
            && (cfg.maxPadding == maxPadding || cfg.maxPadding == [128, 256, 512, 1024][current])
            && cfg.coverMin == [15, 6, 3, 2][current] * 1_000_000_000
            && cfg.coverMax == [30, 12, 8, 6][current] * 1_000_000_000
  {
    var levels := Levels(maxPadding);
    assert forall k :: 0 <= k < 4 ==> levels[k].level == k;
    assert FindConfig(levels, current, 3) == levels[if current == 3 then 3 else 0];
    assert current <= 2 ==> FindConfig(levels, current, 2) == (if current == 2 then levels[2] else FindConfig(levels, current, 3));
    assert FindConfig(levels, current, 1) == (if current == 1 then levels[1] else FindConfig(levels, current, 2));
  }
}
