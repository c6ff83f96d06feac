/** The handshake rate limiter of the Grouk listener. */
module RateLimiter {
  import opened TimeWindow

  const DEFAULT_MAX_RATE: nat := 10
  const DEFAULT_WINDOW: int := 60_000_000_000

  /** `counts` has the times of recent handshakes that were allowed, by address. */
  datatype Limiter = Limiter(counts: map<string, seq<int>>, maxRate: int, window: int)

  function NewLimiter(maxRate: int, window: int): Limiter {
    Limiter(map[], if maxRate <= 0 then DEFAULT_MAX_RATE else maxRate, if window <= 0 then DEFAULT_WINDOW else window)
  }

  function Log(counts: map<string, seq<int>>, ip: string): seq<int> {
    if ip in counts then counts[ip] else []
  }

  function Allow(l: Limiter, ip: string, now: int): (Limiter, bool) {
    var valid := After(Log(l.counts, ip), now - l.window);
    if |valid| >= l.maxRate then (l.(counts := l.counts[ip := valid]), false)
    else (l.(counts := l.counts[ip := valid + [now]]), true)
  }

  /** Every log is pruned, and forgotten when nothing is left. */
  function Cleaned(counts: map<string, seq<int>>, cutoff: int): map<string, seq<int>> {
    map ip | ip in counts && After(counts[ip], cutoff) != [] :: After(counts[ip], cutoff)
  }

  function Cleanup(l: Limiter, now: int): Limiter {
    l.(counts := Cleaned(l.counts, now - l.window))
  }

  // ---------- runs ----------

  datatype Event = Ask(ip: string, at: int) | Clean(at: int)

  function Step(l: Limiter, e: Event): Limiter {
    match e
    case Ask(ip, at) => Allow(l, ip, at).0
    case Clean(at) => Cleanup(l, at)
  }

  function Run(l: Limiter, events: seq<Event>): Limiter {
    if events == [] then l else Step(Run(l, events[..|events| - 1]), events[|events| - 1])
  }

  /** The times at which an address asked, in order. */
  function Asks(events: seq<Event>, ip: string): seq<int> {
    if events == [] then []
    else
      var e := events[|events| - 1];
      Asks(events[..|events| - 1], ip) + if e.Ask? && e.ip == ip then [e.at] else []
  }

  /** An ask is admitted when fewer than maxRate were admitted in the last window. */
  predicate Allows(before: seq<int>, now: int, maxRate: int, window: int) {
    |After(before, now - window)| < maxRate
  }

  function Admit(before: seq<int>, now: int, maxRate: int, window: int): seq<int> {
    if Allows(before, now, maxRate, window) then before + [now] else before
  }

  /** The asks that a limiter which never forgets admits. */
  function Admitted(asks: seq<int>, maxRate: int, window: int): seq<int> {
    if asks == [] then [] else Admit(Admitted(asks[..|asks| - 1], maxRate, window), asks[|asks| - 1], maxRate, window)
  }

  ghost predicate Ordered(events: seq<Event>) {
    forall i, j :: 0 <= i < j < |events| ==> events[i].at <= events[j].at
  }

  /** What an event makes of the log of one address. */
  lemma LogAfter(l: Limiter, e: Event, ip: string)
    ensures var l' := Step(l, e);
            var pruned := After(Log(l.counts, ip), e.at - l.window);
            && l' == l.(counts := l'.counts)
            && Log(l'.counts, ip) ==
               if e.Clean? then pruned
               else if e.ip != ip then Log(l.counts, ip)
               else if |pruned| < l.maxRate then pruned + [e.at]
               else pruned
  {
  }

  /** What an event makes of the history of one address. */
  function Extend(history: seq<int>, e: Event, ip: string, maxRate: int, window: int): seq<int> {
    if e.Ask? && e.ip == ip then Admit(history, e.at, maxRate, window) else history
  }

  /** The log is the full history after some cutoff that the window has passed. */
  predicate PrunedAt(log: seq<int>, history: seq<int>, cutoff: int, now: int, window: int) {
    cutoff <= now - window && log == After(history, cutoff)
  }

  /** So any later cutoff sees the same in both. */
  lemma PruneMore(log: seq<int>, history: seq<int>, cutoff: int, now: int, window: int)
    requires PrunedAt(log, history, cutoff, now, window)
    ensures After(log, now - window) == After(history, now - window)
  {
    AfterAfter(history, cutoff, now - window);
  }

  lemma StepPruned(l: Limiter, e: Event, history: seq<int>, ip: string, cutoff: int) returns (cutoff': int)
    requires PrunedAt(Log(l.counts, ip), history, cutoff, e.at, l.window) && 0 < l.window
    ensures PrunedAt(Log(Step(l, e).counts, ip), Extend(history, e, ip, l.maxRate, l.window), cutoff', e.at, l.window)
  {
    LogAfter(l, e, ip);
    PruneMore(Log(l.counts, ip), history, cutoff, e.at, l.window);
    AfterSnoc(history, e.at, e.at - l.window);
    cutoff' := if e.Ask? && e.ip != ip then cutoff else e.at - l.window;
  }

  /** A limiter that started as l0 and has seen `events`. */
  predicate Tracks(l0: Limiter, l: Limiter, events: seq<Event>, ip: string, cutoff: int, now: int) {
    && l == l0.(counts := l.counts)
    && PrunedAt(Log(l.counts, ip), Admitted(Asks(events, ip), l0.maxRate, l0.window), cutoff, now, l0.window)
  }

  lemma StepTracks(l0: Limiter, l: Limiter, init: seq<Event>, e: Event, ip: string, cutoff: int) returns (cutoff': int)
    requires Tracks(l0, l, init, ip, cutoff, e.at) && 0 < l0.window
    ensures Tracks(l0, Step(l, e), init + [e], ip, cutoff', e.at)
  {
    cutoff' := StepPruned(l, e, Admitted(Asks(init, ip), l0.maxRate, l0.window), ip, cutoff);
    LogAfter(l, e, ip);
    AdmittedStep(init, e, ip, l0.maxRate, l0.window);
  }

  lemma {:induction false} RunTracks(l0: Limiter, events: seq<Event>, ip: string, now: int) returns (cutoff: int)
    requires Ordered(events) && (events != [] ==> events[|events| - 1].at <= now)
    requires l0.counts == map[] && 0 < l0.window
    ensures Tracks(l0, Run(l0, events), events, ip, cutoff, now)
  {
    if events == [] {
      cutoff := now - l0.window;
    } else {
      var init, e := events[..|events| - 1], events[|events| - 1];
      assert init + [e] == events;
      cutoff := RunTracks(l0, init, ip, e.at);
      cutoff := StepTracks(l0, Run(l0, init), init, e, ip, cutoff);
      TracksLater(l0, Run(l0, events), events, ip, cutoff, e.at, now);
    }
  }

  lemma TracksLater(l0: Limiter, l: Limiter, events: seq<Event>, ip: string, cutoff: int, now: int, later: int)
    requires Tracks(l0, l, events, ip, cutoff, now) && now <= later
    ensures Tracks(l0, l, events, ip, cutoff, later)
  {
  }

  lemma AsksSnoc(init: seq<Event>, e: Event, ip: string)
    ensures Asks(init + [e], ip) == if e.Ask? && e.ip == ip then Asks(init, ip) + [e.at] else Asks(init, ip)
  {
    assert (init + [e])[..|init|] == init;
    assert Asks(init, ip) + [] == Asks(init, ip);
  }

  lemma AdmittedSnoc(asks: seq<int>, now: int, maxRate: int, window: int)
    ensures Admitted(asks + [now], maxRate, window) == Admit(Admitted(asks, maxRate, window), now, maxRate, window)
  {
    assert (asks + [now])[..|asks|] == asks;
  }

  lemma AdmittedStep(init: seq<Event>, e: Event, ip: string, maxRate: int, window: int)
    ensures var history := Admitted(Asks(init, ip), maxRate, window);
            Admitted(Asks(init + [e], ip), maxRate, window) == Extend(history, e, ip, maxRate, window)
  {
    AsksSnoc(init, e, ip);
    AdmittedSnoc(Asks(init, ip), e.at, maxRate, window);
  }

  /** The answer of a limiter that never forgets, which looks at the asks of one address alone. */
  predicate FullHistoryAllows(events: seq<Event>, ip: string, now: int, maxRate: int, window: int) {
    Allows(Admitted(Asks(events, ip), maxRate, window), now, maxRate, window)
  }

  lemma {:induction false} Decide(l0: Limiter, l: Limiter, events: seq<Event>, ip: string, cutoff: int, now: int)
    requires Tracks(l0, l, events, ip, cutoff, now)
    ensures Allow(l, ip, now).1 <==> FullHistoryAllows(events, ip, now, l0.maxRate, l0.window)
  {
    PruneMore(Log(l.counts, ip), Admitted(Asks(events, ip), l0.maxRate, l0.window), cutoff, now, l0.window);
  }

  lemma {:induction false} DecisionFrom(l0: Limiter, events: seq<Event>, ip: string, now: int)
    requires Ordered(events) && (events != [] ==> events[|events| - 1].at <= now)
    requires l0.counts == map[] && 0 < l0.window
    ensures Allow(Run(l0, events), ip, now).1 <==> FullHistoryAllows(events, ip, now, l0.maxRate, l0.window)
  {
    var cutoff := RunTracks(l0, events, ip, now);
    Decide(l0, Run(l0, events), events, ip, cutoff, now);
  }

  /**
   Every answer is the one a limiter that never forgets gives: it depends on the asks of
   that address alone, so neither other addresses nor cleanup calls ever change it.
   */
  lemma {:induction false} DecisionIsFullHistory(maxRate: int, window: int, events: seq<Event>, ip: string, now: int)
    requires Ordered(events) && (events != [] ==> events[|events| - 1].at <= now)
    ensures var l := NewLimiter(maxRate, window);
            Allow(Run(l, events), ip, now).1 <==> FullHistoryAllows(events, ip, now, l.maxRate, l.window)
  {
    DecisionFrom(NewLimiter(maxRate, window), events, ip, now);
  }

  /** The same events without the cleanup calls. */
  function WithoutCleanup(events: seq<Event>): seq<Event> {
    if events == [] then []
    else WithoutCleanup(events[..|events| - 1]) + if events[|events| - 1].Ask? then [events[|events| - 1]] else []
  }

  lemma {:induction false} WithoutCleanupAsks(events: seq<Event>, ip: string)
    ensures Asks(WithoutCleanup(events), ip) == Asks(events, ip)
  {
    if events != [] {
      var init, e := events[..|events| - 1], events[|events| - 1];
      WithoutCleanupAsks(init, ip);
      var kept := WithoutCleanup(init);
      assert (kept + [e])[..|kept|] == kept;
      assert kept + [] == kept;
    }
  }

  ghost predicate NoLaterThan(events: seq<Event>, now: int) {
    forall i :: 0 <= i < |events| ==> events[i].at <= now
  }

  lemma {:induction false} WithoutCleanupOrdered(events: seq<Event>, now: int)
    requires Ordered(events) && NoLaterThan(events, now)
    ensures Ordered(WithoutCleanup(events)) && NoLaterThan(WithoutCleanup(events), now)
  {
    if events != [] {
      var init, e := events[..|events| - 1], events[|events| - 1];
      assert NoLaterThan(init, e.at);
      WithoutCleanupOrdered(init, e.at);
    }
  }

  /** Leaving out every cleanup call changes no answer. */
  lemma {:induction false} CleanupIsInvisible(maxRate: int, window: int, events: seq<Event>, ip: string, now: int)
    requires Ordered(events) && NoLaterThan(events, now)
    ensures Allow(Run(NewLimiter(maxRate, window), events), ip, now).1 ==
            Allow(Run(NewLimiter(maxRate, window), WithoutCleanup(events)), ip, now).1
  {
    WithoutCleanupOrdered(events, now);
    DecisionIsFullHistory(maxRate, window, events, ip, now);
    DecisionIsFullHistory(maxRate, window, WithoutCleanup(events), ip, now);
    var l := NewLimiter(maxRate, window);
    SameAsks(events, ip, now, l.maxRate, l.window);
  }

  lemma SameAsks(events: seq<Event>, ip: string, now: int, maxRate: int, window: int)
    ensures FullHistoryAllows(events, ip, now, maxRate, window) ==
            FullHistoryAllows(WithoutCleanup(events), ip, now, maxRate, window)
  {
    WithoutCleanupAsks(events, ip);
  }

  // ---------- the bound ----------

  /** How many entries lie in [from, to). */
  function CountIn(ts: seq<int>, from: int, to: int): nat {
    if ts == [] then 0
    else CountIn(ts[..|ts| - 1], from, to) + if from <= ts[|ts| - 1] < to then 1 else 0
  }

  lemma {:induction false} CountInAfter(ts: seq<int>, from: int, to: int, cutoff: int)
    requires cutoff < from
    ensures CountIn(ts, from, to) <= |After(ts, cutoff)|
  {
    if ts != [] {
      CountInAfter(ts[..|ts| - 1], from, to, cutoff);
    }
  }

  lemma {:induction false} AdmittedBound(asks: seq<int>, maxRate: int, window: int, from: int)
    requires 0 < maxRate && 0 < window
    ensures CountIn(Admitted(asks, maxRate, window), from, from + window) <= maxRate
  {
    if asks != [] {
      AdmittedBound(asks[..|asks| - 1], maxRate, window, from);
      AdmitBound(Admitted(asks[..|asks| - 1], maxRate, window), asks[|asks| - 1], maxRate, window, from);
    }
  }

  lemma AdmitBound(before: seq<int>, now: int, maxRate: int, window: int, from: int)
    requires CountIn(before, from, from + window) <= maxRate && 0 < window
    ensures CountIn(Admit(before, now, maxRate, window), from, from + window) <= maxRate
  {
    assert (before + [now])[..|before|] == before;
    if from <= now < from + window {
      CountInAfter(before, from, from + window, now - window);
    }
  }

  /** The times at which the limiter itself answered yes to an address. */
  function Granted(l: Limiter, events: seq<Event>, ip: string): seq<int> {
    if events == [] then []
    else
      var init, e := events[..|events| - 1], events[|events| - 1];
      Granted(l, init, ip) + if e.Ask? && e.ip == ip && Allow(Run(l, init), ip, e.at).1 then [e.at] else []
  }

  lemma {:induction false} GrantedIsAdmitted(l: Limiter, events: seq<Event>, ip: string)
    requires Ordered(events) && l.counts == map[] && 0 < l.window
    ensures Granted(l, events, ip) == Admitted(Asks(events, ip), l.maxRate, l.window)
  {
    if events != [] {
      var init, e := events[..|events| - 1], events[|events| - 1];
      assert init + [e] == events;
      GrantedIsAdmitted(l, init, ip);
      GrantedNext(l, init, e, ip);
    }
  }

  lemma OrderedInit(init: seq<Event>, e: Event)
    requires Ordered(init + [e])
    ensures Ordered(init) && (init != [] ==> init[|init| - 1].at <= e.at)
  {
    var all := init + [e];
    assert forall i :: 0 <= i < |init| ==> all[i] == init[i];
    assert all[|init|] == e;
  }

  lemma GrantedNext(l: Limiter, init: seq<Event>, e: Event, ip: string)
    requires Ordered(init + [e]) && l.counts == map[] && 0 < l.window
    requires Granted(l, init, ip) == Admitted(Asks(init, ip), l.maxRate, l.window)
    ensures Granted(l, init + [e], ip) == Admitted(Asks(init + [e], ip), l.maxRate, l.window)
  {
    OrderedInit(init, e);
    DecisionFrom(l, init, ip, e.at);
    AdmittedStep(init, e, ip, l.maxRate, l.window);
    GrantedSnoc(l, init, e, ip);
    SameExtended(Granted(l, init, ip), Granted(l, init + [e], ip), e, ip, l.maxRate, l.window,
                 Allow(Run(l, init), ip, e.at).1);
  }

  /** Two histories that were the same and took the same decision. */
  lemma SameExtended(granted: seq<int>, granted': seq<int>, e: Event, ip: string, maxRate: int, window: int, ok: bool)
    requires granted' == if e.Ask? && e.ip == ip && ok then granted + [e.at] else granted
    requires ok <==> Allows(granted, e.at, maxRate, window)
    ensures granted' == Extend(granted, e, ip, maxRate, window)
  {
  }

  lemma GrantedSnoc(l: Limiter, init: seq<Event>, e: Event, ip: string)
    ensures var before := Granted(l, init, ip);
            Granted(l, init + [e], ip) ==
            if e.Ask? && e.ip == ip && Allow(Run(l, init), ip, e.at).1 then before + [e.at] else before
  {
    assert (init + [e])[..|init|] == init;
    assert Granted(l, init, ip) + [] == Granted(l, init, ip);
  }

  /** In no half-open interval as long as the window does an address get more than maxRate grants. */
  lemma {:induction false} AtMostMaxRate(maxRate: int, window: int, events: seq<Event>, ip: string, from: int)
    requires Ordered(events)
    ensures var most := if maxRate <= 0 then 10 else maxRate;
            var length := if window <= 0 then 60_000_000_000 else window;
            CountIn(Granted(NewLimiter(maxRate, window), events, ip), from, from + length) <= most
  {
    GrantedBound(NewLimiter(maxRate, window), events, ip, from);
  }

  lemma {:induction false} GrantedBound(l: Limiter, events: seq<Event>, ip: string, from: int)
    requires Ordered(events) && l.counts == map[] && 0 < l.maxRate && 0 < l.window
    ensures CountIn(Granted(l, events, ip), from, from + l.window) <= l.maxRate
  {
    AdmittedBound(Asks(events, ip), l.maxRate, l.window, from);
    GrantedIsAdmitted(l, events, ip);
  }

  // ---------- what cleanup leaves ----------

  /** An address is remembered exactly when some of its times are later than `from`, and then with those alone. */
  ghost predicate Forgot(counts: map<string, seq<int>>, ip: string, granted: seq<int>, from: int) {
    var later := After(granted, from);
    if later == [] then ip !in counts else ip in counts && counts[ip] == later
  }

  /** After a cleanup the limiter remembers of an address the asks that it admitted in the last window. */
  lemma {:induction false} CleanupForgets(maxRate: int, window: int, events: seq<Event>, at: int, ip: string)
    requires Ordered(events) && (events != [] ==> events[|events| - 1].at <= at)
    ensures var most := if maxRate <= 0 then 10 else maxRate;
            var length := if window <= 0 then 60_000_000_000 else window;
            Forgot(Step(Run(NewLimiter(maxRate, window), events), Clean(at)).counts, ip,
                   Admitted(Asks(events, ip), most, length), at - length)
  {
    CleanupFrom(NewLimiter(maxRate, window), events, at, ip);
  }

  lemma {:induction false} CleanupFrom(l: Limiter, events: seq<Event>, at: int, ip: string)
    requires Ordered(events) && (events != [] ==> events[|events| - 1].at <= at) && l.counts == map[] && 0 < l.window
    ensures Forgot(Step(Run(l, events), Clean(at)).counts, ip, Admitted(Asks(events, ip), l.maxRate, l.window), at - l.window)
  {
    var cutoff := RunTracks(l, events, ip, at);
    CleanForgets(l, Run(l, events), events, ip, cutoff, at);
  }

  lemma {:induction false} CleanForgets(l0: Limiter, l: Limiter, events: seq<Event>, ip: string, cutoff: int, at: int)
    requires Tracks(l0, l, events, ip, cutoff, at)
    ensures Forgot(Step(l, Clean(at)).counts, ip, Admitted(Asks(events, ip), l0.maxRate, l0.window), at - l0.window)
  {
    PruneMore(Log(l.counts, ip), Admitted(Asks(events, ip), l0.maxRate, l0.window), cutoff, at, l0.window);
  }
}
