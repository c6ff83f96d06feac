/** The probe detector: too many connection attempts of one host within a window. */
module Probe {
  import opened TimeWindow

  /** `attempts` has the times of recent attempts by host. */
  datatype Detector = Detector(attempts: map<string, seq<int>>, maxRate: int, window: int)

  function Log(attempts: map<string, seq<int>>, host: string): seq<int> {
    if host in attempts then attempts[host] else []
  }

  function Check(d: Detector, host: string, now: int): (Detector, bool) {
    var valid := After(Log(d.attempts, host), now - d.window) + [now];
    (d.(attempts := d.attempts[host := valid]), |valid| > d.maxRate)
  }

  /** The cleanup keeps entries for two windows. */
  function Cleanup(d: Detector, now: int): Detector {
    var cutoff := now - d.window * 2;
    d.(attempts := map host | host in d.attempts && After(d.attempts[host], cutoff) != [] :: After(d.attempts[host], cutoff))
  }

  datatype Event = Attempt(host: string, at: int) | Clean(at: int)

  function Step(d: Detector, e: Event): Detector {
    match e
    case Attempt(host, at) => Check(d, host, at).0
    case Clean(at) => Cleanup(d, at)
  }

  function Run(d: Detector, events: seq<Event>): Detector {
    if events == [] then d else Step(Run(d, events[..|events| - 1]), events[|events| - 1])
  }

  /** The full history of a host. */
  function Attempts(events: seq<Event>, host: string): seq<int> {
    if events == [] then []
    else
      var e := events[|events| - 1];
      Attempts(events[..|events| - 1], host) + if e.Attempt? && e.host == host then [e.at] else []
  }

  ghost predicate Ordered(events: seq<Event>) {
    forall i, j :: 0 <= i < j < |events| ==> events[i].at <= events[j].at
  }

  ghost predicate NoLater(ts: seq<int>, last: int) {
    forall i :: 0 <= i < |ts| ==> ts[i] <= last
  }

  /**
   With a positive window the log is the full history after some cutoff that the window
   has passed. With any other window nothing recorded is ever recent enough to count.
   */
  ghost predicate PrunedAt(log: seq<int>, history: seq<int>, cutoff: int, now: int, window: int) {
    if window > 0 then cutoff <= now - window && log == After(history, cutoff)
    else NoLater(log, now) && NoLater(history, now)
  }

  lemma PruneMore(log: seq<int>, history: seq<int>, cutoff: int, now: int, window: int)
    requires PrunedAt(log, history, cutoff, now, window)
    ensures After(log, now - window) == After(history, now - window)
  {
    if window > 0 {
      AfterAfter(history, cutoff, now - window);
    } else {
      AfterNone(log, now - window);
      AfterNone(history, now - window);
    }
  }

  lemma {:induction false} AfterNoLater(ts: seq<int>, cutoff: int, last: int)
    requires NoLater(ts, last)
    ensures NoLater(After(ts, cutoff), last)
  {
    if ts != [] {
      AfterNoLater(ts[..|ts| - 1], cutoff, last);
    }
  }

  /** What an event makes of the log of one host. */
  lemma LogAfter(d: Detector, e: Event, host: string)
    ensures var d' := Step(d, e);
            var log := Log(d.attempts, host);
            && d' == d.(attempts := d'.attempts)
            && Log(d'.attempts, host) ==
               if e.Clean? then After(log, e.at - d.window * 2)
               else if e.host != host then log
               else After(log, e.at - d.window) + [e.at]
  {
  }

  lemma CheckPruned(log: seq<int>, history: seq<int>, cutoff: int, now: int, window: int)
    requires PrunedAt(log, history, cutoff, now, window)
    ensures PrunedAt(After(log, now - window) + [now], history + [now], now - window, now, window)
  {
    PruneMore(log, history, cutoff, now, window);
    AfterSnoc(history, now, now - window);
    if window <= 0 {
      AfterNoLater(log, now - window, now);
    }
  }

  lemma CleanPruned(log: seq<int>, history: seq<int>, cutoff: int, now: int, window: int)
    requires PrunedAt(log, history, cutoff, now, window)
    ensures PrunedAt(After(log, now - window * 2), history, Max(cutoff, now - window * 2), now, window)
  {
    if window > 0 {
      AfterAfter(history, cutoff, now - window * 2);
    } else {
      AfterNoLater(log, now - window * 2, now);
    }
  }

  lemma AttemptsSnoc(events: seq<Event>, e: Event, host: string)
    ensures Attempts(events + [e], host) ==
            if e.Attempt? && e.host == host then Attempts(events, host) + [e.at] else Attempts(events, host)
  {
    assert (events + [e])[..|events|] == events;
  }

  /** A detector that started as d0 and has seen `events`. */
  ghost predicate Tracks(d0: Detector, d: Detector, events: seq<Event>, host: string, cutoff: int, now: int) {
    && d == d0.(attempts := d.attempts)
    && PrunedAt(Log(d.attempts, host), Attempts(events, host), cutoff, now, d0.window)
  }

  lemma {:induction false} StepTracks(d0: Detector, d: Detector, init: seq<Event>, e: Event, host: string, cutoff: int) returns (cutoff': int)
    requires Tracks(d0, d, init, host, cutoff, e.at)
    ensures Tracks(d0, Step(d, e), init + [e], host, cutoff', e.at)
  {
    var log, history := Log(d.attempts, host), Attempts(init, host);
    LogAfter(d, e, host);
    AttemptsSnoc(init, e, host);
    if e.Clean? {
      CleanPruned(log, history, cutoff, e.at, d0.window);
      cutoff' := Max(cutoff, e.at - d0.window * 2);
    } else if e.host == host {
      CheckPruned(log, history, cutoff, e.at, d0.window);
      cutoff' := e.at - d0.window;
    } else {
      cutoff' := cutoff;
    }
  }

  lemma TracksLater(d0: Detector, d: Detector, events: seq<Event>, host: string, cutoff: int, now: int, later: int)
    requires Tracks(d0, d, events, host, cutoff, now) && now <= later
    ensures Tracks(d0, d, events, host, cutoff, later)
  {
  }

  lemma {:induction false} RunTracks(d0: Detector, events: seq<Event>, host: string, now: int) returns (cutoff: int)
    requires d0.attempts == map[]
    requires Ordered(events) && (events != [] ==> events[|events| - 1].at <= now)
    ensures Tracks(d0, Run(d0, events), events, host, cutoff, now)
  {
    if events == [] {
      cutoff := now - d0.window;
    } else {
      var init, e := events[..|events| - 1], events[|events| - 1];
      cutoff := RunTracks(d0, init, host, e.at);
      cutoff := StepTracks(d0, Run(d0, init), init, e, host, cutoff);
      assert init + [e] == events;
      TracksLater(d0, Run(d0, events), events, host, cutoff, e.at, now);
    }
  }

  /** The answer of a detector that never forgets: this attempt and those in the last window. */
  predicate FullHistorySuspects(events: seq<Event>, host: string, now: int, maxRate: int, window: int) {
    |After(Attempts(events, host), now - window)| + 1 > maxRate
  }

  /**
   Every answer is the one the full history of that host gives, whatever other hosts did
   and whenever the cleanup ran.
   */
  lemma {:induction false} CheckIsFullHistory(maxRate: int, window: int, events: seq<Event>, host: string, now: int)
    requires Ordered(events) && (events != [] ==> events[|events| - 1].at <= now)
    ensures Check(Run(Detector(map[], maxRate, window), events), host, now).1 <==>
            FullHistorySuspects(events, host, now, maxRate, window)
  {
    var d := Detector(map[], maxRate, window);
    var cutoff := RunTracks(d, events, host, now);
    Decide(d, Run(d, events), events, host, cutoff, now);
  }

  lemma {:induction false} Decide(d0: Detector, d: Detector, events: seq<Event>, host: string, cutoff: int, now: int)
    requires Tracks(d0, d, events, host, cutoff, now)
    ensures Check(d, host, now).1 <==> FullHistorySuspects(events, host, now, d0.maxRate, d0.window)
  {
    PruneMore(Log(d.attempts, host), Attempts(events, host), cutoff, now, d0.window);
  }

  // ---------- what cleanup leaves ----------

  /** The last attempt is in the log for two windows. */
  ghost predicate LastKept(log: seq<int>, history: seq<int>, now: int, window: int) {
    history != [] && history[|history| - 1] > now - window * 2 ==>
      log != [] && log[|log| - 1] == history[|history| - 1]
  }

  lemma AfterLast(log: seq<int>, cutoff: int)
    requires log != [] && log[|log| - 1] > cutoff
    ensures After(log, cutoff) != [] && After(log, cutoff)[|After(log, cutoff)| - 1] == log[|log| - 1]
  {
    assert log == log[..|log| - 1] + [log[|log| - 1]];
    AfterSnoc(log[..|log| - 1], log[|log| - 1], cutoff);
  }

  /** The last attempt is the latest. */
  ghost predicate LastIsLatest(history: seq<int>, now: int) {
    NoLater(history, now) && (history != [] ==> NoLater(history, history[|history| - 1]))
  }

  ghost predicate Remembers(d0: Detector, d: Detector, history: seq<int>, host: string, now: int) {
    d.window == d0.window && LastKept(Log(d.attempts, host), history, now, d0.window) && LastIsLatest(history, now)
  }

  lemma RemembersLater(d0: Detector, d: Detector, history: seq<int>, host: string, now: int, later: int)
    requires Remembers(d0, d, history, host, now) && now <= later
    ensures Remembers(d0, d, history, host, later)
  {
  }

  lemma CleanRemembers(d0: Detector, d: Detector, history: seq<int>, host: string, at: int)
    requires Remembers(d0, d, history, host, at)
    ensures Remembers(d0, Step(d, Clean(at)), history, host, at)
  {
    var log := Log(d.attempts, host);
    LogAfter(d, Clean(at), host);
    if log != [] && log[|log| - 1] > at - d.window * 2 {
      AfterLast(log, at - d.window * 2);
    }
  }

  lemma AttemptRemembers(d0: Detector, d: Detector, history: seq<int>, host: string, e: Event)
    requires Remembers(d0, d, history, host, e.at) && e.Attempt?
    ensures Remembers(d0, Step(d, e), if e.host == host then history + [e.at] else history, host, e.at)
  {
    LogAfter(d, e, host);
  }

  lemma {:induction false} RunRemembers(d0: Detector, events: seq<Event>, host: string, now: int)
    requires d0.attempts == map[]
    requires Ordered(events) && (events != [] ==> events[|events| - 1].at <= now)
    ensures Remembers(d0, Run(d0, events), Attempts(events, host), host, now)
  {
    if events != [] {
      var init, e := events[..|events| - 1], events[|events| - 1];
      RunRemembers(d0, init, host, e.at);
      assert init + [e] == events;
      AttemptsSnoc(init, e, host);
      if e.Clean? {
        CleanRemembers(d0, Run(d0, init), Attempts(init, host), host, e.at);
      } else {
        AttemptRemembers(d0, Run(d0, init), Attempts(init, host), host, e);
      }
      RemembersLater(d0, Run(d0, events), Attempts(events, host), host, e.at, now);
    }
  }

  /** After a cleanup the detector remembers a host exactly when it made an attempt within the last two windows. */
  lemma {:induction false} CleanupForgets(maxRate: int, window: int, events: seq<Event>, at: int, host: string)
    requires Ordered(events) && (events != [] ==> events[|events| - 1].at <= at)
    ensures host in Run(Detector(map[], maxRate, window), events + [Clean(at)]).attempts <==>
            exists t :: t in Attempts(events, host) && t > at - 2 * window
  {
    var d0 := Detector(map[], maxRate, window);
    assert (events + [Clean(at)])[..|events|] == events;
    var cutoff := RunTracks(d0, events, host, at);
    RunRemembers(d0, events, host, at);
    CleanForgets(d0, Run(d0, events), events, host, cutoff, at);
  }

  lemma {:induction false} CleanForgets(d0: Detector, d: Detector, events: seq<Event>, host: string, cutoff: int, at: int)
    requires Tracks(d0, d, events, host, cutoff, at) && Remembers(d0, d, Attempts(events, host), host, at)
    ensures host in Step(d, Clean(at)).attempts <==> exists t :: t in Attempts(events, host) && t > at - 2 * d0.window
  {
    var log := Log(d.attempts, host);
    assert host in Cleanup(d, at).attempts <==> After(log, at - d.window * 2) != [];
    RecentKept(log, Attempts(events, host), cutoff, at, d.window);
  }

  /** The log has a recent entry exactly when the history has. */
  lemma RecentKept(log: seq<int>, history: seq<int>, cutoff: int, now: int, window: int)
    requires PrunedAt(log, history, cutoff, now, window) && LastKept(log, history, now, window) && LastIsLatest(history, now)
    ensures After(log, now - window * 2) != [] <==> exists t :: t in history && t > now - 2 * window
  {
    var from := now - window * 2;
    if After(log, from) != [] {
      var t := After(log, from)[0];
      EntryRecorded(log, history, cutoff, now, window, t);
    }
    forall t | t in history && t > from ensures After(log, from) != [] {
      AfterLast(log, from);
    }
  }

  lemma EntryRecorded(log: seq<int>, history: seq<int>, cutoff: int, now: int, window: int, t: int)
    requires PrunedAt(log, history, cutoff, now, window) && t in After(log, now - window * 2)
    ensures t in history && t > now - window * 2
  {
    AfterKeeps(log, now - window * 2, t);
    if window > 0 {
      AfterKeeps(history, cutoff, t);
    }
  }
}
