/** The mutable probe detector, proved against module Probe. */
module ProbeObject {
  import opened TimeWindow
  import opened P = Probe

  class ProbeDetector {
    var attempts: map<string, seq<int>>
    const maxRate: int
    const window: int

    ghost function View(): Detector
      reads this
    {
      Detector(attempts, maxRate, window)
    }

    constructor (maxRate: int, window: int)
      ensures View() == Detector(map[], maxRate, window)
    {
      attempts, this.maxRate, this.window := map[], maxRate, window;
    }

    /** The loop that Check and the cleanup share in shape: a new slice with the later entries. */
    static method Later(times: seq<int>, cutoff: int) returns (valid: seq<int>)
      ensures valid == After(times, cutoff)
    {
      valid := [];
      var i := 0;
      while i < |times|
        invariant 0 <= i <= |times| && valid == After(times[..i], cutoff)
      {
        AfterSnoc(times[..i], times[i], cutoff);
        assert times[..i + 1] == times[..i] + [times[i]];
        if times[i] > cutoff {
          valid := valid + [times[i]];
        }
        i := i + 1;
      }
      assert times[..i] == times;
    }

    method Check(host: string, now: int) returns (suspicious: bool)
      modifies this
      ensures (View(), suspicious) == P.Check(old(View()), host, now)
    {
      var cutoff := now - window;
      var times := if host in attempts then attempts[host] else [];
      var valid := Later(times, cutoff);
      valid := valid + [now];
      attempts := attempts[host := valid];
      suspicious := |valid| > maxRate;
    }

    /** The body of the cleanup loop: every host is pruned, and forgotten when nothing is left. */
    method Cleanup(now: int)
      modifies this
      ensures View() == P.Cleanup(old(View()), now)
    {
      var cutoff := now - window * 2;
      ghost var before := attempts;
      var todo := attempts.Keys;
      CleanedEnds(before, cutoff);
      while todo != {}
        invariant todo <= before.Keys && attempts == Cleaned(before, todo, cutoff)
        decreases todo
      {
        var host :| host in todo;
        CleanedNext(before, todo, host, cutoff);
        var valid := Later(attempts[host], cutoff);
        if |valid| == 0 {
          attempts := attempts - {host};
        } else {
          attempts := attempts[host := valid];
        }
        todo := todo - {host};
      }
    }
  }

  /** The attempts while the hosts in `todo` are still to be cleaned. */
  ghost function Cleaned(attempts: map<string, seq<int>>, todo: set<string>, cutoff: int): map<string, seq<int>> {
    map host | host in attempts && (host in todo || After(attempts[host], cutoff) != []) ::
      if host in todo then attempts[host] else After(attempts[host], cutoff)
  }

  lemma CleanedEnds(attempts: map<string, seq<int>>, cutoff: int)
    ensures Cleaned(attempts, attempts.Keys, cutoff) == attempts
    ensures Cleaned(attempts, {}, cutoff) ==
            map host | host in attempts && After(attempts[host], cutoff) != [] :: After(attempts[host], cutoff)
  {
  }

  lemma CleanedNext(attempts: map<string, seq<int>>, todo: set<string>, host: string, cutoff: int)
    requires host in todo && todo <= attempts.Keys
    ensures var now, left := Cleaned(attempts, todo, cutoff), After(attempts[host], cutoff);
            && host in now && now[host] == attempts[host]
            && Cleaned(attempts, todo - {host}, cutoff) == if left == [] then now - {host} else now[host := left]
  {
  }
}
