/** The mutable rate limiter: a map of slices, each with an array of its own that is filtered in place. */
module RateLimiterObject {
  import opened TimeWindow
  import opened R = RateLimiter

  /** The first `len` entries of an array. */
  datatype Slice = Slice(buf: array<int>, len: nat)

  ghost predicate Fits(counts: map<string, Slice>) {
    forall ip :: ip in counts ==> counts[ip].len <= counts[ip].buf.Length
  }

  /** The entries of every slice. */
  ghost function Contents(counts: map<string, Slice>): map<string, seq<int>>
    requires Fits(counts)
    reads set s | s in counts.Values :: s.buf
  {
    map ip | ip in counts :: counts[ip].buf[..counts[ip].len]
  }

  lemma ContentsSet(counts: map<string, Slice>, ip: string, s: Slice)
    requires Fits(counts) && s.len <= s.buf.Length
    ensures Contents(counts[ip := s]) == Contents(counts)[ip := s.buf[..s.len]]
  {
  }

  class IPRateLimiter {
    var counts: map<string, Slice>
    const maxRate: int
    const window: int
    ghost var owner: map<array<int>, string>

    /** Every array belongs to one address, so no two slices share one. */
    ghost predicate Valid()
      reads this
    {
      forall ip :: ip in counts ==>
        && counts[ip].len <= counts[ip].buf.Length
        && counts[ip].buf in owner && owner[counts[ip].buf] == ip
    }

    ghost function Arrays(): set<object>
      reads this
    {
      set s | s in counts.Values :: s.buf
    }

    ghost function View(): Limiter
      requires Valid()
      reads this, Arrays()
    {
      Limiter(Contents(counts), maxRate, window)
    }

    constructor (maxRate: int, window: int)
      ensures Valid() && View() == NewLimiter(maxRate, window)
    {
      this.maxRate := if maxRate <= 0 then DEFAULT_MAX_RATE else maxRate;
      this.window := if window <= 0 then DEFAULT_WINDOW else window;
      counts, owner := map[], map[];
    }

    /** An address gets a slice whose array is its own or nobody's. */
    method Put(ip: string, s: Slice)
      requires Valid() && s.len <= s.buf.Length && (s.buf in owner ==> owner[s.buf] == ip)
      modifies this`counts, this`owner
      ensures Valid() && counts == old(counts)[ip := s]
    {
      counts, owner := counts[ip := s], owner[s.buf := ip];
    }

    /** Filter the slice of an address in place. */
    method PruneOne(ip: string, cutoff: int)
      requires Valid() && ip in counts
      modifies this`counts, this`owner, counts[ip].buf
      ensures Valid() && counts.Keys == old(counts.Keys)
      ensures forall i :: i in counts ==> counts[i].buf == old(counts[i].buf)
      ensures View() == old(View()).(counts := old(View()).counts[ip := After(old(View()).counts[ip], cutoff)])
    {
      ghost var before := Contents(counts);
      var m := FilterOne(ip, cutoff);
      Put(ip, Slice(counts[ip].buf, m));
      assert Contents(counts) == before[ip := After(before[ip], cutoff)];
    }

    /** The loop, which writes the array of that address only. */
    method FilterOne(ip: string, cutoff: int) returns (m: nat)
      requires Valid() && ip in counts
      modifies counts[ip].buf
      ensures m <= counts[ip].buf.Length
      ensures Contents(counts[ip := Slice(counts[ip].buf, m)]) ==
              old(Contents(counts))[ip := After(old(Contents(counts)[ip]), cutoff)]
    {
      ghost var before := Contents(counts);
      m := Prune(counts[ip].buf, counts[ip].len, cutoff);
      forall i | i in counts && i != ip ensures counts[i].buf[..counts[i].len] == before[i] {
        assert counts[i].buf != counts[ip].buf;
      }
    }

    method AppendOne(ip: string, t: int)
      requires Valid() && ip in counts
      modifies this`counts, this`owner, counts[ip].buf
      ensures Valid()
      ensures View() == old(View()).(counts := old(View()).counts[ip := old(View()).counts[ip] + [t]])
    {
      ghost var before := Contents(counts);
      var s := ExtendOne(ip, t);
      Put(ip, s);
      assert Contents(counts) == before[ip := before[ip] + [t]];
    }

    /** The slice of an address with one more entry, in its own array or in a new one. */
    method ExtendOne(ip: string, t: int) returns (s: Slice)
      requires Valid() && ip in counts
      modifies counts[ip].buf
      ensures s.len <= s.buf.Length && (s.buf == counts[ip].buf || fresh(s.buf))
      ensures Contents(counts[ip := s]) == old(Contents(counts))[ip := old(Contents(counts)[ip]) + [t]]
    {
      ghost var before := Contents(counts);
      var b := Append(counts[ip].buf, counts[ip].len, t);
      s := Slice(b, counts[ip].len + 1);
      forall i | i in counts && i != ip ensures counts[i].buf[..counts[i].len] == before[i] {
        assert counts[i].buf != counts[ip].buf;
      }
    }

    static method NewBuffer() returns (b: array<int>)
      ensures fresh(b) && b.Length == 0
    {
      b := new int[0];
    }

    /** An empty slice for an address that has none. */
    method AddEmpty(ip: string)
      requires Valid() && ip !in counts
      modifies this`counts, this`owner
      ensures Valid() && ip in counts && fresh(counts[ip].buf)
      ensures View() == old(View()).(counts := old(View()).counts[ip := []])
    {
      var b := NewBuffer();
      ContentsSet(counts, ip, Slice(b, 0));
      Put(ip, Slice(b, 0));
    }

    method Allow(ip: string, now: int) returns (ok: bool)
      requires Valid()
      modifies this`counts, this`owner, Arrays()
      ensures Valid() && (View(), ok) == R.Allow(old(View()), ip, now)
    {
      ghost var l := View();
      ghost var valid := After(Log(l.counts, ip), now - window);
      if ip !in counts {
        AddEmpty(ip);
      }
      PruneOne(ip, now - window);
      SetTwice(l.counts, ip, [], valid);
      assert View() == l.(counts := l.counts[ip := valid]);
      assert counts[ip].len == |View().counts[ip]|;
      if counts[ip].len >= maxRate {
        return false;
      }
      AppendOne(ip, now);
      SetTwice(l.counts, ip, valid, valid + [now]);
      return true;
    }

    method ForgetOne(ip: string)
      requires Valid()
      modifies this`counts
      ensures Valid() && counts == old(counts) - {ip}
      ensures View() == old(View()).(counts := old(View()).counts - {ip})
    {
      counts := counts - {ip};
    }

    /** One turn of the loop of cleanup: prune a slice, and forget the address when nothing is left. */
    method CleanOne(ip: string, cutoff: int)
      requires Valid() && ip in counts
      modifies this`counts, this`owner, counts[ip].buf
      ensures Valid() && counts.Keys <= old(counts.Keys) <= counts.Keys + {ip}
      ensures forall i :: i in counts ==> counts[i].buf == old(counts[i].buf)
      ensures View() == old(View()).(counts := CleanedOf(old(View()).counts, {ip}, cutoff))
    {
      ghost var l := View();
      PruneOne(ip, cutoff);
      assert counts[ip].len == |View().counts[ip]|;
      CleanedOneIs(l.counts, ip, cutoff);
      if counts[ip].len == 0 {
        ForgetOne(ip);
      }
    }

    /** The loop of cleanup, over the addresses in any order. */
    method CleanAll(cutoff: int)
      requires Valid()
      modifies this`counts, this`owner, Arrays()
      ensures Valid()
      ensures View() == old(View()).(counts := Cleaned(old(View()).counts, cutoff))
    {
      ghost var l := View();
      var todo := counts.Keys;
      CleanedNone(l.counts, cutoff);
      while todo != {}
        invariant Valid() && todo <= counts.Keys <= old(counts.Keys)
        invariant forall ip :: ip in counts ==> counts[ip].buf == old(counts[ip].buf)
        invariant View() == l.(counts := View().counts) && CleanedBut(l.counts, View().counts, todo, cutoff)
        decreases todo
      {
        var ip :| ip in todo;
        CleanedNext(l.counts, View().counts, ip, todo, cutoff);
        CleanOne(ip, cutoff);
        todo := todo - {ip};
      }
      CleanedEnd(l.counts, View().counts, cutoff);
    }

    method Cleanup(now: int)
      requires Valid()
      modifies this`counts, this`owner, Arrays()
      ensures Valid() && View() == R.Cleanup(old(View()), now)
    {
      ghost var l := View();
      assert R.Cleanup(l, now) == l.(counts := Cleaned(l.counts, now - window));
      CleanAll(now - window);
    }
  }

  /** The counts after the addresses in `done` were cleaned. */
  ghost function CleanedOf(counts: map<string, seq<int>>, done: set<string>, cutoff: int): map<string, seq<int>> {
    map ip | ip in counts && (ip !in done || After(counts[ip], cutoff) != []) ::
      if ip in done then After(counts[ip], cutoff) else counts[ip]
  }

  lemma CleanedOneIs(counts: map<string, seq<int>>, ip: string, cutoff: int)
    requires ip in counts
    ensures var left := After(counts[ip], cutoff);
            CleanedOf(counts, {ip}, cutoff) == if left == [] then counts[ip := left] - {ip} else counts[ip := left]
  {
  }

  /** Every address was cleaned but those in `todo`. */
  ghost predicate CleanedBut(before: map<string, seq<int>>, now: map<string, seq<int>>, todo: set<string>, cutoff: int) {
    todo <= before.Keys && now == CleanedOf(before, before.Keys - todo, cutoff)
  }

  lemma CleanedNone(before: map<string, seq<int>>, cutoff: int)
    ensures CleanedBut(before, before, before.Keys, cutoff)
  {
    assert CleanedOf(before, before.Keys - before.Keys, cutoff) == before;
  }

  lemma CleanedNext(before: map<string, seq<int>>, now: map<string, seq<int>>, ip: string, todo: set<string>, cutoff: int)
    requires CleanedBut(before, now, todo, cutoff) && ip in todo
    ensures CleanedBut(before, CleanedOf(now, {ip}, cutoff), todo - {ip}, cutoff)
  {
    assert CleanedOf(CleanedOf(before, before.Keys - todo, cutoff), {ip}, cutoff) ==
           CleanedOf(before, before.Keys - (todo - {ip}), cutoff);
  }

  lemma CleanedEnd(before: map<string, seq<int>>, now: map<string, seq<int>>, cutoff: int)
    requires CleanedBut(before, now, {}, cutoff)
    ensures now == Cleaned(before, cutoff)
  {
    assert before.Keys - {} == before.Keys;
  }

  lemma SetTwice<K, V>(m: map<K, V>, k: K, v: V, w: V)
    ensures m[k := v][k := w] == m[k := w]
  {
  }
}
