/** What one walk of the retransmit loop does to the congestion window, and what it sends again. */
module GroukLoss {
  import opened Bytes
  import opened Grouk
  import opened GroukTiming

  function Power2(n: nat): (p: nat)
    ensures p > 0
  {
    if n == 0 then 1 else 2 * Power2(n - 1)
  }

  /** The window after n losses, and never below four. */
  function AfterLosses(cwnd: nat, n: nat): nat {
    var left := cwnd / Power2(n);
    if left < 4 then 4 else left
  }

  /** Entries that were never sent again before, and once after. */
  ghost function FirstRetries(before: map<nat, SendEntry>, after: map<nat, SendEntry>): set<nat> {
    set q | q in before && q in after && before[q].retries == 0 && after[q].retries == 1
  }

  lemma LargeMultiple(p: nat, d: nat)
    requires d > 0
    ensures p * d >= p
  {
  }

  lemma Spread(p: int, a: int, b: int)
    ensures p * (a - b) == p * a - p * b
  {
  }

  lemma QuotientIs(x: nat, p: nat, q: nat, r: nat)
    requires x == p * q + r && r < p
    ensures x / p == q
  {
    Remainder(x, p);
    SameQuotient(p, x / p, x % p, q, r);
  }

  lemma SameQuotient(p: nat, a: nat, r: nat, b: nat, s: nat)
    requires p * a + r == p * b + s && r < p && s < p
    ensures a == b
  {
    if a > b {
      LargeMultiple(p, a - b);
      Spread(p, a, b);
    } else if b > a {
      LargeMultiple(p, b - a);
      Spread(p, b, a);
    }
  }

  lemma Doubled(p: nat, q: nat)
    ensures (2 * p) * q == 2 * (p * q)
  {
  }

  lemma Remainder(c: nat, p: nat)
    requires p > 0
    ensures c == p * (c / p) + c % p && c % p < p
  {
  }

  /** Halving first and then dividing by 2^n is dividing by 2^(n+1). */
  lemma HalfThenPower(c: nat, n: nat)
    ensures (c / 2) / Power2(n) == c / Power2(n + 1)
  {
    HalfThenDivide(c, Power2(n));
  }

  lemma HalfThenDivide(c: nat, p: nat)
    requires p > 0
    ensures (c / 2) / p == c / (2 * p)
  {
    var q, r := (c / 2) / p, (c / 2) % p;
    Remainder(c / 2, p);
    Doubled(p, q);
    QuotientIs(c, 2 * p, q, 2 * r + c % 2);
  }

  lemma {:induction false} PowerDivides(c: nat, n: nat)
    ensures c / Power2(n) <= c
  {
    if n > 0 {
      HalfThenPower(c, n - 1);
      PowerDivides(c / 2, n - 1);
    }
  }

  /** One loss and then n more are n + 1 losses. */
  lemma OneMoreLoss(cwnd: nat, n: nat)
    ensures AfterLosses(if cwnd / 2 < 4 then 4 else cwnd / 2, n) == AfterLosses(cwnd, n + 1)
  {
    HalfThenPower(cwnd, n);
    PowerDivides(4, n);
    PowerDivides(cwnd / 2, n);
  }

  /** What a first retry, or a later one, does to the windows. */
  lemma RetryWindows(st: Stream, q: nat, now: int)
    requires q in st.sendBuf && st.cwnd >= 4
    ensures var half := if st.cwnd / 2 < 4 then 4 else st.cwnd / 2;
            var first := st.sendBuf[q].retries == 0;
            && Retry(st, q).cwnd == Resend(st, q, now).cwnd == (if first then half else st.cwnd)
            && Retry(st, q).ssthresh == Resend(st, q, now).ssthresh == (if first then half else st.ssthresh)
  {
  }

  /** Whether entry q is retried, and what that adds to the first retries. */
  lemma FirstRetriesStep(st: Stream, order: seq<nat>, now: int)
    requires order != [] && Distinct(order) && order[0] in st.sendBuf && Overdue(st, order[0], now)
    requires st.sendBuf[order[0]].retries + 1 <= MAX_RETRANSMIT
    ensures var q := order[0];
            var st1 := Resend(st, q, now);
            var st' := Scan(st1, order[1..], now).0;
            && q !in FirstRetries(st1.sendBuf, st'.sendBuf)
            && FirstRetries(st.sendBuf, st'.sendBuf) ==
               FirstRetries(st1.sendBuf, st'.sendBuf) + if st.sendBuf[q].retries == 0 then {q} else {}
  {
    var q := order[0];
    var st1 := Resend(st, q, now);
    var st' := Scan(st1, order[1..], now).0;
    assert Distinct(order[1..]) && q !in order[1..];
    ScanEntry(st1, order[1..], now, q);
    assert st'.sendBuf[q] == st1.sendBuf[q];
    assert forall p :: p != q ==> (p in st.sendBuf <==> p in st1.sendBuf) && (p in st.sendBuf ==> st1.sendBuf[p] == st.sendBuf[p]);
  }

  lemma NoFirstRetries(sendBuf: map<nat, SendEntry>)
    ensures FirstRetries(sendBuf, sendBuf) == {}
  {
  }

  /** The windows after n first retries. */
  ghost predicate Windows(st: Stream, st': Stream, n: nat) {
    && st.cwnd >= 4 && st'.cwnd == AfterLosses(st.cwnd, n)
    && st'.ssthresh == if n == 0 then st.ssthresh else st'.cwnd
  }

  /**
   The response to losses, whatever the order of the walk: when n entries have their first
   retry, the congestion window is divided by 2^n, down to four at most, and becomes the
   new threshold; with no first retry both stay.
   */
  lemma {:induction false} WalkHalves(st: Stream, order: seq<nat>, now: int)
    requires Distinct(order) && st.cwnd >= 4
    ensures var st' := Scan(st, order, now).0; Windows(st, st', |FirstRetries(st.sendBuf, st'.sendBuf)|)
    decreases |order|
  {
    if order == [] {
      NoFirstRetries(st.sendBuf);
    } else {
      var q := order[0];
      assert Distinct(order[1..]);
      if q !in st.sendBuf || !Overdue(st, q, now) {
        WalkHalves(st, order[1..], now);
      } else if st.sendBuf[q].retries + 1 > MAX_RETRANSMIT {
        NoFirstRetryLast(st, q);
      } else {
        RetryWindows(st, q, now);
        FirstRetriesStep(st, order, now);
        WalkHalves(Resend(st, q, now), order[1..], now);
        WindowsNext(st, Resend(st, q, now), Scan(st, order, now).0,
                    |FirstRetries(Resend(st, q, now).sendBuf, Scan(st, order, now).0.sendBuf)|, st.sendBuf[q].retries == 0);
      }
    }
  }

  lemma NoFirstRetryLast(st: Stream, q: nat)
    requires q in st.sendBuf && st.sendBuf[q].retries + 1 > MAX_RETRANSMIT && st.cwnd >= 4
    ensures FirstRetries(st.sendBuf, Retry(st, q).sendBuf) == {}
    ensures Windows(st, Retry(st, q), 0)
  {
  }

  lemma WindowsNext(st: Stream, st1: Stream, st': Stream, n: nat, first: bool)
    requires Windows(st1, st', n) && st.cwnd >= 4
    requires st1.cwnd == if first then if st.cwnd / 2 < 4 then 4 else st.cwnd / 2 else st.cwnd
    requires st1.ssthresh == if first then st1.cwnd else st.ssthresh
    ensures Windows(st, st', if first then n + 1 else n)
  {
    if first {
      OneMoreLoss(st.cwnd, n);
      if n == 0 {
        assert st1.cwnd / Power2(0) == st1.cwnd;
      }
    }
  }

  /** Entry q has waited longer than its time: 200 ms more for every repetition, two seconds at most. */
  predicate Late(sendBuf: map<nat, SendEntry>, q: nat, now: int) {
    && q in sendBuf
    && var wait := 200_000_000 * (sendBuf[q].retries + 1);
       now - sendBuf[q].sentAt > if wait > 2_000_000_000 then 2_000_000_000 else wait
  }

  /**
   A tick that leaves the stream open sends again exactly what was late, each once, and
   halves for exactly those of them that were never sent again before.
   */
  lemma {:induction false} ResendsTheLate(st: Stream, order: seq<nat>, now: int)
    requires Walks(order, st.sendBuf.Keys) && !Scan(st, order, now).0.closed
    ensures var (st', resent) := Scan(st, order, now);
            && (forall q :: multiset(resent)[q] == if Late(st.sendBuf, q, now) then 1 else 0)
            && FirstRetries(st.sendBuf, st'.sendBuf) == set q | q in st.sendBuf && Late(st.sendBuf, q, now) && st.sendBuf[q].retries == 0
  {
    var (st', resent) := Scan(st, order, now);
    ScanSendSide(st, order, now);
    forall q ensures multiset(resent)[q] == if Late(st.sendBuf, q, now) then 1 else 0 {
      if q in st.sendBuf {
        ScanEntry(st, order, now, q);
      } else {
        assert q !in resent;
      }
    }
    forall q | q in st.sendBuf
      ensures q in st'.sendBuf && (st.sendBuf[q].retries == 0 && st'.sendBuf[q].retries == 1 <==>
                                   Late(st.sendBuf, q, now) && st.sendBuf[q].retries == 0)
    {
      ScanEntry(st, order, now, q);
    }
  }

  /** Entry q was late and repeated ten times already; its count goes up once more. */
  ghost predicate GivenUp(before: map<nat, SendEntry>, after: map<nat, SendEntry>, q: nat, now: int) {
    && Late(before, q, now) && before[q].retries >= 10
    && q in after && after[q] == before[q].(retries := before[q].retries + 1)
  }

  /** A tick closes an open stream exactly when some late entry was sent again ten times already. */
  lemma {:induction false} TickClosesExactly(st: Stream, order: seq<nat>, now: int)
    requires Walks(order, st.sendBuf.Keys) && !st.closed
    ensures Scan(st, order, now).0.closed <==>
            exists q :: Late(st.sendBuf, q, now) && st.sendBuf[q].retries >= 10
    ensures Scan(st, order, now).0.closed ==> exists q :: GivenUp(st.sendBuf, Scan(st, order, now).0.sendBuf, q, now)
  {
    if Scan(st, order, now).0.closed {
      var q := ScanCloses(st, order, now);
      assert Late(st.sendBuf, q, now);
      assert GivenUp(st.sendBuf, Scan(st, order, now).0.sendBuf, q, now);
    } else {
      forall q | Late(st.sendBuf, q, now) ensures st.sendBuf[q].retries < 10 {
        ScanEntry(st, order, now, q);
      }
    }
  }
}
