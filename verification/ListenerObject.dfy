/** The mutable Grouk listener, proved against module Listener. */
module ListenerObject {
  import opened Bytes
  import opened L = Listener

  class GroukListener {
    const macs: Macs
    var pendingAuth: map<nat, Pending>
    var pendingCount: int
    var sessions: map<nat, int>
    var shut: set<nat>
    var acceptCh: seq<nat>
    var offer: Offer
    var closed: bool

    ghost function View(): State
      reads this
    {
      State(macs, pendingAuth, pendingCount, sessions, shut, acceptCh, offer, closed)
    }

    constructor (macs: Macs)
      ensures View() == NewState(macs)
    {
      this.macs := macs;
      pendingAuth, pendingCount, sessions, shut := map[], 0, map[], {};
      acceptCh, offer, closed := [], NoOffer, false;
    }

    method AddPending(id: nat, shared: Secret, now: int)
      modifies this
      ensures View() == L.AddPending(old(View()), id, shared, now)
    {
      pendingAuth := pendingAuth[id := Pending(shared, now)];
      pendingCount := pendingCount + 1;
    }

    method HandleAuth(id: nat, payload: seq<byte>) returns (outcome: seq<(nat, Outcome)>)
      modifies this
      ensures (View(), outcome) == L.HandleAuth(old(View()), id, payload)
    {
      if closed || offer.Offering? || id !in pendingAuth {
        return [];
      }
      var pending := pendingAuth[id];
      if payload != macs.client(pending.shared) {
        pendingAuth := pendingAuth - {id};
        pendingCount := pendingCount - 1;
        shut := shut + {id};
        return [(id, Rejected)];
      }
      sessions := sessions[id := pending.createdAt];
      pendingAuth := pendingAuth - {id};
      pendingCount := pendingCount - 1;
      if |acceptCh| < ACCEPT_CAPACITY {
        acceptCh := acceptCh + [id];
      } else {
        offer := Offering(id);
      }
      return [(id, Authenticated(macs.server(pending.shared)))];
    }

    /** The walk over the pending entries, in whatever order the map gives them. */
    method CleanupPending(order: seq<nat>, now: int) returns (outcomes: seq<(nat, Outcome)>)
      modifies this
      ensures (View(), outcomes) == ExpirePending(old(View()), order, now)
    {
      outcomes := [];
      var i := 0;
      assert order[0..] == order && forall more: seq<(nat, Outcome)> :: outcomes + more == more;
      while i < |order|
        invariant 0 <= i <= |order|
        invariant var (rest, more) := ExpirePending(View(), order[i..], now);
                  (rest, outcomes + more) == ExpirePending(old(View()), order, now)
      {
        var id := order[i];
        assert order[i..][0] == id && order[i..][1..] == order[i + 1..];
        if id in pendingAuth && now - pendingAuth[id].createdAt > PENDING_TIMEOUT {
          ghost var before := outcomes;
          pendingAuth := pendingAuth - {id};
          pendingCount := pendingCount - 1;
          shut := shut + {id};
          outcomes := outcomes + [(id, TimedOut)];
          ghost var more := ExpirePending(View(), order[i + 1..], now).1;
          assert before + ([(id, TimedOut)] + more) == outcomes + more;
        }
        i := i + 1;
      }
      assert order[i..] == [] && outcomes + [] == outcomes;
    }

    /** The walk over the sessions. */
    method CleanupSessions(now: int)
      modifies this
      ensures View() == ExpireSessions(old(View()), now)
    {
      ghost var before := sessions;
      var todo := sessions.Keys;
      while todo != {}
        invariant todo <= sessions.Keys <= before.Keys
        invariant forall id :: id in sessions ==> sessions[id] == before[id]
        invariant forall id :: id in before && id !in todo ==> (id in sessions <==> !Inactive(before[id], now))
        invariant shut == old(shut) + (before.Keys - sessions.Keys)
        invariant View() == old(View()).(sessions := sessions, shut := shut)
        decreases todo
      {
        var id :| id in todo;
        if now - sessions[id] > SESSION_TIMEOUT {
          sessions := sessions - {id};
          shut := shut + {id};
        }
        todo := todo - {id};
      }
      assert sessions == ExpireSessions(old(View()), now).sessions;
      assert before.Keys - sessions.Keys == set id | id in before && Inactive(before[id], now);
    }

    method HandlePacket(id: nat, now: int)
      modifies this
      ensures View() == L.HandlePacket(old(View()), id, now)
    {
      if !closed && offer.NoOffer? && id in sessions {
        sessions := sessions[id := now];
      }
    }

    method Accept(eof: bool) returns (result: Accepted)
      modifies this
      ensures (View(), result) == L.Accept(old(View()), eof)
    {
      if |acceptCh| == 0 || (closed && eof) {
        return if closed then ListenerClosed else NoneYet;
      }
      result := Accepted(acceptCh[0]);
      acceptCh := acceptCh[1..];
      if offer.Offering? {
        acceptCh := acceptCh + [offer.id];
        offer := NoOffer;
      }
    }

    method Close()
      modifies this
      ensures View() == L.Close(old(View()))
    {
      closed := true;
      offer := NoOffer;
    }
  }
}
