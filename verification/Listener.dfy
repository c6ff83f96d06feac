/**
 The sessions of a Grouk listener: from the handshake to a pending entry, and from there
 to authenticated, rejected or timed out. One step is one handler or cleanup call.
 */
module Listener {
  import opened Bytes

  const ACCEPT_CAPACITY: nat := 16
  const PENDING_TIMEOUT: int := 30_000_000_000
  const SESSION_TIMEOUT: int := 300_000_000_000

  type Secret = seq<byte>

  datatype Pending = Pending(shared: Secret, createdAt: int)

  /** A session that the read loop is offering while the accept channel is full. */
  datatype Offer = NoOffer | Offering(id: nat)

  /** The MACs that go with a shared secret: what the client has to send, and what the server answers. */
  datatype Macs = Macs(client: Secret -> seq<byte>, server: Secret -> seq<byte>)

  /**
   A session is known by its id. `sessions` has the time each one was last active, `shut`
   the sessions that the listener has closed.
   */
  datatype State = State(
    macs: Macs, pendingAuth: map<nat, Pending>, pendingCount: int,
    sessions: map<nat, int>, shut: set<nat>, acceptCh: seq<nat>, offer: Offer, closed: bool)

  /** What became of a pending session; an authenticated one was sent `done`. */
  datatype Outcome = Authenticated(done: seq<byte>) | Rejected | TimedOut

  function NewState(macs: Macs): State {
    State(macs, map[], 0, map[], {}, [], NoOffer, false)
  }

  /** The end of handleHandshake. */
  function AddPending(l: State, id: nat, shared: Secret, now: int): State {
    l.(pendingAuth := l.pendingAuth[id := Pending(shared, now)], pendingCount := l.pendingCount + 1)
  }

  function RemovePending(l: State, id: nat): State {
    l.(pendingAuth := l.pendingAuth - {id}, pendingCount := l.pendingCount - 1)
  }

  /** A pending session is given up: forgotten and closed. */
  function DropPending(l: State, id: nat): State {
    RemovePending(l, id).(shut := l.shut + {id})
  }

  /** Offer a session to Accept, or hold it while there is no room. */
  function OfferSession(l: State, id: nat): State {
    if |l.acceptCh| < ACCEPT_CAPACITY then l.(acceptCh := l.acceptCh + [id]) else l.(offer := Offering(id))
  }

  /** An AUTH packet. Nothing is read while a session is being offered. */
  function HandleAuth(l: State, id: nat, payload: seq<byte>): (State, seq<(nat, Outcome)>) {
    if l.closed || l.offer.Offering? || id !in l.pendingAuth then (l, [])
    else
      var p := l.pendingAuth[id];
      if payload != l.macs.client(p.shared) then (DropPending(l, id), [(id, Rejected)])
      else
        var l1 := RemovePending(l.(sessions := l.sessions[id := p.createdAt]), id);
        (OfferSession(l1, id), [(id, Authenticated(l.macs.server(p.shared)))])
  }

  predicate Expired(p: Pending, now: int) {
    now - p.createdAt > PENDING_TIMEOUT
  }

  /** The walk of cleanupPending over the given order of ids. */
  function ExpirePending(l: State, order: seq<nat>, now: int): (State, seq<(nat, Outcome)>)
    decreases |order|
  {
    if order == [] then (l, [])
    else
      var id := order[0];
      if id in l.pendingAuth && Expired(l.pendingAuth[id], now) then
        var (l', more) := ExpirePending(DropPending(l, id), order[1..], now);
        (l', [(id, TimedOut)] + more)
      else ExpirePending(l, order[1..], now)
  }

  predicate Inactive(lastActive: int, now: int) {
    now - lastActive > SESSION_TIMEOUT
  }

  /** cleanupSessions: sessions that were inactive for too long are forgotten and closed. */
  function ExpireSessions(l: State, now: int): State {
    l.(sessions := map id | id in l.sessions && !Inactive(l.sessions[id], now) :: l.sessions[id],
       shut := l.shut + set id | id in l.sessions && Inactive(l.sessions[id], now))
  }

  /** Any other packet of a session. */
  function HandlePacket(l: State, id: nat, now: int): State {
    if l.closed || l.offer.Offering? || id !in l.sessions then l else l.(sessions := l.sessions[id := now])
  }

  datatype Accepted = Accepted(id: nat) | NoneYet | ListenerClosed

  /**
   Accept takes the first session; a held offer moves up. `eof` picks the closed case when
   the listener is closed and a session is queued too.
   */
  function Accept(l: State, eof: bool): (State, Accepted) {
    if l.acceptCh == [] || (l.closed && eof) then (l, if l.closed then ListenerClosed else NoneYet)
    else
      var rest := l.acceptCh[1..];
      match l.offer
      case NoOffer => (l.(acceptCh := rest), Accepted(l.acceptCh[0]))
      case Offering(id) => (l.(acceptCh := rest + [id], offer := NoOffer), Accepted(l.acceptCh[0]))
  }

  /** Close: a held offer is given up. */
  function Close(l: State): State {
    l.(closed := true, offer := NoOffer)
  }

  // ---------- runs ----------

  datatype Event =
    | Handshake(id: nat, shared: Secret, at: int)
    | Auth(id: nat, payload: seq<byte>)
    | Packet(id: nat, at: int)
    | CleanPending(order: seq<nat>, at: int)
    | CleanSessions(at: int)
    | DoAccept(eof: bool)
    | DoClose

  /** The listener with its history: ids ever used, what became of each, and what Accept returned. */
  datatype Tracked = Tracked(l: State, created: set<nat>, outcomes: seq<(nat, Outcome)>, accepted: seq<nat>)

  function Start(macs: Macs): Tracked {
    Tracked(NewState(macs), {}, [], [])
  }

  /** Session ids are fresh. */
  function Step(t: Tracked, e: Event): Tracked {
    match e
    case Handshake(id, shared, at) =>
      if id in t.created then t else t.(l := AddPending(t.l, id, shared, at), created := t.created + {id})
    case Auth(id, payload) =>
      var (l, more) := HandleAuth(t.l, id, payload); t.(l := l, outcomes := t.outcomes + more)
    case Packet(id, at) => t.(l := HandlePacket(t.l, id, at))
    case CleanPending(order, at) =>
      var (l, more) := ExpirePending(t.l, order, at); t.(l := l, outcomes := t.outcomes + more)
    case CleanSessions(at) => t.(l := ExpireSessions(t.l, at))
    case DoAccept(eof) =>
      var (l, result) := Accept(t.l, eof);
      t.(l := l, accepted := t.accepted + if result.Accepted? then [result.id] else [])
    case DoClose => t.(l := Close(t.l))
  }

  function Run(macs: Macs, events: seq<Event>): Tracked {
    if events == [] then Start(macs) else Step(Run(macs, events[..|events| - 1]), events[|events| - 1])
  }

  // ---------- the invariant ----------

  predicate HasOutcome(outcomes: seq<(nat, Outcome)>, id: nat) {
    exists i :: 0 <= i < |outcomes| && outcomes[i].0 == id
  }

  /** The ids that were authenticated, in order. */
  function AuthenticatedIds(outcomes: seq<(nat, Outcome)>): seq<nat> {
    if outcomes == [] then []
    else
      var (id, o) := outcomes[|outcomes| - 1];
      AuthenticatedIds(outcomes[..|outcomes| - 1]) + if o.Authenticated? then [id] else []
  }

  function OfferIds(offer: Offer): seq<nat> {
    if offer.Offering? then [offer.id] else []
  }

  /** Everything offered so far, in order: returned by Accept, queued, being offered. */
  function Offered(t: Tracked): seq<nat> {
    t.accepted + t.l.acceptCh + OfferIds(t.l.offer)
  }

  ghost predicate CountInv(l: State) {
    l.pendingCount == |l.pendingAuth|
  }

  /** Every id that was created is pending, or has exactly one outcome. */
  ghost predicate OutcomesInv(pending: set<nat>, created: set<nat>, outcomes: seq<(nat, Outcome)>) {
    && (forall id :: id in created <==> id in pending || HasOutcome(outcomes, id))
    && (forall id :: id in pending ==> !HasOutcome(outcomes, id))
    && (forall i, j :: 0 <= i < j < |outcomes| ==> outcomes[i].0 != outcomes[j].0)
  }

  ghost predicate SessionsOk(sessions: map<nat, int>, ids: seq<nat>) {
    forall id :: id in sessions ==> id in ids
  }

  /** Everything, or everything but the last. */
  ghost predicate AllButOne(offered: seq<nat>, ids: seq<nat>) {
    offered == ids || (ids != [] && offered == ids[..|ids| - 1])
  }

  /**
   Sessions are offered in the order they were authenticated, each once; until Close, all of
   them, and after it all but the one that was being offered.
   */
  ghost predicate OffersInv(t: Tracked) {
    var ids := AuthenticatedIds(t.outcomes);
    && Offered(t) <= ids
    && (!t.l.closed ==> Offered(t) == ids)
    && (t.l.closed ==> t.l.offer.NoOffer? && AllButOne(Offered(t), ids))
    && |t.l.acceptCh| <= 16 && (t.l.offer.Offering? ==> |t.l.acceptCh| == 16)
  }

  ghost predicate Inv(macs: Macs, t: Tracked) {
    && t.l.macs == macs
    && CountInv(t.l)
    && OutcomesInv(t.l.pendingAuth.Keys, t.created, t.outcomes)
    && SessionsOk(t.l.sessions, AuthenticatedIds(t.outcomes))
    && OffersInv(t)
  }

  lemma RemoveCounts(l: State, id: nat)
    requires CountInv(l) && id in l.pendingAuth
    ensures CountInv(RemovePending(l, id))
    ensures RemovePending(l, id).pendingAuth.Keys == l.pendingAuth.Keys - {id}
  {
    assert (l.pendingAuth - {id}).Keys == l.pendingAuth.Keys - {id};
    assert |(l.pendingAuth - {id}).Keys| == |l.pendingAuth.Keys| - 1;
  }

  /** A handshake keeps the count right exactly when its id is not pending already. */
  lemma AddCounts(l: State, id: nat, shared: Secret, now: int)
    requires CountInv(l)
    ensures CountInv(AddPending(l, id, shared, now)) <==> id !in l.pendingAuth
    ensures AddPending(l, id, shared, now).pendingAuth.Keys == l.pendingAuth.Keys + {id}
  {
    var l' := AddPending(l, id, shared, now);
    assert l'.pendingAuth.Keys == l.pendingAuth.Keys + {id};
    assert |l'.pendingAuth.Keys| == |l.pendingAuth.Keys| + if id in l.pendingAuth then 0 else 1;
  }

  lemma OutcomeSnoc(pending: set<nat>, created: set<nat>, outcomes: seq<(nat, Outcome)>, id: nat, o: Outcome)
    requires OutcomesInv(pending, created, outcomes) && id in pending
    ensures OutcomesInv(pending - {id}, created, outcomes + [(id, o)])
  {
    var outcomes' := outcomes + [(id, o)];
    forall j ensures HasOutcome(outcomes', j) <==> HasOutcome(outcomes, j) || j == id {
      if HasOutcome(outcomes, j) {
        var i :| 0 <= i < |outcomes| && outcomes[i].0 == j;
        assert outcomes'[i].0 == j;
      }
      assert outcomes'[|outcomes|].0 == id;
    }
    forall i | 0 <= i < |outcomes| ensures outcomes[i].0 != id {
      assert !HasOutcome(outcomes, id);
    }
  }

  lemma AuthenticatedSnoc(outcomes: seq<(nat, Outcome)>, id: nat, o: Outcome)
    ensures AuthenticatedIds(outcomes + [(id, o)]) ==
            if o.Authenticated? then AuthenticatedIds(outcomes) + [id] else AuthenticatedIds(outcomes)
  {
    assert (outcomes + [(id, o)])[..|outcomes|] == outcomes;
    assert AuthenticatedIds(outcomes) + [] == AuthenticatedIds(outcomes);
  }

  lemma HandshakeKeeps(macs: Macs, t: Tracked, id: nat, shared: Secret, at: int)
    requires Inv(macs, t)
    ensures Inv(macs, Step(t, Handshake(id, shared, at)))
  {
    AddCounts(t.l, id, shared, at);
  }

  lemma RejectKeeps(macs: Macs, t: Tracked, id: nat, o: Outcome)
    requires Inv(macs, t) && id in t.l.pendingAuth && !o.Authenticated?
    ensures Inv(macs, t.(l := DropPending(t.l, id), outcomes := t.outcomes + [(id, o)]))
  {
    RemoveCounts(t.l, id);
    OutcomeSnoc(t.l.pendingAuth.Keys, t.created, t.outcomes, id, o);
    AuthenticatedSnoc(t.outcomes, id, o);
  }

  lemma OfferKeeps(t: Tracked, l1: State, id: nat, o: Outcome)
    requires OffersInv(t) && !t.l.closed && t.l.offer.NoOffer? && o.Authenticated?
    requires l1.acceptCh == t.l.acceptCh && l1.offer == t.l.offer && l1.closed == t.l.closed
    ensures OffersInv(t.(l := OfferSession(l1, id), outcomes := t.outcomes + [(id, o)]))
  {
    var t' := t.(l := OfferSession(l1, id), outcomes := t.outcomes + [(id, o)]);
    AuthenticatedSnoc(t.outcomes, id, o);
    assert Offered(t) == t.accepted + t.l.acceptCh;
    assert Offered(t') == Offered(t) + [id];
  }

  lemma AcceptedAuthKeeps(macs: Macs, t: Tracked, id: nat, payload: seq<byte>)
    requires Inv(macs, t) && !t.l.closed && !t.l.offer.Offering? && id in t.l.pendingAuth
    requires payload == macs.client(t.l.pendingAuth[id].shared)
    ensures Inv(macs, Step(t, Auth(id, payload)))
  {
    var p := t.l.pendingAuth[id];
    var o := Authenticated(macs.server(p.shared));
    AcceptedAuthIs(t, id, payload);
    RemoveCounts(t.l, id);
    OutcomeSnoc(t.l.pendingAuth.Keys, t.created, t.outcomes, id, o);
    AuthenticatedSnoc(t.outcomes, id, o);
    OfferKeeps(t, RemovePending(t.l.(sessions := t.l.sessions[id := p.createdAt]), id), id, o);
  }

  /** Authentication takes the session out of the pending ones and offers it, and changes nothing else. */
  lemma AcceptedAuthIs(t: Tracked, id: nat, payload: seq<byte>)
    requires !t.l.closed && !t.l.offer.Offering? && id in t.l.pendingAuth
    requires payload == t.l.macs.client(t.l.pendingAuth[id].shared)
    ensures var p := t.l.pendingAuth[id];
            var l1 := RemovePending(t.l.(sessions := t.l.sessions[id := p.createdAt]), id);
            var t' := Step(t, Auth(id, payload));
            && t' == t.(l := OfferSession(l1, id), outcomes := t.outcomes + [(id, Authenticated(t.l.macs.server(p.shared)))])
            && t'.l.macs == t.l.macs && t'.l.sessions == t.l.sessions[id := p.createdAt] && t'.l.shut == t.l.shut
            && t'.l.pendingAuth == RemovePending(t.l, id).pendingAuth && t'.l.pendingCount == RemovePending(t.l, id).pendingCount
  {
  }

  /** The first id of the walk, then the rest. */
  lemma ExpireUnfold(t: Tracked, order: seq<nat>, now: int)
    requires order != []
    ensures var id := order[0];
            Step(t, CleanPending(order, now)) ==
            if id in t.l.pendingAuth && Expired(t.l.pendingAuth[id], now)
            then Step(t.(l := DropPending(t.l, id), outcomes := t.outcomes + [(id, TimedOut)]), CleanPending(order[1..], now))
            else Step(t, CleanPending(order[1..], now))
  {
    var id := order[0];
    if id in t.l.pendingAuth && Expired(t.l.pendingAuth[id], now) {
      var more := ExpirePending(DropPending(t.l, id), order[1..], now).1;
      assert t.outcomes + ([(id, TimedOut)] + more) == (t.outcomes + [(id, TimedOut)]) + more;
    }
  }

  lemma {:induction false} ExpireKeeps(macs: Macs, t: Tracked, order: seq<nat>, now: int)
    requires Inv(macs, t)
    ensures Inv(macs, Step(t, CleanPending(order, now)))
    decreases |order|
  {
    if order == [] {
      assert t.outcomes + [] == t.outcomes;
    } else {
      var id := order[0];
      ExpireUnfold(t, order, now);
      if id in t.l.pendingAuth && Expired(t.l.pendingAuth[id], now) {
        RejectKeeps(macs, t, id, TimedOut);
        ExpireKeeps(macs, t.(l := DropPending(t.l, id), outcomes := t.outcomes + [(id, TimedOut)]), order[1..], now);
      } else {
        ExpireKeeps(macs, t, order[1..], now);
      }
    }
  }

  lemma AcceptKeeps(macs: Macs, t: Tracked, eof: bool)
    requires Inv(macs, t)
    ensures Inv(macs, Step(t, DoAccept(eof)))
  {
    AcceptOffers(t, eof);
  }

  lemma AcceptOffers(t: Tracked, eof: bool)
    requires t.l.offer.Offering? ==> |t.l.acceptCh| == ACCEPT_CAPACITY
    ensures Offered(Step(t, DoAccept(eof))) == Offered(t)
  {
    if t.l.acceptCh == [] || (t.l.closed && eof) {
      assert t.accepted + [] == t.accepted;
    } else {
      TakeFirst(t.accepted, t.l.acceptCh, OfferIds(t.l.offer));
    }
  }

  lemma TakeFirst(accepted: seq<nat>, queued: seq<nat>, held: seq<nat>)
    requires queued != []
    ensures accepted + [queued[0]] + (queued[1..] + held) + [] == accepted + queued + held
    ensures accepted + [queued[0]] + queued[1..] + held == accepted + queued + held
  {
    assert queued == [queued[0]] + queued[1..];
  }

  lemma CloseOffers(t: Tracked)
    requires OffersInv(t)
    ensures OffersInv(Step(t, DoClose))
  {
    var t' := Step(t, DoClose);
    assert Offered(t) == Offered(t') + OfferIds(t.l.offer);
    assert t.l.offer.NoOffer? ==> Offered(t) == Offered(t');
  }

  lemma StepKeeps(macs: Macs, t: Tracked, e: Event)
    requires Inv(macs, t)
    ensures Inv(macs, Step(t, e))
  {
    match e
    case Handshake(id, shared, at) => HandshakeKeeps(macs, t, id, shared, at);
    case Auth(id, payload) =>
      if t.l.closed || t.l.offer.Offering? || id !in t.l.pendingAuth {
        assert t.outcomes + [] == t.outcomes;
      } else if payload != macs.client(t.l.pendingAuth[id].shared) {
        RejectKeeps(macs, t, id, Rejected);
      } else {
        AcceptedAuthKeeps(macs, t, id, payload);
      }
    case Packet(id, at) =>
    case CleanPending(order, at) => ExpireKeeps(macs, t, order, at);
    case CleanSessions(at) =>
    case DoAccept(eof) => AcceptKeeps(macs, t, eof);
    case DoClose => CloseOffers(t);
  }

  lemma {:induction false} RunInv(macs: Macs, events: seq<Event>)
    ensures Inv(macs, Run(macs, events))
  {
    if events != [] {
      RunInv(macs, events[..|events| - 1]);
      StepKeeps(macs, Run(macs, events[..|events| - 1]), events[|events| - 1]);
    }
  }

  // ---------- the results ----------

  /** The counter is the number of pending sessions, in every run. */
  lemma PendingCountIsExact(macs: Macs, events: seq<Event>)
    ensures var l := Run(macs, events).l; l.pendingCount == |l.pendingAuth|
  {
    RunInv(macs, events);
  }

  /** Every session leaves pending once: it is pending still, or it has exactly one outcome. */
  lemma OneOutcome(macs: Macs, events: seq<Event>, id: nat)
    requires id in Run(macs, events).created
    ensures var t := Run(macs, events);
            && (id in t.l.pendingAuth <==> !HasOutcome(t.outcomes, id))
            && (forall i, j :: 0 <= i < |t.outcomes| && 0 <= j < |t.outcomes| && t.outcomes[i].0 == t.outcomes[j].0 == id ==> i == j)
  {
    RunInv(macs, events);
  }

  // ---------- where a session is ----------

  /** Every session that was created is pending, in the table, or closed by the listener, and only one of these. */
  ghost predicate OneOf(created: set<nat>, pending: set<nat>, sessions: set<nat>, shut: set<nat>) {
    && created == pending + sessions + shut
    && pending !! sessions && pending !! shut && sessions !! shut
  }

  ghost predicate PlacesInv(l: State, created: set<nat>) {
    OneOf(created, l.pendingAuth.Keys, l.sessions.Keys, l.shut)
  }

  lemma DropPlaces(l: State, created: set<nat>, id: nat)
    requires PlacesInv(l, created) && id in l.pendingAuth
    ensures PlacesInv(DropPending(l, id), created)
  {
    assert DropPending(l, id).pendingAuth.Keys == l.pendingAuth.Keys - {id};
  }

  lemma HandshakePlaces(l: State, created: set<nat>, id: nat, shared: Secret, at: int)
    requires PlacesInv(l, created) && id !in created
    ensures PlacesInv(AddPending(l, id, shared, at), created + {id})
  {
    assert AddPending(l, id, shared, at).pendingAuth.Keys == l.pendingAuth.Keys + {id};
  }

  lemma AuthPlaces(l: State, created: set<nat>, id: nat, payload: seq<byte>)
    requires PlacesInv(l, created)
    ensures PlacesInv(HandleAuth(l, id, payload).0, created)
  {
    if !l.closed && l.offer.NoOffer? && id in l.pendingAuth {
      if payload != l.macs.client(l.pendingAuth[id].shared) {
        DropPlaces(l, created, id);
      } else {
        var l' := HandleAuth(l, id, payload).0;
        assert l'.pendingAuth.Keys == l.pendingAuth.Keys - {id};
        assert l'.sessions.Keys == l.sessions.Keys + {id} && l'.shut == l.shut;
      }
    }
  }

  lemma {:induction false} ExpirePlaces(l: State, created: set<nat>, order: seq<nat>, now: int)
    requires PlacesInv(l, created)
    ensures PlacesInv(ExpirePending(l, order, now).0, created)
    decreases |order|
  {
    if order != [] {
      var id := order[0];
      if id in l.pendingAuth && Expired(l.pendingAuth[id], now) {
        DropPlaces(l, created, id);
        ExpirePlaces(DropPending(l, id), created, order[1..], now);
      } else {
        ExpirePlaces(l, created, order[1..], now);
      }
    }
  }

  lemma InactivePlaces(l: State, created: set<nat>, now: int)
    requires PlacesInv(l, created)
    ensures PlacesInv(ExpireSessions(l, now), created)
  {
    var gone := set id | id in l.sessions && Inactive(l.sessions[id], now);
    assert ExpireSessions(l, now).sessions.Keys == l.sessions.Keys - gone;
  }

  lemma StepPlaces(t: Tracked, e: Event)
    requires PlacesInv(t.l, t.created)
    ensures PlacesInv(Step(t, e).l, Step(t, e).created)
  {
    match e
    case Handshake(id, shared, at) =>
      if id !in t.created {
        HandshakePlaces(t.l, t.created, id, shared, at);
      }
    case Auth(id, payload) => AuthPlaces(t.l, t.created, id, payload);
    case Packet(id, at) =>
      assert HandlePacket(t.l, id, at).sessions.Keys == t.l.sessions.Keys;
    case CleanPending(order, at) => ExpirePlaces(t.l, t.created, order, at);
    case CleanSessions(at) => InactivePlaces(t.l, t.created, at);
    case DoAccept(eof) =>
    case DoClose =>
  }

  /** In every run every session is in exactly one place. */
  lemma {:induction false} OnePlace(macs: Macs, events: seq<Event>)
    ensures PlacesInv(Run(macs, events).l, Run(macs, events).created)
  {
    if events != [] {
      OnePlace(macs, events[..|events| - 1]);
      StepPlaces(Run(macs, events[..|events| - 1]), events[|events| - 1]);
    }
  }

  // ---------- what caused an outcome ----------

  /** The secret and time of the first handshake for every id, from the events alone. */
  function Agreed(events: seq<Event>): map<nat, Pending> {
    if events == [] then map[]
    else
      var before, e := Agreed(events[..|events| - 1]), events[|events| - 1];
      if e.Handshake? && e.id !in before then before[e.id := Pending(e.shared, e.at)] else before
  }

  ghost predicate FirstHandshake(events: seq<Event>, k: nat, id: nat, p: Pending) {
    && k < |events| && events[k] == Handshake(id, p.shared, p.createdAt)
    && forall j :: 0 <= j < k ==> !(events[j].Handshake? && events[j].id == id)
  }

  /** What is agreed with an id is what its first handshake gave, and nothing else. */
  lemma {:induction false} AgreedIsFirst(events: seq<Event>, id: nat)
    ensures id in Agreed(events) ==> exists k: nat :: FirstHandshake(events, k, id, Agreed(events)[id])
    ensures id !in Agreed(events) ==> forall j :: 0 <= j < |events| ==> !(events[j].Handshake? && events[j].id == id)
  {
    if events != [] {
      var init, e := events[..|events| - 1], events[|events| - 1];
      AgreedIsFirst(init, id);
      if id in Agreed(init) {
        var k: nat :| FirstHandshake(init, k, id, Agreed(init)[id]);
        assert FirstHandshake(events, k, id, Agreed(events)[id]);
      } else if e.Handshake? && e.id == id {
        assert FirstHandshake(events, |init|, id, Pending(e.shared, e.at));
      }
    }
  }

  /** Event e, coming after `before` was agreed, is a cause for outcome o of session id. */
  ghost predicate Causes(macs: Macs, before: map<nat, Pending>, e: Event, id: nat, o: Outcome) {
    && id in before
    && match o
       case Authenticated(done) => e == Auth(id, macs.client(before[id].shared)) && done == macs.server(before[id].shared)
       case Rejected => e.Auth? && e.id == id && e.payload != macs.client(before[id].shared)
       case TimedOut => e.CleanPending? && id in e.order && e.at - before[id].createdAt > 30_000_000_000
  }

  ghost predicate Caused(macs: Macs, events: seq<Event>, id: nat, o: Outcome) {
    exists k :: 0 <= k < |events| && Causes(macs, Agreed(events[..k]), events[k], id, o)
  }

  /** All outcomes so far have a cause, and what is pending is what was agreed. */
  ghost predicate CausesInv(macs: Macs, events: seq<Event>, t: Tracked) {
    && t.l.macs == macs
    && t.created == Agreed(events).Keys
    && PendingAgreed(t.l.pendingAuth, Agreed(events))
    && AllCaused(macs, events, t.outcomes)
  }

  ghost predicate PendingAgreed(pending: map<nat, Pending>, agreed: map<nat, Pending>) {
    forall id :: id in pending ==> id in agreed && pending[id] == agreed[id]
  }

  ghost predicate AllCaused(macs: Macs, events: seq<Event>, outcomes: seq<(nat, Outcome)>) {
    forall i :: 0 <= i < |outcomes| ==> Caused(macs, events, outcomes[i].0, outcomes[i].1)
  }

  lemma CausedLater(macs: Macs, events: seq<Event>, e: Event, id: nat, o: Outcome)
    requires Caused(macs, events, id, o)
    ensures Caused(macs, events + [e], id, o)
  {
    var k :| 0 <= k < |events| && Causes(macs, Agreed(events[..k]), events[k], id, o);
    var all := events + [e];
    assert all[..k] == events[..k] && all[k] == events[k];
  }

  lemma CausedNow(macs: Macs, events: seq<Event>, e: Event, id: nat, o: Outcome)
    requires Causes(macs, Agreed(events), e, id, o)
    ensures Caused(macs, events + [e], id, o)
  {
    var all := events + [e];
    assert all[..|events|] == events && all[|events|] == e;
  }

  lemma AllCausedNext(macs: Macs, events: seq<Event>, e: Event, outcomes: seq<(nat, Outcome)>, more: seq<(nat, Outcome)>)
    requires AllCaused(macs, events, outcomes)
    requires forall i :: 0 <= i < |more| ==> Causes(macs, Agreed(events), e, more[i].0, more[i].1)
    ensures AllCaused(macs, events + [e], outcomes + more)
  {
    var all := outcomes + more;
    forall i | 0 <= i < |all| ensures Caused(macs, events + [e], all[i].0, all[i].1) {
      if i < |outcomes| {
        CausedLater(macs, events, e, all[i].0, all[i].1);
      } else {
        CausedNow(macs, events, e, more[i - |outcomes|].0, more[i - |outcomes|].1);
      }
    }
  }

  lemma AgreedSnoc(events: seq<Event>, e: Event)
    ensures var before := Agreed(events);
            Agreed(events + [e]) ==
            if e.Handshake? && e.id !in before then before[e.id := Pending(e.shared, e.at)] else before
  {
    assert (events + [e])[..|events|] == events;
  }

  /** The walk times out only pending sessions that are too old, and touches no other pending session. */
  lemma {:induction false} ExpireOutcomes(l: State, order: seq<nat>, now: int)
    ensures var (l', more) := ExpirePending(l, order, now);
            && l'.macs == l.macs
            && (forall id :: id in l'.pendingAuth ==> id in l.pendingAuth && l'.pendingAuth[id] == l.pendingAuth[id])
            && (forall i :: 0 <= i < |more| ==>
                  && more[i].1.TimedOut? && more[i].0 in order
                  && more[i].0 in l.pendingAuth && Expired(l.pendingAuth[more[i].0], now))
    decreases |order|
  {
    if order != [] {
      var id := order[0];
      if id in l.pendingAuth && Expired(l.pendingAuth[id], now) {
        ExpireOutcomes(DropPending(l, id), order[1..], now);
      } else {
        ExpireOutcomes(l, order[1..], now);
      }
    }
  }

  /** The outcomes that one event adds, each with its cause. */
  lemma StepCauses(macs: Macs, events: seq<Event>, t: Tracked, e: Event) returns (more: seq<(nat, Outcome)>)
    requires CausesInv(macs, events, t)
    ensures Step(t, e).outcomes == t.outcomes + more
    ensures forall i :: 0 <= i < |more| ==> Causes(macs, Agreed(events), e, more[i].0, more[i].1)
    ensures PendingAgreed(Step(t, e).l.pendingAuth, Agreed(events + [e]))
    ensures Step(t, e).l.macs == macs && Step(t, e).created == Agreed(events + [e]).Keys
  {
    AgreedSnoc(events, e);
    assert t.outcomes + [] == t.outcomes;
    match e
    case Auth(id, payload) => more := HandleAuth(t.l, id, payload).1;
    case CleanPending(order, at) =>
      ExpireOutcomes(t.l, order, at);
      more := ExpirePending(t.l, order, at).1;
    case _ => more := [];
  }

  lemma {:induction false} RunCauses(macs: Macs, events: seq<Event>)
    ensures CausesInv(macs, events, Run(macs, events))
  {
    if events != [] {
      var init, e := events[..|events| - 1], events[|events| - 1];
      RunCauses(macs, init);
      var t := Run(macs, init);
      var more := StepCauses(macs, init, t, e);
      AllCausedNext(macs, init, e, t.outcomes, more);
      assert init + [e] == events;
    }
  }

  /**
   Every outcome has its cause among the packets and cleanup calls: an AUTH packet with
   the MAC of the secret agreed in that session's handshake, an AUTH packet with anything
   else, or a cleanup more than 30 s after the handshake.
   */
  lemma {:induction false} OutcomesAreCaused(macs: Macs, events: seq<Event>)
    ensures AllCaused(macs, events, Run(macs, events).outcomes)
    ensures Run(macs, events).created == Agreed(events).Keys
  {
    RunCauses(macs, events);
  }

  /**
   An AUTH packet decides a pending session of an open listener that offers nothing: it
   is authenticated exactly when the payload is the MAC of the secret of its handshake.
   */
  lemma {:induction false} AuthDecides(macs: Macs, events: seq<Event>, id: nat, payload: seq<byte>)
    requires var l := Run(macs, events).l; id in l.pendingAuth && !l.closed && l.offer.NoOffer?
    ensures id in Agreed(events)
    ensures var t, t' := Run(macs, events), Step(Run(macs, events), Auth(id, payload));
            var shared := Agreed(events)[id].shared;
            t'.outcomes == t.outcomes +
              [(id, if payload == macs.client(shared) then Authenticated(macs.server(shared)) else Rejected)]
  {
    RunCauses(macs, events);
  }

  /** An AUTH packet with the MAC of the secret of the session's own handshake came after that handshake. */
  ghost predicate Verified(macs: Macs, events: seq<Event>, id: nat) {
    exists k :: 0 <= k < |events| && id in Agreed(events[..k])
                && events[k] == Auth(id, macs.client(Agreed(events[..k])[id].shared))
  }

  lemma CausedIsVerified(macs: Macs, events: seq<Event>, id: nat, o: Outcome)
    requires Caused(macs, events, id, o) && o.Authenticated?
    ensures Verified(macs, events, id)
  {
    var k :| 0 <= k < |events| && Causes(macs, Agreed(events[..k]), events[k], id, o);
    assert events[k] == Auth(id, macs.client(Agreed(events[..k])[id].shared));
  }

  lemma {:induction false} AuthenticatedIsVerified(macs: Macs, events: seq<Event>, outcomes: seq<(nat, Outcome)>)
    requires AllCaused(macs, events, outcomes)
    ensures forall id :: id in AuthenticatedIds(outcomes) ==> Verified(macs, events, id)
  {
    if outcomes != [] {
      var init, last := outcomes[..|outcomes| - 1], outcomes[|outcomes| - 1];
      AuthenticatedIsVerified(macs, events, init);
      if last.1.Authenticated? {
        CausedIsVerified(macs, events, last.0, last.1);
      }
    }
  }

  ghost predicate Distinct(ids: seq<nat>) {
    forall i, j :: 0 <= i < j < |ids| ==> ids[i] != ids[j]
  }

  lemma DistinctSnoc(ids: seq<nat>, id: nat)
    requires Distinct(ids) && id !in ids
    ensures Distinct(ids + [id])
  {
  }

  lemma {:induction false} AuthenticatedOnce(outcomes: seq<(nat, Outcome)>)
    requires forall i, j :: 0 <= i < j < |outcomes| ==> outcomes[i].0 != outcomes[j].0
    ensures Distinct(AuthenticatedIds(outcomes))
    ensures forall id :: id in AuthenticatedIds(outcomes) ==> HasOutcome(outcomes, id)
  {
    if outcomes != [] {
      var init, last := outcomes[..|outcomes| - 1], outcomes[|outcomes| - 1];
      AuthenticatedOnce(init);
      var ids := AuthenticatedIds(init);
      forall id | id in ids ensures id != last.0 && HasOutcome(outcomes, id) {
        assert HasOutcome(init, id);
        var i :| 0 <= i < |init| && init[i].0 == id;
        assert outcomes[i].0 == id && outcomes[|init|].0 == last.0;
      }
      assert outcomes[|init|].0 == last.0;
      DistinctSnoc(ids, last.0);
    }
  }

  /**
   Every session that frames are dispatched to, and every session offered to Accept, was
   sent the MAC of the secret of its own handshake; sessions are offered in the order they
   were authenticated and none twice; until Close, every authenticated session is offered,
   and after it all but at most the one that was being offered.
   */
  lemma {:induction false} OfferedWereVerified(macs: Macs, events: seq<Event>)
    ensures var t := Run(macs, events);
            && (forall id :: id in t.l.sessions ==> Verified(macs, events, id))
            && (forall id :: id in Offered(t) ==> Verified(macs, events, id))
            && Distinct(Offered(t))
            && (!t.l.closed ==> Offered(t) == AuthenticatedIds(t.outcomes))
            && (t.l.closed ==> t.l.offer.NoOffer? && AllButOne(Offered(t), AuthenticatedIds(t.outcomes)))
  {
    RunInv(macs, events);
    RunCauses(macs, events);
    var t := Run(macs, events);
    AuthenticatedIsVerified(macs, events, t.outcomes);
    AuthenticatedOnce(t.outcomes);
  }

  /** What cleanupPending leaves: exactly the entries of at most 30 s. */
  lemma {:induction false} ExpireExactly(l: State, order: seq<nat>, now: int)
    requires forall id :: id in l.pendingAuth ==> id in order
    ensures var l' := ExpirePending(l, order, now).0;
            l'.pendingAuth ==
              map id | id in l.pendingAuth && now - l.pendingAuth[id].createdAt <= 30_000_000_000 :: l.pendingAuth[id]
  {
    ExpireFrom(l, order, now);
  }

  /**
   A cleanup that walks over all pending sessions gives up and closes exactly those whose
   handshake was more than 30 s ago, and leaves the others pending.
   */
  lemma {:induction false} PendingTimeOut(macs: Macs, events: seq<Event>, order: seq<nat>, at: int, id: nat)
    requires var l := Run(macs, events).l; id in l.pendingAuth && forall j :: j in l.pendingAuth ==> j in order
    ensures var t, t' := Run(macs, events), Step(Run(macs, events), CleanPending(order, at));
            && id in Agreed(events)
            && var late := at - Agreed(events)[id].createdAt > 30_000_000_000;
               && (id in t'.l.pendingAuth <==> !late) && (id in t'.l.shut <==> late)
               && (HasOutcome(t'.outcomes, id) <==> late)
  {
    RunCauses(macs, events);
    ExpireExactly(Run(macs, events).l, order, at);
    var all := events + [CleanPending(order, at)];
    assert all[..|events|] == events;
    OneOutcome(macs, events, id);
    OneOutcome(macs, all, id);
    OnePlace(macs, events);
    OnePlace(macs, all);
    ExpireTouches(Run(macs, events).l, order, at);
  }

  lemma {:induction false} ExpireFrom(l: State, order: seq<nat>, now: int)
    ensures var l' := ExpirePending(l, order, now).0;
            l'.pendingAuth == map id | id in l.pendingAuth && !(id in order && Expired(l.pendingAuth[id], now)) :: l.pendingAuth[id]
    decreases |order|
  {
    if order != [] {
      var id := order[0];
      assert order == [id] + order[1..];
      if id in l.pendingAuth && Expired(l.pendingAuth[id], now) {
        ExpireFrom(DropPending(l, id), order[1..], now);
      } else {
        ExpireFrom(l, order[1..], now);
      }
    }
  }

  // ---------- activity ----------

  /** The read loop hands a packet of this session to it. */
  predicate Reaches(l: State, id: nat) {
    id in l.sessions && !l.closed && l.offer.NoOffer?
  }

  /** When a session was last heard of: its last packet that reached it, else its handshake. */
  function LastActive(macs: Macs, events: seq<Event>, id: nat): int
    requires id in Agreed(events)
  {
    var init, e := events[..|events| - 1], events[|events| - 1];
    if id !in Agreed(init) then Agreed(events)[id].createdAt
    else if e.Packet? && e.id == id && Reaches(Run(macs, init).l, id) then e.at
    else LastActive(macs, init, id)
  }

  /** A pending session was heard of at its handshake only; one in the table carries its last activity. */
  ghost predicate ActivityInv(macs: Macs, events: seq<Event>, t: Tracked) {
    && (forall id :: id in t.l.pendingAuth ==>
          id in Agreed(events) && t.l.pendingAuth[id].createdAt == LastActive(macs, events, id))
    && (forall id :: id in t.l.sessions ==> id in Agreed(events) && t.l.sessions[id] == LastActive(macs, events, id))
  }

  lemma LastActiveSnoc(macs: Macs, events: seq<Event>, e: Event, id: nat)
    requires id in Agreed(events + [e])
    ensures LastActive(macs, events + [e], id) ==
            if id !in Agreed(events) then Agreed(events + [e])[id].createdAt
            else if e.Packet? && e.id == id && Reaches(Run(macs, events).l, id) then e.at
            else LastActive(macs, events, id)
  {
    assert (events + [e])[..|events|] == events;
  }

  lemma StepActivity(macs: Macs, events: seq<Event>, e: Event)
    requires ActivityInv(macs, events, Run(macs, events))
    ensures ActivityInv(macs, events + [e], Step(Run(macs, events), e))
  {
    var t, t' := Run(macs, events), Step(Run(macs, events), e);
    RunInv(macs, events);
    RunCauses(macs, events);
    OnePlace(macs, events);
    AgreedSnoc(events, e);
    if e.CleanPending? {
      ExpireOutcomes(t.l, e.order, e.at);
      ExpireTouches(t.l, e.order, e.at);
    }
    forall id | id in t'.l.pendingAuth
      ensures id in Agreed(events + [e]) && t'.l.pendingAuth[id].createdAt == LastActive(macs, events + [e], id)
    {
      PendingActivity(macs, events, e, id);
    }
    forall id | id in t'.l.sessions
      ensures id in Agreed(events + [e]) && t'.l.sessions[id] == LastActive(macs, events + [e], id)
    {
      SessionActivity(macs, events, e, id);
    }
  }

  lemma {:induction false} ExpireTouches(l: State, order: seq<nat>, now: int)
    ensures ExpirePending(l, order, now).0.sessions == l.sessions
    decreases |order|
  {
    if order != [] {
      var id := order[0];
      ExpireTouches(if id in l.pendingAuth && Expired(l.pendingAuth[id], now) then DropPending(l, id) else l, order[1..], now);
    }
  }

  lemma PendingActivity(macs: Macs, events: seq<Event>, e: Event, id: nat)
    requires ActivityInv(macs, events, Run(macs, events)) && CausesInv(macs, events, Run(macs, events))
    requires PlacesInv(Run(macs, events).l, Run(macs, events).created)
    requires id in Step(Run(macs, events), e).l.pendingAuth
    ensures id in Agreed(events + [e])
    ensures Step(Run(macs, events), e).l.pendingAuth[id].createdAt == LastActive(macs, events + [e], id)
  {
    var t := Run(macs, events);
    AgreedSnoc(events, e);
    if e.CleanPending? {
      ExpireOutcomes(t.l, e.order, e.at);
    }
    assert id in t.l.pendingAuth ==> id !in t.l.sessions;
    LastActiveSnoc(macs, events, e, id);
  }

  lemma SessionActivity(macs: Macs, events: seq<Event>, e: Event, id: nat)
    requires ActivityInv(macs, events, Run(macs, events)) && CausesInv(macs, events, Run(macs, events))
    requires id in Step(Run(macs, events), e).l.sessions
    ensures id in Agreed(events + [e])
    ensures Step(Run(macs, events), e).l.sessions[id] == LastActive(macs, events + [e], id)
  {
    var t := Run(macs, events);
    AgreedSnoc(events, e);
    if e.CleanPending? {
      ExpireTouches(t.l, e.order, e.at);
    }
    LastActiveSnoc(macs, events, e, id);
  }

  lemma {:induction false} RunActivity(macs: Macs, events: seq<Event>)
    ensures ActivityInv(macs, events, Run(macs, events))
  {
    if events != [] {
      var init, e := events[..|events| - 1], events[|events| - 1];
      RunActivity(macs, init);
      StepActivity(macs, init, e);
      assert init + [e] == events;
    }
  }

  /**
   Cleanup closes exactly the sessions that were not heard of for more than five minutes,
   and leaves every other session, with its last activity, where it was.
   */
  lemma {:induction false} InactiveAreClosed(macs: Macs, events: seq<Event>, at: int)
    ensures var t, t' := Run(macs, events), Step(Run(macs, events), CleanSessions(at));
            && (forall id :: id in t.l.sessions ==> id in Agreed(events))
            && (forall id :: id in t.l.sessions ==>
                  (id in t'.l.sessions <==> at - LastActive(macs, events, id) <= 300_000_000_000))
            && (forall id :: id in t.l.sessions ==>
                  (id in t'.l.shut <==> at - LastActive(macs, events, id) > 300_000_000_000))
            && t'.l.sessions.Keys <= t.l.sessions.Keys && t'.l.shut <= t.l.shut + t.l.sessions.Keys
            && t'.l == t.l.(sessions := t'.l.sessions, shut := t'.l.shut)
  {
    RunActivity(macs, events);
    OnePlace(macs, events);
  }

  // ---------- the answers of Accept ----------

  /** When Accept waits, when it fails, and otherwise whose turn it is. */
  lemma AcceptAnswers(l: State, eof: bool)
    ensures var result := Accept(l, eof).1;
            && (result.NoneYet? <==> l.acceptCh == [] && !l.closed)
            && (result.ListenerClosed? <==> l.closed && (l.acceptCh == [] || eof))
            && (result.Accepted? ==> l.acceptCh != [] && result.id == l.acceptCh[0])
  {
  }

  // ---------- after Close ----------

  /** A closed listener stays closed and authenticates no session any more. */
  lemma {:induction false} NothingAfterClose(macs: Macs, events: seq<Event>, more: seq<Event>)
    requires Run(macs, events).l.closed
    ensures var t, t' := Run(macs, events), Run(macs, events + more);
            t'.l.closed && AuthenticatedIds(t'.outcomes) == AuthenticatedIds(t.outcomes)
  {
    if more == [] {
      assert events + more == events;
    } else {
      var init, e := more[..|more| - 1], more[|more| - 1];
      NothingAfterClose(macs, events, init);
      assert (events + more)[..|events + more| - 1] == events + init;
      StillClosed(Run(macs, events + init), e);
    }
  }

  lemma StillClosed(t: Tracked, e: Event)
    requires t.l.closed
    ensures Step(t, e).l.closed && AuthenticatedIds(Step(t, e).outcomes) == AuthenticatedIds(t.outcomes)
  {
    assert t.outcomes + [] == t.outcomes;
    if e.CleanPending? {
      ExpireStillClosed(t.l, e.order, e.at);
      NoneAuthenticated(t.outcomes, ExpirePending(t.l, e.order, e.at).1);
    }
  }

  lemma {:induction false} ExpireStillClosed(l: State, order: seq<nat>, now: int)
    ensures var (l', more) := ExpirePending(l, order, now);
            l'.closed == l.closed && forall i :: 0 <= i < |more| ==> more[i].1.TimedOut?
    decreases |order|
  {
    if order != [] {
      var id := order[0];
      ExpireStillClosed(if id in l.pendingAuth && Expired(l.pendingAuth[id], now) then DropPending(l, id) else l, order[1..], now);
    }
  }

  lemma {:induction false} NoneAuthenticated(outcomes: seq<(nat, Outcome)>, more: seq<(nat, Outcome)>)
    requires forall i :: 0 <= i < |more| ==> !more[i].1.Authenticated?
    ensures AuthenticatedIds(outcomes + more) == AuthenticatedIds(outcomes)
  {
    if more == [] {
      assert outcomes + more == outcomes;
    } else {
      var (id, o) := more[|more| - 1];
      NoneAuthenticated(outcomes, more[..|more| - 1]);
      assert outcomes + more == (outcomes + more[..|more| - 1]) + [(id, o)];
      AuthenticatedSnoc(outcomes + more[..|more| - 1], id, o);
    }
  }
}
