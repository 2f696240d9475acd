/**
 The API client's token refresh: when requests come back 401, one of them refreshes the access token while
 the others wait in a queue, and all are then sent again.

 Each event-loop turn is one step; responses and refresh results arrive in any order. The results hold over
 every run: how requests move, that every queued request is released exactly once by the refresh it waited
 on, that every run ends, and how often anything can be sent (a bound that some run attains).
 */
module TokenRefresh {
  import opened Optional
  import opened Sequences

  type Id = nat

  /** Where a request is: with the server, in the queue, waiting on its own refresh, or finished. */
  datatype Place = InFlight | Queued | Leading | Settled(ok: bool)

  /** `retried` is the flag `_retry`; `auth` says the url contains /auth/; `bearer` is its Authorization header. */
  datatype Request = Request(place: Place, retried: bool, auth: bool, bearer: Maybe<string>)

  /** A queue entry, with the number of the refresh it waits on. */
  datatype Waiting = Waiting(id: Id, refresh: nat)

  /** An entry released by the drain that ends refresh number `endedBy`. */
  datatype Release = Release(entry: Waiting, endedBy: nat, ok: bool)

  /** `outstanding` lists the requests whose refresh call has not come back; the last four fields only record what happened. */
  datatype State = State(
    isRefreshing: bool, queue: seq<Waiting>, token: Maybe<string>, requests: map<Id, Request>, outstanding: seq<Id>,
    sends: nat, refreshes: nat, joined: seq<Waiting>, released: seq<Release>)

  datatype Answer = Success | Unauthorized | OtherError | NoConfig

  datatype Event =
    | Send(id: Id, auth: bool)
    | Respond(id: Id, answer: Answer)
    | RefreshOk(leader: Id, newToken: string)
    | RefreshFail(leader: Id)

  const START := State(false, [], None, map[], [], 0, 0, [], [])

  predicate Enabled(s: State, e: Event)
  {
    match e
    case Send(id, _) => id !in s.requests
    case Respond(id, _) => id in s.requests && s.requests[id].place == InFlight
    case RefreshOk(leader, _) => leader in s.outstanding && leader in s.requests
    case RefreshFail(leader) => leader in s.outstanding && leader in s.requests
  }

  function QueueIds(q: seq<Waiting>): set<Id>
  {
    set w | w in q :: w.id
  }

  function ReleaseAll(q: seq<Waiting>, endedBy: nat, ok: bool): (r: seq<Release>)
    ensures |r| == |q| && forall i | 0 <= i < |q| :: r[i] == Release(q[i], endedBy, ok)
  {
    if q == [] then [] else [Release(q[0], endedBy, ok)] + ReleaseAll(q[1..], endedBy, ok)
  }

  function Without(ids: seq<Id>, id: Id): seq<Id>
  {
    if ids == [] then [] else if ids[0] == id then ids[1..] else [ids[0]] + Without(ids[1..], id)
  }

  /** A released request: sent again with the new token, or rejected. */
  function Resent(r: Request, token: Maybe<string>): Request
  {
    if token.Some? then r.(place := InFlight, bearer := token) else r.(place := Settled(false))
  }

  /** The requests after a drain of the queue. */
  function Drained(requests: map<Id, Request>, q: seq<Waiting>, token: Maybe<string>): map<Id, Request>
  {
    map id | id in requests :: if id in QueueIds(q) then Resent(requests[id], token) else requests[id]
  }

  function Step(s: State, e: Event): State
    requires Enabled(s, e)
  {
    match e
    case Send(id, auth) =>
      s.(requests := s.requests[id := Request(InFlight, false, auth, s.token)], sends := s.sends + 1)
    case Respond(id, answer) =>
      var r := s.requests[id];
      if answer == Success then s.(requests := s.requests[id := r.(place := Settled(true))])
      else if answer != Unauthorized || r.retried || r.auth then s.(requests := s.requests[id := r.(place := Settled(false))])
      else if s.isRefreshing then
        s.(requests := s.requests[id := r.(place := Queued)],
           queue := s.queue + [Waiting(id, s.refreshes)], joined := s.joined + [Waiting(id, s.refreshes)])
      else
        s.(requests := s.requests[id := r.(place := Leading, retried := true)],
           isRefreshing := true, outstanding := s.outstanding + [id], refreshes := s.refreshes + 1)
    case RefreshOk(leader, t) =>
      var requests := Drained(s.requests, s.queue, Some(t));
      s.(token := Some(t), queue := [], released := s.released + ReleaseAll(s.queue, s.refreshes, true),
         requests := requests[leader := requests[leader].(place := InFlight, bearer := Some(t))],
         sends := s.sends + |s.queue| + 1, isRefreshing := false, outstanding := Without(s.outstanding, leader))
    case RefreshFail(leader) =>
      var requests := Drained(s.requests, s.queue, None);
      s.(token := None, queue := [], released := s.released + ReleaseAll(s.queue, s.refreshes, false),
         requests := requests[leader := requests[leader].(place := Settled(false))],
         isRefreshing := false, outstanding := Without(s.outstanding, leader))
  }

  // ---- The client's module variables and handlers ----------------------------------------

  class ApiClient {
    var isRefreshing: bool
    var refreshQueue: seq<Waiting>
    var token: Maybe<string>
    var requests: map<Id, Request>
    var outstanding: seq<Id>
    var sends: nat
    var refreshes: nat
    var joined: seq<Waiting>
    var released: seq<Release>

    ghost function Now(): State
      reads this
    {
      State(isRefreshing, refreshQueue, token, requests, outstanding, sends, refreshes, joined, released)
    }

    constructor ()
      ensures Now() == START
    {
      isRefreshing, refreshQueue, token, requests, outstanding := false, [], None, map[], [];
      sends, refreshes, joined, released := 0, 0, [], [];
    }

    /** A call of `apiClient`, through the request interceptor, which attaches the stored token if there is one. */
    method Dispatch(id: Id, auth: bool)
      requires Enabled(Now(), Send(id, auth))
      modifies this
      ensures Now() == Step(old(Now()), Send(id, auth))
    {
      var bearer := None;
      if token.Some? {
        bearer := token;
      }
      requests := requests[id := Request(InFlight, false, auth, bearer)];
      sends := sends + 1;
    }

    method OnResponse(id: Id, answer: Answer)
      requires Enabled(Now(), Respond(id, answer))
      modifies this
      ensures Now() == Step(old(Now()), Respond(id, answer))
    {
      var original := requests[id];
      if answer == Success {
        requests := requests[id := original.(place := Settled(true))];
        return;
      }
      if answer == NoConfig || answer != Unauthorized || original.retried || original.auth {
        requests := requests[id := original.(place := Settled(false))];
        return;
      }
      if isRefreshing {
        refreshQueue := refreshQueue + [Waiting(id, refreshes)];
        joined := joined + [Waiting(id, refreshes)];
        requests := requests[id := original.(place := Queued)];
        return;
      }
      requests := requests[id := original.(place := Leading, retried := true)];
      isRefreshing := true;
      outstanding := outstanding + [id];
      refreshes := refreshes + 1;
    }

    /** One callback of the queue: the request is sent again with the token, or rejected. */
    method ReleaseEntry(w: Waiting, newToken: Maybe<string>)
      requires w.id in requests
      modifies `requests, `sends, `released
      ensures Now() == Released(old(Now()), w, newToken)
    {
      if newToken.Some? {
        requests := requests[w.id := requests[w.id].(bearer := newToken, place := InFlight)];
        sends := sends + 1;
      } else {
        requests := requests[w.id := requests[w.id].(place := Settled(false))];
      }
      released := released + [Release(w, refreshes, newToken.Some?)];
    }

    /** `drainQueue`: every waiting request, in order. */
    method DrainQueue(newToken: Maybe<string>)
      requires QueueIds(refreshQueue) <= requests.Keys
      modifies `refreshQueue, `requests, `sends, `released
      ensures refreshQueue == []
      ensures requests == Drained(old(requests), old(refreshQueue), newToken)
      ensures released == old(released) + ReleaseAll(old(refreshQueue), refreshes, newToken.Some?)
      ensures sends == old(sends) + if newToken.Some? then |old(refreshQueue)| else 0
    {
      DrainStarts(Now(), newToken);
      ghost var start := Now();
      var i := 0;
      while i < |refreshQueue|
        invariant 0 <= i <= |start.queue| && Now() == PartDrained(start, i, newToken)
      {
        DrainOneMore(start, i, newToken);
        ReleaseEntry(refreshQueue[i], newToken);
        i := i + 1;
      }
      DrainEnds(start, newToken);
      refreshQueue := [];
    }

    method OnRefreshOk(leader: Id, newToken: string)
      requires Enabled(Now(), RefreshOk(leader, newToken)) && QueueIds(refreshQueue) <= requests.Keys
      modifies this
      ensures Now() == Step(old(Now()), RefreshOk(leader, newToken))
    {
      token := Some(newToken);
      DrainQueue(Some(newToken));
      requests := requests[leader := requests[leader].(bearer := Some(newToken), place := InFlight)];
      sends := sends + 1;
      isRefreshing := false;
      outstanding := Without(outstanding, leader);
    }

    method OnRefreshFail(leader: Id)
      requires Enabled(Now(), RefreshFail(leader)) && QueueIds(refreshQueue) <= requests.Keys
      modifies this
      ensures Now() == Step(old(Now()), RefreshFail(leader))
    {
      DrainQueue(None);
      token := None;
      requests := requests[leader := requests[leader].(place := Settled(false))];
      isRefreshing := false;
      outstanding := Without(outstanding, leader);
    }
  }

  /** The client after one callback of the queue. */
  function Released(s: State, w: Waiting, token: Maybe<string>): State
    requires w.id in s.requests
  {
    s.(requests := s.requests[w.id := Resent(s.requests[w.id], token)],
       released := s.released + [Release(w, s.refreshes, token.Some?)],
       sends := s.sends + if token.Some? then 1 else 0)
  }

  /** The client when the first `i` entries of the queue have been released. */
  ghost function PartDrained(s: State, i: nat, token: Maybe<string>): State
    requires i <= |s.queue|
  {
    s.(requests := Drained(s.requests, s.queue[..i], token),
       released := s.released + ReleaseAll(s.queue[..i], s.refreshes, token.Some?),
       sends := s.sends + if token.Some? then i else 0)
  }

  lemma DrainStarts(s: State, token: Maybe<string>)
    ensures PartDrained(s, 0, token) == s
  {
  }

  /** Resending or rejecting twice would be the same as once, so a repeated entry would do no harm. */
  lemma DrainedOneMore(requests: map<Id, Request>, q: seq<Waiting>, i: nat, token: Maybe<string>)
    requires i < |q| && q[i].id in requests
    ensures var before := Drained(requests, q[..i], token);
      Drained(requests, q[..i + 1], token) == before[q[i].id := Resent(before[q[i].id], token)]
  {
    assert QueueIds(q[..i + 1]) == QueueIds(q[..i]) + {q[i].id};
  }

  lemma ReleaseOneMore(q: seq<Waiting>, i: nat, endedBy: nat, ok: bool)
    requires i < |q|
    ensures ReleaseAll(q[..i + 1], endedBy, ok) == ReleaseAll(q[..i], endedBy, ok) + [Release(q[i], endedBy, ok)]
  {
  }

  lemma DrainOneMore(s: State, i: nat, token: Maybe<string>)
    requires i < |s.queue| && QueueIds(s.queue) <= s.requests.Keys
    ensures var t := PartDrained(s, i, token); var w := s.queue[i];
      && w.id in t.requests
      && PartDrained(s, i + 1, token) == Released(t, w, token)
  {
    assert s.queue[i].id in QueueIds(s.queue);
    DrainedOneMore(s.requests, s.queue, i, token);
    ReleaseOneMore(s.queue, i, s.refreshes, token.Some?);
    Assoc(s.released, ReleaseAll(s.queue[..i], s.refreshes, token.Some?), [Release(s.queue[i], s.refreshes, token.Some?)]);
  }

  lemma DrainEnds(s: State, token: Maybe<string>)
    ensures PartDrained(s, |s.queue|, token) ==
      s.(requests := Drained(s.requests, s.queue, token),
         released := s.released + ReleaseAll(s.queue, s.refreshes, token.Some?),
         sends := s.sends + if token.Some? then |s.queue| else 0)
  {
    assert s.queue[..|s.queue|] == s.queue;
  }

  // ---- What every step keeps --------------------------------------------------------------

  /** At most one refresh is out, and the queue is only used while it is. */
  predicate OneRefresh(s: State)
  {
    && |s.outstanding| <= 1
    && (s.isRefreshing <==> |s.outstanding| == 1)
    && (s.queue != [] ==> s.isRefreshing)
  }

  /** Every request is in one place: queued ones are in the queue once, the leader is the one whose refresh is out. */
  predicate OnePlaceEach(s: State)
  {
    && (forall i, j | 0 <= i < j < |s.queue| :: s.queue[i].id != s.queue[j].id)
    && (forall w | w in s.queue :: w.id in s.requests)
    && (forall id | id in s.outstanding :: id in s.requests)
    && (forall id | id in s.requests :: s.requests[id].place == Queued <==> id in QueueIds(s.queue))
    && (forall id | id in s.requests :: s.requests[id].place == Leading <==> id in s.outstanding)
  }

  /** Waiting requests have not been retried and wait on the refresh that is out; the leader has been retried. */
  predicate RetryFlags(s: State)
  {
    && (forall w | w in s.queue :: w.id in s.requests && !s.requests[w.id].retried && w.refresh == s.refreshes)
    && (forall id | id in s.outstanding :: id in s.requests && s.requests[id].retried)
    && |RetriedIds(s)| == s.refreshes
  }

  function RetriedIds(s: State): set<Id>
  {
    set id | id in s.requests && s.requests[id].retried
  }

  function Entries(rs: seq<Release>): (q: seq<Waiting>)
    ensures |q| == |rs| && forall i | 0 <= i < |rs| :: q[i] == rs[i].entry
  {
    seq(|rs|, i requires 0 <= i < |rs| => rs[i].entry)
  }

  /** What joined the queue is what was released, in order, followed by what is still waiting: no entry is lost or released
      twice; and each was released by the refresh it waited on. */
  predicate ReleasedOnce(s: State)
  {
    && s.joined == Entries(s.released) + s.queue
    && (forall r | r in s.released :: r.endedBy == r.entry.refresh)
  }

  /** Sends so far never exceed what the refreshes so far can have caused; the one that is out has caused none yet. */
  predicate SendsBounded(s: State)
  {
    s.refreshes <= |s.requests| && s.sends <= Bound(|s.requests|, if s.isRefreshing then s.refreshes - 1 else s.refreshes)
  }

  /** Sends possible with `n` requests and `r` refreshes: the k-th refresh resends its leader and requests not yet retried. */
  function Bound(n: int, r: int): int
    decreases r
  {
    if r <= 0 then n else Bound(n, r - 1) + (n - r + 1)
  }

  predicate Inv(s: State)
  {
    OneRefresh(s) && OnePlaceEach(s) && RetryFlags(s) && ReleasedOnce(s) && SendsBounded(s)
  }

  lemma StartInv()
    ensures Inv(START)
  {
    assert RetriedIds(START) == {};
  }

  lemma {:induction false} BoundMoreRequests(n: int, r: int)
    ensures Bound(n + 1, r) == Bound(n, r) + 1 + if r > 0 then r else 0
    decreases r
  {
    if r > 0 { BoundMoreRequests(n, r - 1); }
  }

  lemma QueueFits(s: State)
    requires OnePlaceEach(s) && RetryFlags(s)
    ensures |s.queue| + s.refreshes <= |s.requests|
  {
    DistinctIds(s.queue);
    var all := QueueIds(s.queue) + RetriedIds(s);
    assert QueueIds(s.queue) * RetriedIds(s) == {};
    assert |all| == |s.queue| + s.refreshes;
    assert all <= s.requests.Keys;
    SubsetSize(all, s.requests.Keys);
  }

  lemma {:induction false} DistinctIds(q: seq<Waiting>)
    requires forall i, j | 0 <= i < j < |q| :: q[i].id != q[j].id
    ensures |QueueIds(q)| == |q|
  {
    if q != [] {
      DistinctIds(q[1..]);
      assert QueueIds(q) == {q[0].id} + QueueIds(q[1..]) by {
        forall w | w in q ensures w == q[0] || w in q[1..] {
          var i :| 0 <= i < |q| && q[i] == w;
          if i > 0 { assert q[1..][i - 1] == w; }
        }
      }
    }
  }

  lemma {:induction false} SubsetSize<T>(a: set<T>, b: set<T>)
    requires a <= b
    ensures |a| <= |b|
  {
    if a != {} {
      var x :| x in a;
      SubsetSize(a - {x}, b - {x});
    }
  }

  lemma SendKeepsInv(s: State, id: Id, auth: bool)
    requires Inv(s) && Enabled(s, Send(id, auth))
    ensures Inv(Step(s, Send(id, auth)))
  {
    var s' := Step(s, Send(id, auth));
    assert RetriedIds(s') == RetriedIds(s);
    BoundMoreRequests(|s.requests|, if s.isRefreshing then s.refreshes - 1 else s.refreshes);
  }

  /** A response that finishes its request. */
  lemma SettleKeepsInv(s: State, id: Id, ok: bool)
    requires Inv(s) && id in s.requests && s.requests[id].place == InFlight
    ensures Inv(s.(requests := s.requests[id := s.requests[id].(place := Settled(ok))]))
  {
    var s' := s.(requests := s.requests[id := s.requests[id].(place := Settled(ok))]);
    assert RetriedIds(s') == RetriedIds(s);
    assert s'.requests.Keys == s.requests.Keys;
    assert |s'.requests| == |s.requests|;
  }

  lemma JoinKeepsInv(s: State, id: Id)
    requires Inv(s) && id in s.requests && s.requests[id].place == InFlight && !s.requests[id].retried && s.isRefreshing
    ensures Inv(s.(requests := s.requests[id := s.requests[id].(place := Queued)],
                   queue := s.queue + [Waiting(id, s.refreshes)], joined := s.joined + [Waiting(id, s.refreshes)]))
  {
    var s' := s.(requests := s.requests[id := s.requests[id].(place := Queued)],
                 queue := s.queue + [Waiting(id, s.refreshes)], joined := s.joined + [Waiting(id, s.refreshes)]);
    assert id !in QueueIds(s.queue);
    assert RetriedIds(s') == RetriedIds(s);
    assert QueueIds(s'.queue) == QueueIds(s.queue) + {id};
    assert s'.requests.Keys == s.requests.Keys;
    assert |s'.requests| == |s.requests|;
    assert OnePlaceEach(s');
    assert RetryFlags(s');
  }

  lemma LeadKeepsInv(s: State, id: Id)
    requires Inv(s) && id in s.requests && s.requests[id].place == InFlight && !s.requests[id].retried && !s.isRefreshing
    ensures Inv(s.(requests := s.requests[id := s.requests[id].(place := Leading, retried := true)],
                   isRefreshing := true, outstanding := s.outstanding + [id], refreshes := s.refreshes + 1))
  {
    var s' := s.(requests := s.requests[id := s.requests[id].(place := Leading, retried := true)],
                 isRefreshing := true, outstanding := s.outstanding + [id], refreshes := s.refreshes + 1);
    assert s.outstanding == [] && s.queue == [] && s'.outstanding == [id];
    assert id !in RetriedIds(s) && RetriedIds(s') == RetriedIds(s) + {id};
    assert s'.requests.Keys == s.requests.Keys;
    assert |s'.requests| == |s.requests|;
    SubsetSize(RetriedIds(s'), s'.requests.Keys);
    assert OnePlaceEach(s');
    assert RetryFlags(s');
  }

  lemma RefreshKeepsPlaces(s: State, e: Event)
    requires Inv(s) && Enabled(s, e) && (e.RefreshOk? || e.RefreshFail?)
    ensures OneRefresh(Step(s, e)) && OnePlaceEach(Step(s, e)) && Step(s, e).requests.Keys == s.requests.Keys
  {
    var s' := Step(s, e);
    assert s.outstanding == [e.leader];
    assert s'.outstanding == [];
    assert s'.requests.Keys == s.requests.Keys;
    assert QueueIds(s'.queue) == {};
    forall id | id in s'.requests ensures s'.requests[id].place != Queued && s'.requests[id].place != Leading {
      assert s.requests[id].place == Leading ==> id == e.leader;
    }
  }

  // ---- What each event does -----------------------------------------------------------------

  /** A new request is in flight with the stored token, counted once, and nothing else changes. */
  lemma SendOutcome(s: State, id: Id, auth: bool)
    requires Enabled(s, Send(id, auth))
    ensures var s' := Step(s, Send(id, auth));
      && s'.requests.Keys == s.requests.Keys + {id}
      && s'.requests[id].place == InFlight && !s'.requests[id].retried
      && s'.requests[id].auth == auth && s'.requests[id].bearer == s.token
      && (forall x | x in s.requests :: s'.requests[x] == s.requests[x])
      && s' == s.(requests := s'.requests, sends := s.sends + 1)
  {
  }

  /** A 401 that the client answers with a refresh: not to be given up, and not from the auth endpoints. */
  predicate Refreshable(r: Request, answer: Answer)
  {
    answer == Unauthorized && !r.retried && !r.auth
  }

  /**
   What a response does to its request: a good one is handed to the caller; a 401 not yet retried, and not from an auth
   endpoint, waits for the refresh that is out or starts one; any other failure is handed to the caller. No other
   request changes, nothing is sent and the token stays.
   */
  lemma ResponseOutcome(s: State, id: Id, answer: Answer)
    requires Enabled(s, Respond(id, answer))
    ensures var s', before := Step(s, Respond(id, answer)), s.requests[id];
      && s'.requests.Keys == s.requests.Keys
      && (s'.requests[id].place ==
            if answer == Success then Settled(true)
            else if !Refreshable(before, answer) then Settled(false)
            else if s.isRefreshing then Queued
            else Leading)
      && s'.requests[id].retried == (before.retried || (Refreshable(before, answer) && !s.isRefreshing))
      && s'.requests[id].auth == before.auth && s'.requests[id].bearer == before.bearer
      && (forall x | x in s.requests && x != id :: s'.requests[x] == s.requests[x])
    ensures var s', asked := Step(s, Respond(id, answer)), Refreshable(s.requests[id], answer);
      && s'.isRefreshing == (s.isRefreshing || asked)
      && s'.refreshes == s.refreshes + (if asked && !s.isRefreshing then 1 else 0)
      && s'.outstanding == s.outstanding + (if asked && !s.isRefreshing then [id] else [])
      && s'.queue == s.queue + (if asked && s.isRefreshing then [Waiting(id, s.refreshes)] else [])
      && s'.joined == s.joined + (if asked && s.isRefreshing then [Waiting(id, s.refreshes)] else [])
      && s'.token == s.token && s'.sends == s.sends && s'.released == s.released
  {
  }

  /**
   What a refresh does for those waiting on it: success sends each of them, and its leader, again with the new token;
   failure rejects them all; and in either case every other request is left alone.
   */
  lemma RefreshOutcome(s: State, e: Event, id: Id)
    requires Inv(s) && Enabled(s, e) && (e.RefreshOk? || e.RefreshFail?) && id in s.requests
    ensures Step(s, e).requests.Keys == s.requests.Keys
    ensures var before, after := s.requests[id], Step(s, e).requests[id];
      if before.place == Queued || before.place == Leading then
        && after.retried == (before.place == Leading) && after.auth == before.auth
        && (if e.RefreshOk? then after.place == InFlight && after.bearer == Some(e.newToken)
            else after.place == Settled(false) && after.bearer == before.bearer)
      else after == before
    ensures Step(s, e).queue == [] && !Step(s, e).isRefreshing
    ensures Step(s, e).token == if e.RefreshOk? then Some(e.newToken) else None
    ensures Step(s, e).sends == s.sends + if e.RefreshOk? then |s.queue| + 1 else 0
    ensures s.released <= Step(s, e).released
      && forall i | |s.released| <= i < |Step(s, e).released| :: Step(s, e).released[i].ok == e.RefreshOk?
  {
    assert s.outstanding == [e.leader];
    assert Step(s, e).requests.Keys == s.requests.Keys;
  }

  lemma EntriesOfReleased(rs: seq<Release>, q: seq<Waiting>, endedBy: nat, ok: bool)
    ensures Entries(rs + ReleaseAll(q, endedBy, ok)) == Entries(rs) + q
  {
    var l := Entries(rs + ReleaseAll(q, endedBy, ok));
    assert |l| == |rs| + |q|;
    assert forall i | 0 <= i < |l| :: l[i] == (Entries(rs) + q)[i];
  }

  lemma ReleasedByOwn(rs: seq<Release>, q: seq<Waiting>, endedBy: nat, ok: bool)
    requires forall r | r in rs :: r.endedBy == r.entry.refresh
    requires forall w | w in q :: w.refresh == endedBy
    ensures forall r | r in rs + ReleaseAll(q, endedBy, ok) :: r.endedBy == r.entry.refresh
  {
  }

  lemma RefreshReleases(s: State, e: Event)
    requires Inv(s) && Enabled(s, e) && (e.RefreshOk? || e.RefreshFail?)
    ensures ReleasedOnce(Step(s, e))
  {
    EntriesOfReleased(s.released, s.queue, s.refreshes, e.RefreshOk?);
    ReleasedByOwn(s.released, s.queue, s.refreshes, e.RefreshOk?);
  }

  lemma RefreshKeepsRetried(s: State, e: Event)
    requires Inv(s) && Enabled(s, e) && (e.RefreshOk? || e.RefreshFail?)
    ensures RetriedIds(Step(s, e)) == RetriedIds(s) && |Step(s, e).requests| == |s.requests|
  {
    RefreshKeepsPlaces(s, e);
    var s' := Step(s, e);
    assert forall id | id in s.requests :: s'.requests[id].retried == s.requests[id].retried;
  }

  lemma RefreshKeepsCounts(s: State, e: Event)
    requires Inv(s) && Enabled(s, e) && (e.RefreshOk? || e.RefreshFail?)
    ensures RetryFlags(Step(s, e)) && SendsBounded(Step(s, e))
  {
    RefreshKeepsRetried(s, e);
    RefreshKeepsPlaces(s, e);
    QueueFits(s);
    assert e.leader in RetriedIds(s) && s.refreshes >= 1;
  }

  lemma StepKeepsInv(s: State, e: Event)
    requires Inv(s) && Enabled(s, e)
    ensures Inv(Step(s, e))
  {
    match e {
      case Send(id, auth) => SendKeepsInv(s, id, auth);
      case Respond(id, answer) =>
        var r := s.requests[id];
        if answer == Success { SettleKeepsInv(s, id, true); }
        else if answer != Unauthorized || r.retried || r.auth { SettleKeepsInv(s, id, false); }
        else if s.isRefreshing { JoinKeepsInv(s, id); }
        else { LeadKeepsInv(s, id); }
      case _ => RefreshKeepsPlaces(s, e); RefreshReleases(s, e); RefreshKeepsCounts(s, e);
    }
  }

  // ---- Over whole runs --------------------------------------------------------------------

  predicate ValidRun(s: State, run: seq<Event>)
    decreases |run|
  {
    run == [] || (Enabled(s, run[0]) && ValidRun(Step(s, run[0]), run[1..]))
  }

  function Run(s: State, run: seq<Event>): State
    requires ValidRun(s, run)
    decreases |run|
  {
    if run == [] then s else Run(Step(s, run[0]), run[1..])
  }

  lemma {:induction false} RunKeepsInv(s: State, run: seq<Event>)
    requires Inv(s) && ValidRun(s, run)
    ensures Inv(Run(s, run))
    decreases |run|
  {
    if run != [] {
      StepKeepsInv(s, run[0]);
      RunKeepsInv(Step(s, run[0]), run[1..]);
    }
  }

  lemma {:induction false} BoundMonotone(n: int, r: int, m: int)
    requires r <= m <= n
    ensures Bound(n, r) <= Bound(n, m)
    decreases m - r
  {
    if r < m { BoundMonotone(n, r, m - 1); }
  }

  lemma {:induction false} BoundClosed(n: int, r: nat)
    ensures 2 * Bound(n, r) == 2 * n + r * (2 * n - r + 1)
  {
    if r > 0 { BoundClosed(n, r - 1); }
  }

  lemma BoundAllRefreshes(n: nat)
    ensures 2 * Bound(n, n) == 2 * n + n * (n + 1)
  {
    BoundClosed(n, n);
    assert 2 * n - n + 1 == n + 1;
  }

  /** The counts of a whole run: with N requests, at most N refreshes and at most N + N(N+1)/2 sends, in any interleaving. */
  lemma SendsAndRefreshes(run: seq<Event>)
    requires ValidRun(START, run)
    ensures
      var s, n := Run(START, run), |Run(START, run).requests|;
      s.refreshes <= n && 2 * s.sends <= 2 * n + n * (n + 1)
  {
    StartInv();
    RunKeepsInv(START, run);
    var s := Run(START, run);
    var n := |s.requests|;
    BoundMonotone(n, if s.isRefreshing then s.refreshes - 1 else s.refreshes, n);
    BoundAllRefreshes(n);
  }

  function InFlightIds(s: State): set<Id>
  {
    set id | id in s.requests && s.requests[id].place == InFlight
  }

  /** The decreasing measure, for runs of at most `n` requests: what is left to refresh, then where the requests are. */
  function Measure(s: State, n: int): int
  {
    (2 * n + 1) * (n - s.refreshes + if s.isRefreshing then 1 else 0)
    + 3 * (n - |s.requests|) + 2 * |InFlightIds(s)| + |s.queue|
  }

  lemma MeasureNonNegative(s: State, n: int)
    requires Inv(s) && |s.requests| <= n
    ensures Measure(s, n) >= 0
  {
    assert n - s.refreshes + (if s.isRefreshing then 1 else 0) >= 0;
    assert (2 * n + 1) * (n - s.refreshes + if s.isRefreshing then 1 else 0) >= 0;
  }

  lemma RefreshDecreases(s: State, e: Event, n: int)
    requires Inv(s) && Enabled(s, e) && (e.RefreshOk? || e.RefreshFail?) && |s.requests| <= n
    ensures Measure(Step(s, e), n) < Measure(s, n)
  {
    var s' := Step(s, e);
    RefreshKeepsPlaces(s, e);
    assert |s'.requests| == |s.requests|;
    SubsetSize(InFlightIds(s'), s'.requests.Keys);
    var k := n - s.refreshes;
    assert (2 * n + 1) * (k + 1) == (2 * n + 1) * k + (2 * n + 1);
  }

  lemma RespondDecreases(s: State, id: Id, answer: Answer, n: int)
    requires Inv(s) && Enabled(s, Respond(id, answer))
    ensures Measure(Step(s, Respond(id, answer)), n) < Measure(s, n)
  {
    var s' := Step(s, Respond(id, answer));
    assert s'.requests.Keys == s.requests.Keys;
    assert |s'.requests| == |s.requests|;
    assert InFlightIds(s') == InFlightIds(s) - {id};
    assert s'.refreshes > s.refreshes ==> s'.isRefreshing && !s.isRefreshing && s'.refreshes == s.refreshes + 1;
  }

  lemma SendCounts(s: State, id: Id, auth: bool)
    requires Enabled(s, Send(id, auth))
    ensures var s' := Step(s, Send(id, auth));
      |InFlightIds(s')| == |InFlightIds(s)| + 1 && |s'.requests| == |s.requests| + 1
  {
    var s' := Step(s, Send(id, auth));
    assert InFlightIds(s') == InFlightIds(s) + {id};
    assert s'.requests.Keys == s.requests.Keys + {id};
  }

  lemma SendDecreases(s: State, id: Id, auth: bool, n: int)
    requires Enabled(s, Send(id, auth))
    ensures Measure(Step(s, Send(id, auth)), n) < Measure(s, n)
  {
    SendCounts(s, id, auth);
  }

  /** Every step makes the measure smaller, whatever happens next. */
  lemma StepDecreases(s: State, e: Event, n: int)
    requires Inv(s) && Enabled(s, e) && |Step(s, e).requests| <= n
    ensures Measure(Step(s, e), n) < Measure(s, n)
  {
    match e {
      case Send(id, auth) => SendDecreases(s, id, auth, n);
      case Respond(id, answer) => RespondDecreases(s, id, answer, n);
      case _ =>
        RefreshKeepsRetried(s, e);
        RefreshDecreases(s, e, n);
    }
  }

  lemma {:induction false} RequestsOnlyGrow(s: State, run: seq<Event>)
    requires Inv(s) && ValidRun(s, run)
    ensures |s.requests| <= |Run(s, run).requests|
    decreases |run|
  {
    if run != [] {
      var s' := Step(s, run[0]);
      StepKeepsInv(s, run[0]);
      assert s.requests.Keys <= s'.requests.Keys;
      SubsetSize(s.requests.Keys, s'.requests.Keys);
      RequestsOnlyGrow(s', run[1..]);
    }
  }

  lemma {:induction false} RunShrinksMeasure(s: State, run: seq<Event>, n: int)
    requires Inv(s) && ValidRun(s, run) && |Run(s, run).requests| <= n
    ensures |run| + Measure(Run(s, run), n) <= Measure(s, n)
    decreases |run|
  {
    if run != [] {
      var s' := Step(s, run[0]);
      StepKeepsInv(s, run[0]);
      RequestsOnlyGrow(s', run[1..]);
      StepDecreases(s, run[0], n);
      RunShrinksMeasure(s', run[1..], n);
    }
  }

  /** Termination: a run of at most N requests has at most 2N^2 + 4N steps, even if every answer is a 401. */
  lemma RunsEnd(run: seq<Event>, n: int)
    requires ValidRun(START, run) && |Run(START, run).requests| <= n
    ensures |run| <= 2 * n * n + 4 * n
  {
    StartInv();
    RunShrinksMeasure(START, run, n);
    RunKeepsInv(START, run);
    MeasureNonNegative(Run(START, run), n);
    MeasureAtStart(n);
  }

  lemma MeasureAtStart(n: int)
    ensures Measure(START, n) == 2 * n * n + 4 * n
  {
  }

  /** No request is left hanging: when nothing is in flight and no refresh is out, every request has been answered. */
  lemma NothingLeftBehind(run: seq<Event>)
    requires ValidRun(START, run)
    requires forall e: Event | !e.Send? :: !Enabled(Run(START, run), e)
    ensures forall id | id in Run(START, run).requests :: Run(START, run).requests[id].place.Settled?
    ensures Entries(Run(START, run).released) == Run(START, run).joined
  {
    var s := Run(START, run);
    StartInv();
    RunKeepsInv(START, run);
    if s.outstanding != [] {
      assert Enabled(s, RefreshFail(s.outstanding[0]));
    }
    assert s.queue == [];
    forall id | id in s.requests ensures s.requests[id].place.Settled? {
      assert !Enabled(s, Respond(id, Success));
    }
  }

  // ---- The bound on sends is attained ----------------------------------------------------

  lemma {:induction false} RunConcat(s: State, a: seq<Event>, b: seq<Event>)
    requires ValidRun(s, a) && ValidRun(Run(s, a), b)
    ensures ValidRun(s, a + b) && Run(s, a + b) == Run(Run(s, a), b)
    decreases |a|
  {
    if a == [] {
      assert a + b == b;
    } else {
      RunConcat(Step(s, a[0]), a[1..], b);
      assert (a + b)[1..] == a[1..] + b;
    }
  }

  lemma RunOne(s: State, e: Event)
    requires Enabled(s, e)
    ensures ValidRun(s, [e]) && Run(s, [e]) == Step(s, e)
  {
  }

  /** Between refreshes, after `k` of them: requests before the last leader are finished, the rest are with the server. */
  ghost predicate AtRound(s: State, n: nat, k: nat)
  {
    && k <= n && !s.isRefreshing && s.queue == [] && s.outstanding == [] && s.refreshes == k && s.sends == Bound(n, k)
    && (forall id: Id :: id in s.requests <==> id < n)
    && (forall id | id in s.requests :: !s.requests[id].auth)
    && (forall id | id in s.requests :: s.requests[id].retried == (id < k))
    && (forall id | id in s.requests :: if id + 1 < k then s.requests[id].place.Settled? else s.requests[id].place == InFlight)
  }

  /** During refresh `k + 1`, led by request `k`, with the requests after it queued up to `j`. */
  ghost predicate MidRound(s: State, n: nat, k: nat, j: nat)
  {
    && k < j <= n && s.isRefreshing && s.outstanding == [k] && s.refreshes == k + 1 && s.sends == Bound(n, k)
    && |s.queue| == j - k - 1 && (forall i | 0 <= i < |s.queue| :: s.queue[i].id == k + 1 + i)
    && (forall id: Id :: id in s.requests <==> id < n)
    && (forall id | id in s.requests :: !s.requests[id].auth)
    && (forall id | id in s.requests :: s.requests[id].retried == (id <= k))
    && (forall id | id in s.requests :: s.requests[id].place ==
          if id < k then s.requests[id].place else if id == k then Leading else if id < j then Queued else InFlight)
    && (forall id | id in s.requests && id < k :: s.requests[id].place.Settled?)
  }

  lemma {:induction false} SendAll(s: State, n: nat, m: nat) returns (run: seq<Event>)
    requires AtRound(s, m, 0) && m <= n
    ensures ValidRun(s, run) && AtRound(Run(s, run), n, 0)
    decreases n - m
  {
    if m == n {
      run := [];
    } else {
      var e := Send(m, false);
      RunOne(s, e);
      var rest := SendAll(Step(s, e), n, m + 1);
      RunConcat(s, [e], rest);
      run := [e] + rest;
    }
  }

  lemma {:induction false} QueueTheRest(s: State, n: nat, k: nat, j: nat) returns (run: seq<Event>)
    requires MidRound(s, n, k, j)
    ensures ValidRun(s, run) && MidRound(Run(s, run), n, k, n)
    decreases n - j
  {
    if j == n {
      run := [];
    } else {
      var e := Respond(j, Unauthorized);
      RunOne(s, e);
      var rest := QueueTheRest(Step(s, e), n, k, j + 1);
      RunConcat(s, [e], rest);
      run := [e] + rest;
    }
  }

  lemma FinishRound(s: State, n: nat, k: nat)
    requires MidRound(s, n, k, n)
    ensures Enabled(s, RefreshOk(k, "token")) && AtRound(Step(s, RefreshOk(k, "token")), n, k + 1)
  {
    var s' := Step(s, RefreshOk(k, "token"));
    forall id | k < id < n ensures id in QueueIds(s.queue) {
      assert s.queue[id - k - 1].id == id;
    }
    assert forall w | w in s.queue :: k < w.id < n;
    assert s'.requests.Keys == s.requests.Keys;
    assert s'.sends == Bound(n, k + 1);
  }

  /** The previous leader's retry fails for good, then the next request leads. */
  lemma StartRound(s: State, n: nat, k: nat) returns (run: seq<Event>)
    requires AtRound(s, n, k) && k < n
    ensures ValidRun(s, run) && MidRound(Run(s, run), n, k, k + 1)
  {
    var lead := Respond(k, Unauthorized);
    if k == 0 {
      RunOne(s, lead);
      run := [lead];
    } else {
      var last := Respond(k - 1, Unauthorized);
      RunOne(s, last);
      var s1 := Step(s, last);
      RunOne(s1, lead);
      RunConcat(s, [last], [lead]);
      run := [last] + [lead];
    }
  }

  lemma {:induction false} AllRounds(s: State, n: nat, k: nat) returns (run: seq<Event>)
    requires AtRound(s, n, k)
    ensures ValidRun(s, run) && AtRound(Run(s, run), n, n)
    decreases n - k
  {
    if k == n {
      run := [];
    } else {
      var a := StartRound(s, n, k);
      var s1 := Run(s, a);
      var b := QueueTheRest(s1, n, k, k + 1);
      var s2 := Run(s1, b);
      FinishRound(s2, n, k);
      var e := RefreshOk(k, "token");
      RunOne(s2, e);
      var c := AllRounds(Step(s2, e), n, k + 1);
      RunConcat(s2, [e], c);
      RunConcat(s1, b, [e] + c);
      RunConcat(s, a, b + ([e] + c));
      run := a + (b + ([e] + c));
    }
  }

  /** For every N, some run of N requests refreshes N times and sends N + N(N+1)/2 times: the bound is exact. */
  lemma WorstCase(n: nat) returns (run: seq<Event>)
    ensures ValidRun(START, run)
    ensures |Run(START, run).requests| == n && Run(START, run).refreshes == n
    ensures 2 * Run(START, run).sends == 2 * n + n * (n + 1)
  {
    var a := SendAll(START, n, 0);
    var b := AllRounds(Run(START, a), n, 0);
    RunConcat(START, a, b);
    run := a + b;
    NatsBelow(Run(START, run).requests.Keys, n);
    BoundAllRefreshes(n);
  }

  lemma {:induction false} NatsBelow(ids: set<Id>, n: nat)
    requires forall id: Id :: id in ids <==> id < n
    ensures |ids| == n
  {
    if n > 0 {
      assert n - 1 in ids;
      NatsBelow(ids - {n - 1}, n - 1);
    } else {
      assert ids == {};
    }
  }
}
