/**
 SmartOLT alarm polling for one tenant: each OLT's current alarms are compared with the ids in one Redis
 key, new ones are handed to the event handler in a transaction each, and the key is overwritten.

 The key belongs to the tenant, not to the OLT. That keeps the guarantee that matters (no alarm is ever
 taken as known before it was handled) but not the intended one (no alarm is handed over twice); both are
 settled here.
 */
module AlarmPolling {
  import opened Optional

  type AlarmId = string

  /** A step that takes effect outside can raise before or after it did. */
  datatype Fate = Succeeds | RaisesBefore | RaisesAfter

  /** One OLT's turn: the HTTP answer, and what every later step does. `handler[i]` is the fate of handing over the i-th
      new alarm; from its length on they succeed. */
  datatype Turn = Turn(fetched: bool, listing: seq<AlarmId>, readRaises: bool, handler: seq<Fate>, write: Fate)

  /** The Redis key (absent, or a list of ids), the ids handled and committed so far, and every hand-over in order. */
  datatype State = State(cache: Maybe<seq<AlarmId>>, handled: set<AlarmId>, handovers: seq<AlarmId>)

  function Known(s: State): set<AlarmId>
  {
    if s.cache.None? then {} else set id | id in s.cache.value
  }

  function NewAlarms(listing: seq<AlarmId>, known: set<AlarmId>): (r: seq<AlarmId>)
    ensures forall id :: id in r <==> id in listing && id !in known
  {
    if listing == [] then []
    else (if listing[0] !in known then [listing[0]] else []) + NewAlarms(listing[1..], known)
  }

  function FateAt(fates: seq<Fate>, i: nat): Fate
  {
    if i < |fates| then fates[i] else Succeeds
  }

  // ---- The poller -------------------------------------------------------------------------

  class Poller {
    var cache: Maybe<seq<AlarmId>>
    var handled: set<AlarmId>
    var handovers: seq<AlarmId>

    ghost function Now(): State
      reads this
    {
      State(cache, handled, handovers)
    }

    /** One pass of the loop in `_poll_tenant`; an exception ends this OLT's turn and is logged. */
    method PollOlt(t: Turn)
      modifies this
      ensures Now() == AfterTurn(old(Now()), t)
    {
      if !t.fetched || t.readRaises {
        return;
      }
      var unseen := NewAlarms(t.listing, Known(State(cache, handled, handovers)));
      var i := 0;
      while i < |unseen|
        invariant 0 <= i <= |unseen| && cache == old(cache)
        invariant HandOver(old(Now()), unseen, t.handler, 0) == HandOver(Now(), unseen, t.handler, i)
      {
        var fate := FateAt(t.handler, i);
        if fate != RaisesBefore {
          handled := handled + {unseen[i]};
          handovers := handovers + [unseen[i]];
        }
        if fate != Succeeds {
          return;
        }
        i := i + 1;
      }
      if t.write != RaisesBefore {
        cache := Some(t.listing);
      }
    }
  }

  datatype Progress = Finished(state: State) | Stopped(state: State)

  /** Handing over the new alarms from the i-th on, one committed transaction each. */
  function HandOver(s: State, unseen: seq<AlarmId>, fates: seq<Fate>, i: nat): Progress
    requires i <= |unseen|
    decreases |unseen| - i
  {
    if i == |unseen| then Finished(s)
    else
      var fate := FateAt(fates, i);
      var s' := if fate == RaisesBefore then s
                else s.(handled := s.handled + {unseen[i]}, handovers := s.handovers + [unseen[i]]);
      if fate != Succeeds then Stopped(s') else HandOver(s', unseen, fates, i + 1)
  }

  function AfterTurn(s: State, t: Turn): State
  {
    if !t.fetched || t.readRaises then s
    else
      match HandOver(s, NewAlarms(t.listing, Known(s)), t.handler, 0)
      case Stopped(s') => s'
      case Finished(s') => if t.write == RaisesBefore then s' else s'.(cache := Some(t.listing))
  }

  /** The turn got through the whole listing. */
  predicate Processed(s: State, t: Turn)
  {
    t.fetched && !t.readRaises && HandOver(s, NewAlarms(t.listing, Known(s)), t.handler, 0).Finished?
  }

  // ---- One turn ---------------------------------------------------------------------------

  /** The positions, in order, of the listed ids that the key does not hold. */
  predicate Fresh(cache: Maybe<seq<AlarmId>>, listing: seq<AlarmId>, at: seq<nat>)
  {
    && (forall k | 0 <= k < |at| :: at[k] < |listing|)
    && (forall j, k | 0 <= j < k < |at| :: at[j] < at[k])
    && (forall i | 0 <= i < |listing| :: i in at <==> cache.None? || listing[i] !in cache.value)
  }

  /** The ids at the first `n` of these positions. */
  function IdsAt(listing: seq<AlarmId>, at: seq<nat>, n: nat): (r: seq<AlarmId>)
    requires n <= |at| && forall k | 0 <= k < |at| :: at[k] < |listing|
  {
    seq(n, k requires 0 <= k < n => listing[at[k]])
  }

  lemma FreshMore(cache: Maybe<seq<AlarmId>>, listing: seq<AlarmId>, at: seq<nat>, id: AlarmId)
    requires Fresh(cache, listing, at)
    ensures Fresh(cache, listing + [id], AndLast(cache, |listing|, at, id))
  {
    var longer, n := listing + [id], |listing|;
    assert n !in at;
    forall i | 0 <= i < |longer| ensures i in at + [n] <==> i in at || i == n {
      if i in at { assert (at + [n])[..|at|] == at; }
    }
    assert forall i | 0 <= i < n :: longer[i] == listing[i];
  }

  lemma {:induction false} NewAlarmsAppend(a: seq<AlarmId>, b: seq<AlarmId>, known: set<AlarmId>)
    ensures NewAlarms(a + b, known) == NewAlarms(a, known) + NewAlarms(b, known)
  {
    if a == [] {
      assert a + b == b;
    } else {
      assert (a + b)[1..] == a[1..] + b;
      NewAlarmsAppend(a[1..], b, known);
    }
  }

  lemma IdsAtMore(listing: seq<AlarmId>, at: seq<nat>, id: AlarmId)
    requires forall k | 0 <= k < |at| :: at[k] < |listing|
    ensures IdsAt(listing + [id], at, |at|) == IdsAt(listing, at, |at|)
    ensures IdsAt(listing + [id], at + [|listing|], |at| + 1) == IdsAt(listing, at, |at|) + [id]
  {
    var l, r := IdsAt(listing + [id], at, |at|), IdsAt(listing, at, |at|);
    assert forall k | 0 <= k < |at| :: l[k] == r[k];
    var more := IdsAt(listing + [id], at + [|listing|], |at| + 1);
    assert forall k | 0 <= k < |more| :: more[k] == (r + [id])[k];
  }

  lemma NewAlarmsLast(listing: seq<AlarmId>, id: AlarmId, known: set<AlarmId>)
    ensures NewAlarms(listing + [id], known) == NewAlarms(listing, known) + if id in known then [] else [id]
  {
    NewAlarmsAppend(listing, [id], known);
  }

  /** The positions with one more listed id. */
  function AndLast(cache: Maybe<seq<AlarmId>>, n: nat, at: seq<nat>, id: AlarmId): seq<nat>
  {
    if cache.None? || id !in cache.value then at + [n] else at
  }

  /** The positions are those of the listing's new alarms. */
  predicate NewAt(s: State, listing: seq<AlarmId>, at: seq<nat>)
  {
    Fresh(s.cache, listing, at) && NewAlarms(listing, Known(s)) == IdsAt(listing, at, |at|)
  }

  lemma NewAtMore(s: State, listing: seq<AlarmId>, at: seq<nat>, id: AlarmId)
    requires NewAt(s, listing, at)
    ensures NewAt(s, listing + [id], AndLast(s.cache, |listing|, at, id))
  {
    FreshMore(s.cache, listing, at, id);
    NewAlarmsLast(listing, id, Known(s));
    IdsAtMore(listing, at, id);
    assert id in Known(s) <==> s.cache.Some? && id in s.cache.value;
  }

  lemma {:induction false} NewAlarmsAt(s: State, listing: seq<AlarmId>) returns (at: seq<nat>)
    ensures NewAt(s, listing, at)
    decreases |listing|
  {
    at := [];
    if listing != [] {
      var before, id := listing[..|listing| - 1], listing[|listing| - 1];
      var at' := NewAlarmsAt(s, before);
      NewAtMore(s, before, at', id);
      assert before + [id] == listing;
      at := AndLast(s.cache, |before|, at', id);
    }
  }

  /** The hand-overs stop at number `k`, the first whose handler raises, or after all `n` of them. */
  predicate StopsAt(fates: seq<Fate>, n: nat, k: nat)
  {
    k <= n && (forall j | 0 <= j < k && j < |fates| :: fates[j].Succeeds?) && (k < n ==> k < |fates| && !fates[k].Succeeds?)
  }

  /** How many were handed over: a handler that raises after its commit counts. */
  function Handed(fates: seq<Fate>, n: nat, k: nat): nat
  {
    if k < n && k < |fates| && fates[k].RaisesAfter? then k + 1 else k
  }

  lemma {:induction false} HandOverStops(s: State, unseen: seq<AlarmId>, fates: seq<Fate>, i: nat) returns (k: nat)
    requires i <= |unseen| && forall j | 0 <= j < i && j < |fates| :: fates[j].Succeeds?
    ensures StopsAt(fates, |unseen|, k) && i <= k
    ensures var p, m := HandOver(s, unseen, fates, i), Handed(fates, |unseen|, k);
      && (p.Finished? <==> k == |unseen|) && p.state.cache == s.cache
      && p.state.handovers == s.handovers + unseen[i..m]
      && p.state.handled == s.handled + set id | id in unseen[i..m]
    decreases |unseen| - i
  {
    k := i;
    if i < |unseen| && FateAt(fates, i) == Succeeds {
      var s' := s.(handled := s.handled + {unseen[i]}, handovers := s.handovers + [unseen[i]]);
      k := HandOverStops(s', unseen, fates, i + 1);
      var m := Handed(fates, |unseen|, k);
      assert unseen[i..m] == [unseen[i]] + unseen[i + 1..m];
    }
  }

  /**
   One OLT's turn, whatever fails: of the listed ids that the key does not hold, those before the first handler that
   raises are handed over in the order of the listing, and that one too if it raises after its commit; the key becomes
   the listing exactly when no handler raises and the write happens.
   */
  lemma TurnEffect(s: State, t: Turn) returns (at: seq<nat>, k: nat)
    ensures Fresh(s.cache, t.listing, at) && StopsAt(t.handler, |at|, k)
    ensures !t.fetched || t.readRaises ==> AfterTurn(s, t) == s
    ensures t.fetched && !t.readRaises ==>
      var after, handed := AfterTurn(s, t), IdsAt(t.listing, at, Handed(t.handler, |at|, k));
      && after.handovers == s.handovers + handed
      && after.handled == s.handled + set id | id in handed
      && after.cache == if k == |at| && !t.write.RaisesBefore? then Some(t.listing) else s.cache
  {
    at := NewAlarmsAt(s, t.listing);
    var unseen := NewAlarms(t.listing, Known(s));
    k := HandOverStops(s, unseen, t.handler, 0);
    var m := Handed(t.handler, |at|, k);
    assert unseen[0..m] == IdsAt(t.listing, at, m);
  }

  // ---- At least once ----------------------------------------------------------------------

  /** Every id taken as known has been handled and committed. */
  predicate KnownAreHandled(s: State)
  {
    Known(s) <= s.handled
  }

  lemma {:induction false} HandOverEffect(s: State, unseen: seq<AlarmId>, fates: seq<Fate>, i: nat)
    requires i <= |unseen|
    ensures var p := HandOver(s, unseen, fates, i);
      && p.state.cache == s.cache && s.handled <= p.state.handled && s.handovers <= p.state.handovers
      && (p.Finished? ==> (forall id | id in unseen[i..] :: id in p.state.handled) && p.state.handovers == s.handovers + unseen[i..])
    decreases |unseen| - i
  {
    if i < |unseen| {
      var s' := s.(handled := s.handled + {unseen[i]}, handovers := s.handovers + [unseen[i]]);
      HandOverEffect(s', unseen, fates, i + 1);
      assert unseen[i..] == [unseen[i]] + unseen[i + 1..];
    }
  }

  lemma TurnKeepsHandled(s: State, t: Turn)
    requires KnownAreHandled(s)
    ensures KnownAreHandled(AfterTurn(s, t)) && s.handled <= AfterTurn(s, t).handled
    ensures Processed(s, t) ==> forall id | id in t.listing :: id in AfterTurn(s, t).handled
  {
    var unseen := NewAlarms(t.listing, Known(s));
    HandOverEffect(s, unseen, t.handler, 0);
    assert unseen[0..] == unseen;
  }

  /** Polls of any of the tenant's OLTs, with the key expiring whenever it likes. */
  datatype Event = Poll(turn: Turn) | Expire

  function Next(s: State, e: Event): State
  {
    match e
    case Poll(t) => AfterTurn(s, t)
    case Expire => s.(cache := None)
  }

  function After(s: State, run: seq<Event>): State
    decreases |run|
  {
    if run == [] then s else After(Next(s, run[0]), run[1..])
  }

  /** Over every run of polls, handler failures and expiries, a fully processed listing leaves no alarm unhandled. */
  lemma {:induction false} NoAlarmLost(s: State, run: seq<Event>, k: nat)
    requires KnownAreHandled(s) && k < |run|
    ensures KnownAreHandled(After(s, run))
    ensures run[k].Poll? && Processed(After(s, run[..k]), run[k].turn) ==>
      forall id | id in run[k].turn.listing :: id in After(s, run).handled
    decreases |run|
  {
    var s' := Next(s, run[0]);
    if run[0].Poll? { TurnKeepsHandled(s, run[0].turn); }
    RunKeepsHandled(s', run[1..]);
    if k == 0 {
      assert run[..0] == [];
    } else {
      assert run[..k][1..] == run[1..][..k - 1];
      NoAlarmLost(s', run[1..], k - 1);
    }
  }

  lemma {:induction false} RunKeepsHandled(s: State, run: seq<Event>)
    requires KnownAreHandled(s)
    ensures KnownAreHandled(After(s, run)) && s.handled <= After(s, run).handled
    decreases |run|
  {
    if run != [] {
      if run[0].Poll? { TurnKeepsHandled(s, run[0].turn); }
      RunKeepsHandled(Next(s, run[0]), run[1..]);
    }
  }

  // ---- Not once only ----------------------------------------------------------------------

  /** An OLT's turn when nothing goes wrong. */
  function Clean(listing: seq<AlarmId>): Turn
  {
    Turn(true, listing, false, [], Succeeds)
  }

  lemma CleanTurn(s: State, listing: seq<AlarmId>)
    ensures AfterTurn(s, Clean(listing)).cache == Some(listing)
    ensures AfterTurn(s, Clean(listing)).handovers == s.handovers + NewAlarms(listing, Known(s))
  {
    var unseen := NewAlarms(listing, Known(s));
    AllSucceed(s, unseen, 0);
    HandOverEffect(s, unseen, [], 0);
    assert unseen[0..] == unseen;
  }

  lemma {:induction false} AllSucceed(s: State, unseen: seq<AlarmId>, i: nat)
    requires i <= |unseen|
    ensures HandOver(s, unseen, [], i).Finished?
    decreases |unseen| - i
  {
    if i < |unseen| {
      AllSucceed(s.(handled := s.handled + {unseen[i]}, handovers := s.handovers + [unseen[i]]), unseen, i + 1);
    }
  }

  /** One polling cycle over the tenant's OLTs, all answering. */
  function Cycle(s: State, listings: seq<seq<AlarmId>>): State
    decreases |listings|
  {
    if listings == [] then s else Cycle(AfterTurn(s, Clean(listings[0])), listings[1..])
  }

  function Ids(listing: seq<AlarmId>): set<AlarmId>
  {
    set id | id in listing
  }

  /** Each OLT lists only alarms that the one polled just before it listed too; `before` stands in for the first. */
  predicate Descending(before: set<AlarmId>, listings: seq<seq<AlarmId>>)
    decreases |listings|
  {
    listings == [] || (Ids(listings[0]) <= before && Descending(Ids(listings[0]), listings[1..]))
  }

  lemma {:induction false} CycleHandovers(s: State, listings: seq<seq<AlarmId>>)
    ensures s.handovers <= Cycle(s, listings).handovers
    ensures Cycle(s, listings).handovers == s.handovers <==> Descending(Known(s), listings)
    ensures listings != [] ==> Cycle(s, listings).cache == Some(listings[|listings| - 1])
    decreases |listings|
  {
    if listings != [] {
      var first := listings[0];
      var s' := AfterTurn(s, Clean(first));
      CleanTurn(s, first);
      CycleHandovers(s', listings[1..]);
      assert Known(s') == Ids(first);
      if NewAlarms(first, Known(s)) == [] {
        assert forall id | id in first :: id !in NewAlarms(first, Known(s));
      } else {
        assert NewAlarms(first, Known(s))[0] in NewAlarms(first, Known(s));
        assert |Cycle(s, listings).handovers| >= |s'.handovers| > |s.handovers|;
      }
    }
  }

  lemma {:induction false} DescendingEnds(before: set<AlarmId>, listings: seq<seq<AlarmId>>, k: nat)
    requires Descending(before, listings) && k < |listings|
    ensures Ids(listings[|listings| - 1]) <= Ids(listings[k]) <= before
    decreases |listings|
  {
    if k > 0 {
      DescendingEnds(Ids(listings[0]), listings[1..], k - 1);
    } else if |listings| > 1 {
      DescendingEnds(Ids(listings[0]), listings[1..], |listings| - 2);
    }
  }

  lemma {:induction false} SameSetDescends(before: set<AlarmId>, listings: seq<seq<AlarmId>>)
    requires forall k | 0 <= k < |listings| :: Ids(listings[k]) == before
    ensures Descending(before, listings)
    decreases |listings|
  {
    if listings != [] { SameSetDescends(before, listings[1..]); }
  }

  /**
   When does a standing set of alarms stop being handed over? A second cycle in which every OLT still lists what it
   listed in the first is silent if and only if all the tenant's OLTs list the same alarms. One OLT always meets
   that; two OLTs with alarms of their own hand every one of them over again, cycle after cycle.
   */
  lemma SteadyCycleSilent(s: State, listings: seq<seq<AlarmId>>)
    requires listings != []
    ensures
      var once := Cycle(s, listings);
      Cycle(once, listings).handovers == once.handovers
      <==> forall i, j | 0 <= i < |listings| && 0 <= j < |listings| :: Ids(listings[i]) == Ids(listings[j])
  {
    var once, last := Cycle(s, listings), Ids(listings[|listings| - 1]);
    CycleHandovers(s, listings);
    CycleHandovers(once, listings);
    assert Known(once) == last;
    if Descending(last, listings) {
      forall k | 0 <= k < |listings| ensures Ids(listings[k]) == last {
        DescendingEnds(last, listings, k);
      }
    } else if forall i, j | 0 <= i < |listings| && 0 <= j < |listings| :: Ids(listings[i]) == Ids(listings[j]) {
      SameSetDescends(last, listings);
      assert false;
    }
  }

  /** The smallest case: two OLTs with one alarm each. */
  lemma TwoOltsRepeat()
    ensures
      var once := Cycle(State(None, {}, []), [["a"], ["b"]]);
      Cycle(once, [["a"], ["b"]]).handovers != once.handovers
  {
  }

  // ---- One alarm --------------------------------------------------------------------------

  /** Every OLT answers and nothing fails; the key may still expire in between. */
  predicate CleanRun(run: seq<Event>)
  {
    forall k | 0 <= k < |run| && run[k].Poll? :: run[k].turn == Clean(run[k].turn.listing)
  }

  predicate Lists(e: Event, id: AlarmId)
  {
    e.Poll? && id in e.turn.listing
  }

  /** How often the id occurs in the listings that come right after a poll without it, or an expiry. */
  function Comebacks(known: bool, run: seq<Event>, id: AlarmId): nat
    decreases |run|
  {
    if run == [] then 0
    else (if run[0].Poll? && !known then multiset(run[0].turn.listing)[id] else 0) + Comebacks(Lists(run[0], id), run[1..], id)
  }

  lemma {:induction false} NewOccurrences(listing: seq<AlarmId>, known: set<AlarmId>, id: AlarmId)
    ensures multiset(NewAlarms(listing, known))[id] == if id in known then 0 else multiset(listing)[id]
  {
    if listing != [] {
      NewOccurrences(listing[1..], known, id);
      assert listing == [listing[0]] + listing[1..];
    }
  }

  /** Over every clean run an alarm is handed over once for each occurrence in a listing it comes back in, and no other time. */
  lemma {:induction false} HandoversExact(s: State, run: seq<Event>, id: AlarmId)
    requires CleanRun(run)
    ensures multiset(After(s, run).handovers)[id] == multiset(s.handovers)[id] + Comebacks(id in Known(s), run, id)
    decreases |run|
  {
    if run != [] {
      var s' := Next(s, run[0]);
      HandoversExact(s', run[1..], id);
      if run[0].Poll? {
        var listing := run[0].turn.listing;
        assert run[0].turn == Clean(listing);
        CleanTurn(s, listing);
        NewOccurrences(listing, Known(s), id);
      }
    }
  }

  /** No poll without the id, and no expiry, comes between two polls that list it. */
  predicate Consecutive(run: seq<Event>, id: AlarmId)
  {
    forall i, j, k | 0 <= i < j < k < |run| && Lists(run[i], id) && Lists(run[k], id) :: Lists(run[j], id)
  }

  /** Once it is missing it stays missing. */
  predicate OnlyAtFirst(run: seq<Event>, id: AlarmId)
  {
    forall j, k | 0 <= j < k < |run| && Lists(run[k], id) :: Lists(run[j], id)
  }

  lemma {:induction false} NoComebackExactly(known: bool, run: seq<Event>, id: AlarmId)
    ensures Comebacks(known, run, id) == 0 <==>
      if known then OnlyAtFirst(run, id) else forall k | 0 <= k < |run| :: !Lists(run[k], id)
    decreases |run|
  {
    if run != [] {
      NoComebackExactly(Lists(run[0], id), run[1..], id);
      assert forall k | 1 <= k < |run| :: run[k] == run[1..][k - 1];
    }
  }

  lemma {:induction false} OneComebackExactly(run: seq<Event>, first: nat, id: AlarmId)
    requires first < |run| && Lists(run[first], id) && forall k | 0 <= k < first :: !Lists(run[k], id)
    ensures Comebacks(false, run, id) == 1 <==> Consecutive(run, id) && multiset(run[first].turn.listing)[id] == 1
    decreases |run|
  {
    var rest := run[1..];
    assert forall k | 1 <= k < |run| :: run[k] == rest[k - 1];
    if first == 0 {
      NoComebackExactly(true, rest, id);
      ConsecutiveFromFirst(run, id);
    } else {
      OneComebackExactly(rest, first - 1, id);
      ConsecutiveLater(run, id);
    }
  }

  lemma ConsecutiveFromFirst(run: seq<Event>, id: AlarmId)
    requires run != [] && Lists(run[0], id)
    ensures Consecutive(run, id) <==> OnlyAtFirst(run[1..], id)
  {
    var rest := run[1..];
    assert forall k | 0 <= k < |rest| :: rest[k] == run[k + 1];
    if OnlyAtFirst(rest, id) {
      forall i, j, k | 0 <= i < j < k < |run| && Lists(run[i], id) && Lists(run[k], id) ensures Lists(run[j], id) {
        assert Lists(rest[k - 1], id) && run[j] == rest[j - 1];
      }
    }
  }

  lemma ConsecutiveLater(run: seq<Event>, id: AlarmId)
    requires run != [] && !Lists(run[0], id)
    ensures Consecutive(run, id) <==> Consecutive(run[1..], id)
  {
    var rest := run[1..];
    assert forall k | 0 <= k < |rest| :: rest[k] == run[k + 1];
    if Consecutive(rest, id) {
      forall i, j, k | 0 <= i < j < k < |run| && Lists(run[i], id) && Lists(run[k], id) ensures Lists(run[j], id) {
        assert Lists(rest[i - 1], id) && Lists(rest[k - 1], id) && run[j] == rest[j - 1];
      }
    }
  }

  /**
   Main result on once-only. In a clean run an alarm not known before is handed over exactly once if and only if the polls
   that list it, of whichever OLT, follow one another without another poll or an expiry in between, and the first of them
   lists it once.
   */
  lemma HandedOverOnceExactly(s: State, run: seq<Event>, first: nat, id: AlarmId)
    requires CleanRun(run) && id !in Known(s)
    requires first < |run| && Lists(run[first], id) && forall k | 0 <= k < first :: !Lists(run[k], id)
    ensures multiset(After(s, run).handovers)[id] == multiset(s.handovers)[id] + 1
       <==> Consecutive(run, id) && multiset(run[first].turn.listing)[id] == 1
  {
    HandoversExact(s, run, id);
    OneComebackExactly(run, first, id);
  }

  // ---- Every run --------------------------------------------------------------------------

  /** How many of the new alarms are handed over before a failure ends the turn: one whose hand-over raises late counts. */
  function Reached(fates: seq<Fate>, n: nat, i: nat): (r: nat)
    requires i <= n
    ensures i <= r <= n
    decreases n - i
  {
    if i == n || FateAt(fates, i) == RaisesBefore then i
    else if FateAt(fates, i) == RaisesAfter then i + 1
    else Reached(fates, n, i + 1)
  }

  /** The turn gets as far as writing the key: every new alarm was handed over without an exception. */
  predicate WritesKey(known: set<AlarmId>, t: Turn)
  {
    && t.fetched && !t.readRaises && t.write != RaisesBefore
    && forall i | 0 <= i < |NewAlarms(t.listing, known)| :: FateAt(t.handler, i) == Succeeds
  }

  /** What one turn hands over: a beginning of its new alarms. */
  function HandedOver(known: set<AlarmId>, t: Turn): seq<AlarmId>
  {
    if !t.fetched || t.readRaises then []
    else var unseen := NewAlarms(t.listing, known); unseen[..Reached(t.handler, |unseen|, 0)]
  }

  function KnownAfter(known: set<AlarmId>, e: Event): set<AlarmId>
  {
    if e.Expire? then {} else if WritesKey(known, e.turn) then Ids(e.turn.listing) else known
  }

  lemma HeadOf(s: seq<AlarmId>, i: nat, r: nat)
    requires i < r <= |s|
    ensures s[i..r] == [s[i]] + s[i + 1..r]
  {
  }

  lemma {:induction false} HandOverReaches(s: State, unseen: seq<AlarmId>, fates: seq<Fate>, i: nat)
    requires i <= |unseen|
    ensures var p := HandOver(s, unseen, fates, i);
      && p.state.cache == s.cache
      && p.state.handovers == s.handovers + unseen[i..Reached(fates, |unseen|, i)]
      && (p.Finished? <==> forall k | i <= k < |unseen| :: FateAt(fates, k) == Succeeds)
    decreases |unseen| - i
  {
    if i < |unseen| && FateAt(fates, i) != RaisesBefore {
      var s' := s.(handled := s.handled + {unseen[i]}, handovers := s.handovers + [unseen[i]]);
      if FateAt(fates, i) == Succeeds {
        HandOverReaches(s', unseen, fates, i + 1);
      }
      HeadOf(unseen, i, Reached(fates, |unseen|, i));
    }
  }

  /** One turn, whatever fails in it: what it hands over, and what is known afterwards. */
  lemma TurnExact(s: State, t: Turn)
    ensures AfterTurn(s, t).handovers == s.handovers + HandedOver(Known(s), t)
    ensures Known(AfterTurn(s, t)) == KnownAfter(Known(s), Poll(t))
  {
    if t.fetched && !t.readRaises {
      var unseen := NewAlarms(t.listing, Known(s));
      HandOverReaches(s, unseen, t.handler, 0);
      assert unseen[0..Reached(t.handler, |unseen|, 0)] == unseen[..Reached(t.handler, |unseen|, 0)];
    }
  }

  /** How often the id is handed over from a set of known ids on. */
  function Deliveries(known: set<AlarmId>, run: seq<Event>, id: AlarmId): nat
    decreases |run|
  {
    if run == [] then 0
    else
      var now := if run[0].Poll? then multiset(HandedOver(known, run[0].turn))[id] else 0;
      now + Deliveries(KnownAfter(known, run[0]), run[1..], id)
  }

  /** Over every run, whatever fails and expires, the hand-overs of an alarm are those of its turns, each a beginning of what
      was new to the ids last written. */
  lemma {:induction false} DeliveriesExact(s: State, run: seq<Event>, id: AlarmId)
    ensures multiset(After(s, run).handovers)[id] == multiset(s.handovers)[id] + Deliveries(Known(s), run, id)
    decreases |run|
  {
    if run != [] {
      if run[0].Poll? { TurnExact(s, run[0].turn); }
      DeliveriesExact(Next(s, run[0]), run[1..], id);
    }
  }

  /** The turn hands the id over. */
  predicate Hands(known: set<AlarmId>, e: Event, id: AlarmId)
  {
    e.Poll? && id in HandedOver(known, e.turn)
  }

  /** The ids known before the k-th event. */
  function KnownAt(known: set<AlarmId>, run: seq<Event>, k: nat): set<AlarmId>
    requires k <= |run|
    decreases |run|
  {
    if k == 0 then known else KnownAt(KnownAfter(known, run[0]), run[1..], k - 1)
  }

  /** No event from the given one on hands the id over. */
  predicate NoneFrom(known: set<AlarmId>, run: seq<Event>, first: nat, id: AlarmId)
  {
    forall k | first <= k < |run| :: !Hands(KnownAt(known, run, k), run[k], id)
  }

  /** Seen from one event on, the same events hand the id over. */
  lemma NoneFromNext(known: set<AlarmId>, run: seq<Event>, first: nat, id: AlarmId)
    requires run != []
    ensures NoneFrom(known, run, first + 1, id) <==> NoneFrom(KnownAfter(known, run[0]), run[1..], first, id)
  {
    var next, rest := KnownAfter(known, run[0]), run[1..];
    if NoneFrom(known, run, first + 1, id) {
      forall k | first <= k < |rest| ensures !Hands(KnownAt(next, rest, k), rest[k], id) {
        assert !Hands(KnownAt(known, run, k + 1), run[k + 1], id);
      }
    }
    if NoneFrom(next, rest, first, id) {
      forall k | first + 1 <= k < |run| ensures !Hands(KnownAt(known, run, k), run[k], id) {
        assert !Hands(KnownAt(next, rest, k - 1), rest[k - 1], id);
      }
    }
  }

  lemma {:induction false} NoDeliveryExactly(known: set<AlarmId>, run: seq<Event>, id: AlarmId)
    ensures Deliveries(known, run, id) == 0 <==> NoneFrom(known, run, 0, id)
    decreases |run|
  {
    if run != [] {
      NoDeliveryExactly(KnownAfter(known, run[0]), run[1..], id);
      NoneFromNext(known, run, 0, id);
      assert NoneFrom(known, run, 0, id) <==> !Hands(KnownAt(known, run, 0), run[0], id) && NoneFrom(known, run, 1, id);
    }
  }

  lemma {:induction false} OneDeliveryExactly(known: set<AlarmId>, run: seq<Event>, first: nat, id: AlarmId)
    requires first < |run| && Hands(KnownAt(known, run, first), run[first], id)
    requires forall k | 0 <= k < first :: !Hands(KnownAt(known, run, k), run[k], id)
    ensures Deliveries(known, run, id) == 1 <==>
      multiset(HandedOver(KnownAt(known, run, first), run[first].turn))[id] == 1 && NoneFrom(known, run, first + 1, id)
    decreases |run|
  {
    var next, rest := KnownAfter(known, run[0]), run[1..];
    NoneFromNext(known, run, first, id);
    if first == 0 {
      NoDeliveryExactly(next, rest, id);
    } else {
      assert !Hands(KnownAt(known, run, 0), run[0], id);
      forall k | 0 <= k < first - 1 ensures !Hands(KnownAt(next, rest, k), rest[k], id) {
        assert !Hands(KnownAt(known, run, k + 1), run[k + 1], id);
      }
      OneDeliveryExactly(next, rest, first - 1, id);
    }
  }

  /**
   Main result on once-only, for every run: an alarm first handed over by the turn `first` is handed over exactly once if
   and only if that turn hands it over once and no later turn, failed ones included, gets as far as handing it over.
   */
  lemma DeliveredOnceExactly(s: State, run: seq<Event>, first: nat, id: AlarmId)
    requires first < |run| && Hands(KnownAt(Known(s), run, first), run[first], id)
    requires forall k | 0 <= k < first :: !Hands(KnownAt(Known(s), run, k), run[k], id)
    ensures multiset(After(s, run).handovers)[id] == multiset(s.handovers)[id] + 1 <==>
      && multiset(HandedOver(KnownAt(Known(s), run, first), run[first].turn))[id] == 1
      && forall k | first < k < |run| :: !Hands(KnownAt(Known(s), run, k), run[k], id)
  {
    DeliveriesExact(s, run, id);
    OneDeliveryExactly(Known(s), run, first, id);
  }
}
