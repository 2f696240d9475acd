/**
 The SLA checker: a periodic sweep over open outages that warns at 80% of the allowed time and marks a
 breach at the deadline, between which users resolve, reopen and comment on outages as they like.

 Times are microseconds. Nothing below assumes that the clock the sweeps read moves forward.
 */
module SlaSweep {
  import opened Optional
  import opened Sequences

  type Id = nat

  datatype Incident = Incident(created: int, deadline: Maybe<int>, status: string, breached: bool)

  datatype Kind = Warning | Breach | Other

  /** An entry of an outage's activity timeline; `Other` is any entry without an sla_event mark. */
  datatype Event = Event(incident: Id, kind: Kind, time: int)

  datatype State = State(incidents: map<Id, Incident>, timeline: seq<Event>)

  const SECOND := 1_000_000

  /** `pct_elapsed >= 0.80`, with the allowed time taken as at least one second. */
  predicate NearDeadline(inc: Incident, now: int)
    requires inc.deadline.Some?
  {
    var total := if inc.deadline.value - inc.created > SECOND then inc.deadline.value - inc.created else SECOND;
    5 * (now - inc.created) >= 4 * total
  }

  predicate Resolved(inc: Incident)
  {
    inc.status == "resolved"
  }

  /** The sweep's WHERE. */
  predicate Active(inc: Incident)
  {
    inc.deadline.Some? && !Resolved(inc) && !inc.breached
  }

  function ActiveIds(s: State): set<Id>
  {
    set id | id in s.incidents && Active(s.incidents[id])
  }

  predicate Has(s: State, id: Id, kind: Kind)
  {
    exists i | 0 <= i < |s.timeline| :: s.timeline[i].incident == id && s.timeline[i].kind == kind
  }

  function CheckOne(s: State, id: Id, now: int): State
    requires id in s.incidents && s.incidents[id].deadline.Some?
  {
    var inc := s.incidents[id];
    if now >= inc.deadline.value then
      State(s.incidents[id := inc.(breached := true)], s.timeline + [Event(id, Breach, now)])
    else if NearDeadline(inc, now) && !Has(s, id, Warning) then
      s.(timeline := s.timeline + [Event(id, Warning, now)])
    else s
  }

  /** The rows the query returned, one after another. */
  function CheckEach(s: State, rows: seq<Id>, now: int): State
    requires forall id | id in rows :: id in s.incidents && s.incidents[id].deadline.Some?
    decreases |rows|
  {
    if rows == [] then s else CheckEach(CheckOne(s, rows[0], now), rows[1..], now)
  }

  /** The query returns every active outage once, in no particular order. */
  predicate Query(s: State, rows: seq<Id>)
  {
    && (forall i, j | 0 <= i < j < |rows| :: rows[i] != rows[j])
    && (forall id | id in rows :: id in ActiveIds(s))
    && (forall id | id in ActiveIds(s) :: id in rows)
  }

  class SlaChecker {
    var incidents: map<Id, Incident>
    var timeline: seq<Event>

    ghost function Now(): State
      reads this
    {
      State(incidents, timeline)
    }

    /** `_has_sla_warning`. */
    method HasSlaWarning(pending: State, id: Id) returns (found: bool)
      ensures found == Has(pending, id, Warning)
    {
      found := false;
      var i := 0;
      while i < |pending.timeline|
        invariant 0 <= i <= |pending.timeline|
        invariant found <==> exists j | 0 <= j < i :: pending.timeline[j].incident == id && pending.timeline[j].kind == Warning
      {
        if pending.timeline[i].incident == id && pending.timeline[i].kind == Warning {
          found := true;
        }
        i := i + 1;
      }
    }

    /** `_check_all`: one transaction; `fails` says that some step raised, and everything is rolled back. */
    method CheckAll(rows: seq<Id>, now: int, fails: bool)
      requires Query(Now(), rows)
      modifies this
      ensures Now() == if fails then old(Now()) else CheckEach(old(Now()), rows, now)
    {
      var pending := State(incidents, timeline);
      var i := 0;
      while i < |rows|
        invariant 0 <= i <= |rows| && Now() == old(Now())
        invariant forall id | id in rows :: id in pending.incidents && pending.incidents[id].deadline.Some?
        invariant CheckEach(old(Now()), rows, now) == CheckEach(pending, rows[i..], now)
      {
        var id := rows[i];
        var inc := pending.incidents[id];
        ghost var before := pending;
        if now >= inc.deadline.value {
          pending := State(pending.incidents[id := inc.(breached := true)], pending.timeline + [Event(id, Breach, now)]);
        } else if NearDeadline(inc, now) {
          var warned := HasSlaWarning(pending, id);
          if !warned {
            pending := pending.(timeline := pending.timeline + [Event(id, Warning, now)]);
          }
        }
        assert pending == CheckOne(before, id, now);
        i := i + 1;
      }
      if !fails {
        incidents, timeline := pending.incidents, pending.timeline;
      }
    }
  }

  // ---- What one sweep does ---------------------------------------------------------------

  /** Whether a sweep at this time breaches, or warns about, an outage as it stands. */
  predicate Breaches(inc: Incident, now: int)
  {
    Active(inc) && now >= inc.deadline.value
  }

  predicate Warns(inc: Incident, now: int)
  {
    Active(inc) && now < inc.deadline.value && NearDeadline(inc, now)
  }

  predicate SameButBreach(a: State, b: State)
  {
    && a.incidents.Keys == b.incidents.Keys
    && (forall id | id in a.incidents :: b.incidents[id] == a.incidents[id].(breached := b.incidents[id].breached))
  }

  lemma HasAppended(s: State, e: Event, incidents: map<Id, Incident>, id: Id, kind: Kind)
    ensures Has(State(incidents, s.timeline + [e]), id, kind) <==> Has(s, id, kind) || (e.incident == id && e.kind == kind)
  {
    var t := s.timeline + [e];
    assert t[|s.timeline|] == e;
    if Has(s, id, kind) {
      var i :| 0 <= i < |s.timeline| && s.timeline[i].incident == id && s.timeline[i].kind == kind;
      assert t[i] == s.timeline[i];
    }
  }

  lemma CheckOneEffect(s: State, row: Id, now: int, id: Id)
    requires row in s.incidents && Active(s.incidents[row]) && id in s.incidents
    ensures SameButBreach(s, CheckOne(s, row, now))
    ensures CheckOne(s, row, now).incidents[id].breached <==> s.incidents[id].breached || (id == row && Breaches(s.incidents[id], now))
    ensures Has(CheckOne(s, row, now), id, Warning) <==> Has(s, id, Warning) || (id == row && Warns(s.incidents[id], now))
    ensures Has(CheckOne(s, row, now), id, Breach) <==> Has(s, id, Breach) || (id == row && Breaches(s.incidents[id], now))
  {
    var inc := s.incidents[row];
    if now >= inc.deadline.value {
      HasAppended(s, Event(row, Breach, now), s.incidents[row := inc.(breached := true)], id, Warning);
      HasAppended(s, Event(row, Breach, now), s.incidents[row := inc.(breached := true)], id, Breach);
    } else if NearDeadline(inc, now) && !Has(s, row, Warning) {
      HasAppended(s, Event(row, Warning, now), s.incidents, id, Warning);
      HasAppended(s, Event(row, Warning, now), s.incidents, id, Breach);
    }
  }

  /** Distinct active outages. */
  predicate Due(s: State, rows: seq<Id>)
  {
    && (forall i, j | 0 <= i < j < |rows| :: rows[i] != rows[j])
    && (forall r | r in rows :: r in s.incidents && Active(s.incidents[r]))
  }

  lemma {:induction false} CheckEachEffect(s: State, rows: seq<Id>, now: int, id: Id)
    requires Due(s, rows)
    requires id in s.incidents
    ensures SameButBreach(s, CheckEach(s, rows, now))
    ensures CheckEach(s, rows, now).incidents[id].breached <==> s.incidents[id].breached || (id in rows && Breaches(s.incidents[id], now))
    ensures Has(CheckEach(s, rows, now), id, Warning) <==> Has(s, id, Warning) || (id in rows && Warns(s.incidents[id], now))
    ensures Has(CheckEach(s, rows, now), id, Breach) <==> Has(s, id, Breach) || (id in rows && Breaches(s.incidents[id], now))
    decreases |rows|
  {
    if rows != [] {
      var s' := CheckOne(s, rows[0], now);
      CheckOneEffect(s, rows[0], now, id);
      forall r | r in rows[1..] ensures r in s'.incidents && Active(s'.incidents[r]) {
        CheckOneEffect(s, rows[0], now, r);
      }
      CheckEachEffect(s', rows[1..], now, id);
      assert rows == [rows[0]] + rows[1..];
    }
  }

  /**
   A sweep that is not rolled back breaches exactly the active outages at or past their deadline and warns about
   exactly the active ones at 80% that are still short of it, whatever order the rows come in.
   */
  lemma SweepExact(s: State, rows: seq<Id>, now: int, id: Id)
    requires Query(s, rows) && id in s.incidents
    ensures SameButBreach(s, CheckEach(s, rows, now))
    ensures CheckEach(s, rows, now).incidents[id].breached <==> s.incidents[id].breached || Breaches(s.incidents[id], now)
    ensures Has(CheckEach(s, rows, now), id, Warning) <==> Has(s, id, Warning) || Warns(s.incidents[id], now)
    ensures Has(CheckEach(s, rows, now), id, Breach) <==> Has(s, id, Breach) || Breaches(s.incidents[id], now)
  {
    CheckEachEffect(s, rows, now, id);
    assert Active(s.incidents[id]) ==> id in ActiveIds(s);
  }

  /** What a sweep writes on the timeline of an open outage: a breach, or its only warning at 80% of at least a second. */
  function Entry(timeline: seq<Event>, inc: Incident, id: Id, now: int): seq<Event>
    requires inc.deadline.Some?
  {
    var allowed := if inc.deadline.value - inc.created < 1_000_000 then 1_000_000.0 else (inc.deadline.value - inc.created) as real;
    if inc.deadline.value <= now then [Event(id, Breach, now)]
    else if (now - inc.created) as real >= 0.8 * allowed && forall e | e in timeline :: e.incident != id || e.kind != Warning
    then [Event(id, Warning, now)]
    else []
  }

  function OnIncident(events: seq<Event>, id: Id): seq<Event>
  {
    if events == [] then [] else (if events[0].incident == id then [events[0]] else []) + OnIncident(events[1..], id)
  }

  lemma {:induction false} OnIncidentAppend(a: seq<Event>, b: seq<Event>, id: Id)
    ensures OnIncident(a + b, id) == OnIncident(a, id) + OnIncident(b, id)
  {
    if a == [] {
      assert a + b == b;
    } else {
      assert (a + b)[1..] == a[1..] + b;
      OnIncidentAppend(a[1..], b, id);
    }
  }

  lemma EntryWritten(s: State, id: Id, now: int)
    requires id in s.incidents && s.incidents[id].deadline.Some?
    ensures CheckOne(s, id, now).timeline == s.timeline + Entry(s.timeline, s.incidents[id], id, now)
  {
    assert Has(s, id, Warning) <==> exists e | e in s.timeline :: e.incident == id && e.kind == Warning;
    assert s.timeline + [] == s.timeline;
  }

  /** Another outage's turn changes neither this outage nor what is to be written for it. */
  lemma EntryKept(s: State, row: Id, now: int, id: Id)
    requires row in s.incidents && Active(s.incidents[row]) && id in s.incidents && id != row && s.incidents[id].deadline.Some?
    ensures CheckOne(s, row, now).incidents[id] == s.incidents[id]
    ensures Entry(CheckOne(s, row, now).timeline, s.incidents[id], id, now) == Entry(s.timeline, s.incidents[id], id, now)
  {
    EntryWritten(s, row, now);
    var e := Entry(s.timeline, s.incidents[row], row, now);
    assert forall x | x in s.timeline + e :: x in s.timeline || x.incident == row;
    assert forall x | x in s.timeline :: x in s.timeline + e;
  }

  lemma EntryOnIncident(timeline: seq<Event>, inc: Incident, row: Id, now: int, id: Id)
    requires inc.deadline.Some?
    ensures OnIncident(Entry(timeline, inc, row, now), id) == if id == row then Entry(timeline, inc, row, now) else []
  {
  }

  lemma StillDue(s: State, rows: seq<Id>, now: int)
    requires rows != [] && Due(s, rows)
    ensures Due(CheckOne(s, rows[0], now), rows[1..])
  {
    forall r | r in rows[1..] ensures r in CheckOne(s, rows[0], now).incidents && Active(CheckOne(s, rows[0], now).incidents[r]) {
      EntryKept(s, rows[0], now, r);
    }
  }

  lemma EntryStep(s: State, rows: seq<Id>, now: int, id: Id, later: seq<Event>)
    requires rows != [] && Due(s, rows) && id in s.incidents
    requires var s' := CheckOne(s, rows[0], now);
      id in s'.incidents && OnIncident(later, id) == if id in rows[1..] then Entry(s'.timeline, s'.incidents[id], id, now) else []
    ensures OnIncident(Entry(s.timeline, s.incidents[rows[0]], rows[0], now) + later, id) ==
      if id in rows then Entry(s.timeline, s.incidents[id], id, now) else []
  {
    var first := Entry(s.timeline, s.incidents[rows[0]], rows[0], now);
    OnIncidentAppend(first, later, id);
    EntryOnIncident(s.timeline, s.incidents[rows[0]], rows[0], now, id);
    if id == rows[0] {
      assert id !in rows[1..];
    } else {
      assert id in rows <==> id in rows[1..];
      if id in rows { EntryKept(s, rows[0], now, id); }
    }
  }

  /** The entries written by a sweep, in the order of its rows. */
  lemma {:induction false} EntriesWritten(s: State, rows: seq<Id>, now: int, id: Id) returns (written: seq<Event>)
    requires Due(s, rows) && id in s.incidents
    ensures CheckEach(s, rows, now).timeline == s.timeline + written
    ensures OnIncident(written, id) == if id in rows then Entry(s.timeline, s.incidents[id], id, now) else []
    decreases |rows|
  {
    written := [];
    if rows != [] {
      var s', first := CheckOne(s, rows[0], now), Entry(s.timeline, s.incidents[rows[0]], rows[0], now);
      StillDue(s, rows, now);
      EntryWritten(s, rows[0], now);
      var later := EntriesWritten(s', rows[1..], now, id);
      EntryStep(s, rows, now, id, later);
      written := first + later;
      Assoc(s.timeline, first, later);
    }
  }

  /**
   A sweep that is not rolled back only adds to the timeline, and what it adds about an outage is exactly the entry due
   if the outage has a deadline, is unresolved and is not breached; and nothing otherwise.
   */
  lemma SweepWrites(s: State, rows: seq<Id>, now: int, id: Id) returns (written: seq<Event>)
    requires Query(s, rows) && id in s.incidents
    ensures CheckEach(s, rows, now).timeline == s.timeline + written
    ensures var inc := s.incidents[id];
      OnIncident(written, id) ==
        if inc.deadline.Some? && inc.status != "resolved" && !inc.breached then Entry(s.timeline, inc, id, now) else []
  {
    assert s.incidents[id].deadline.Some? && s.incidents[id].status != "resolved" && !s.incidents[id].breached <==> id in ActiveIds(s);
    written := EntriesWritten(s, rows, now, id);
  }

  // ---- Over whole runs --------------------------------------------------------------------

  datatype Step =
    | Report(id: Id, created: int, deadline: Maybe<int>)
    | SetStatus(id: Id, status: string)
    | Comment(id: Id, time: int)
    | Sweep(rows: seq<Id>, now: int, fails: bool)

  predicate Possible(s: State, step: Step)
  {
    match step
    case Report(id, _, _) => id !in s.incidents && forall e | e in s.timeline :: e.incident != id
    case SetStatus(id, _) => id in s.incidents
    case Comment(id, _) => id in s.incidents
    case Sweep(rows, _, _) => Query(s, rows)
  }

  function Next(s: State, step: Step): State
    requires Possible(s, step)
  {
    match step
    case Report(id, created, deadline) => s.(incidents := s.incidents[id := Incident(created, deadline, "active", false)])
    case SetStatus(id, status) => s.(incidents := s.incidents[id := s.incidents[id].(status := status)])
    case Comment(id, time) => s.(timeline := s.timeline + [Event(id, Other, time)])
    case Sweep(rows, now, fails) => if fails then s else CheckEach(s, rows, now)
  }

  predicate ValidRun(s: State, run: seq<Step>)
    decreases |run|
  {
    run == [] || (Possible(s, run[0]) && ValidRun(Next(s, run[0]), run[1..]))
  }

  function After(s: State, run: seq<Step>): State
    requires ValidRun(s, run)
    decreases |run|
  {
    if run == [] then s else After(Next(s, run[0]), run[1..])
  }

  /** Each event is justified by the outage it is about, and a breach is recorded exactly when the flag is set. */
  predicate EventOk(s: State, e: Event)
  {
    && e.incident in s.incidents
    && (e.kind == Warning ==>
          var inc := s.incidents[e.incident];
          inc.deadline.Some? && NearDeadline(inc, e.time) && e.time < inc.deadline.value)
    && (e.kind == Breach ==>
          var inc := s.incidents[e.incident];
          inc.deadline.Some? && e.time >= inc.deadline.value && inc.breached)
  }

  /** At most one warning and one breach for each outage, and no warning once it is breached. */
  predicate OnceEach(timeline: seq<Event>)
  {
    forall i, j | 0 <= i < j < |timeline| :: CompatiblePair(timeline[i], timeline[j])
  }

  predicate CompatiblePair(earlier: Event, later: Event)
  {
    earlier.incident == later.incident ==>
      && !(earlier.kind == Warning && later.kind == Warning)
      && !(earlier.kind == Breach && later.kind == Breach)
      && !(earlier.kind == Breach && later.kind == Warning)
  }

  predicate Inv(s: State)
  {
    && (forall e | e in s.timeline :: EventOk(s, e))
    && OnceEach(s.timeline)
    && (forall id | id in s.incidents && s.incidents[id].breached :: Has(s, id, Breach))
  }

  lemma CheckOneKeepsInv(s: State, id: Id, now: int)
    requires Inv(s) && id in s.incidents && Active(s.incidents[id])
    ensures Inv(CheckOne(s, id, now))
  {
    var s', inc := CheckOne(s, id, now), s.incidents[id];
    forall e | e in s.timeline ensures EventOk(s', e) && (e.incident == id ==> e.kind != Breach) {
      assert EventOk(s, e);
    }
    forall x | x in s'.incidents && s'.incidents[x].breached ensures Has(s', x, Breach) {
      CheckOneEffect(s, id, now, x);
    }
    assert Has(s, id, Warning) || forall e | e in s.timeline && e.incident == id :: e.kind != Warning;
  }

  lemma {:induction false} CheckEachKeepsInv(s: State, rows: seq<Id>, now: int)
    requires Inv(s)
    requires Due(s, rows)
    ensures Inv(CheckEach(s, rows, now))
    decreases |rows|
  {
    if rows != [] {
      var s' := CheckOne(s, rows[0], now);
      CheckOneKeepsInv(s, rows[0], now);
      forall r | r in rows[1..] ensures r in s'.incidents && Active(s'.incidents[r]) {
        CheckOneEffect(s, rows[0], now, r);
      }
      CheckEachKeepsInv(s', rows[1..], now);
    }
  }

  lemma NextKeepsInv(s: State, step: Step)
    requires Inv(s) && Possible(s, step)
    ensures Inv(Next(s, step))
  {
    var s' := Next(s, step);
    match step {
      case Report(id, _, _) =>
        assert forall e | e in s.timeline :: EventOk(s, e) ==> EventOk(s', e);
        assert forall x | x in s.incidents :: Has(s, x, Breach) == Has(s', x, Breach);
      case SetStatus(id, _) =>
        assert forall e | e in s.timeline :: EventOk(s, e) ==> EventOk(s', e);
        assert forall x | x in s.incidents :: Has(s, x, Breach) == Has(s', x, Breach);
      case Comment(id, time) =>
        assert forall e | e in s.timeline :: EventOk(s, e) ==> EventOk(s', e);
        forall x | x in s.incidents ensures Has(s', x, Breach) == Has(s, x, Breach) {
          HasAppended(s, Event(id, Other, time), s.incidents, x, Breach);
        }
      case Sweep(rows, now, fails) =>
        if !fails { CheckEachKeepsInv(s, rows, now); }
    }
  }

  /** Every run keeps the timeline honest: one warning and one breach at most, in that order, each at its proper time. */
  lemma {:induction false} RunKeepsInv(s: State, run: seq<Step>)
    requires Inv(s) && ValidRun(s, run)
    ensures Inv(After(s, run))
    decreases |run|
  {
    if run != [] {
      NextKeepsInv(s, run[0]);
      RunKeepsInv(Next(s, run[0]), run[1..]);
    }
  }

  /** Some sweep of the run, not rolled back, met the outage unresolved at or after its deadline. */
  ghost predicate CaughtLate(s: State, run: seq<Step>, id: Id)
    requires ValidRun(s, run)
    decreases |run|
  {
    run != [] &&
    (|| (run[0].Sweep? && !run[0].fails && id in s.incidents && s.incidents[id].deadline.Some?
         && run[0].now >= s.incidents[id].deadline.value && !Resolved(s.incidents[id]))
     || CaughtLate(Next(s, run[0]), run[1..], id))
  }

  lemma NextOnIncident(s: State, step: Step, id: Id)
    requires Possible(s, step) && id in s.incidents
    ensures id in Next(s, step).incidents
    ensures Next(s, step).incidents[id].deadline == s.incidents[id].deadline
    ensures Next(s, step).incidents[id].breached <==>
      s.incidents[id].breached || (step.Sweep? && !step.fails && Breaches(s.incidents[id], step.now))
  {
    if step.Sweep? && !step.fails {
      SweepExact(s, step.rows, step.now, id);
    }
  }

  /** The breach flag after a run: set if it was set before or some sweep caught the outage late, and never otherwise. */
  lemma {:induction false} BreachedExactly(s: State, run: seq<Step>, id: Id)
    requires ValidRun(s, run) && id in s.incidents
    ensures id in After(s, run).incidents
    ensures After(s, run).incidents[id].breached <==> s.incidents[id].breached || CaughtLate(s, run, id)
    decreases |run|
  {
    if run != [] {
      NextOnIncident(s, run[0], id);
      BreachedExactly(Next(s, run[0]), run[1..], id);
    }
  }
}
