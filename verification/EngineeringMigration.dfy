/**
 The script that gives every legacy project a design, a bill of quantities and a deployment row, dry or for real, in
 one transaction.
 */
module EngineeringMigration {
  import opened Optional

  /** A project with its tenant already defaulted, in the order of the query. */
  datatype Project = Project(id: Maybe<string>, tenant: Maybe<string>, name: string)

  datatype Kind = Design | Boq | Deployment

  /** A row of one of the three tables; `text` is the design's name, the BOQ number or the deployment type. */
  datatype Row = Row(tenant: Maybe<string>, project: string, text: string)

  /** None is a table the database does not have. */
  type Table = Maybe<seq<Row>>

  datatype Database = Database(designs: Table, boqs: Table, deployments: Table)

  /** Whether the database takes an INSERT into a table: its columns, NOT NULL, lengths and references. */
  type Rules = (Kind, Row) -> bool

  datatype Report = Report(dryRun: bool, processed: nat, designs: int, boqs: int, deployments: int, warnings: seq<Project>)

  datatype Outcome = Raised | Done(report: Report)

  predicate HasId(p: Project)
  {
    p.id.Some? && p.id.value != ""
  }

  function UpperCase(s: string): string
  {
    seq(|s|, i requires 0 <= i < |s| => if 'a' <= s[i] <= 'z' then s[i] - 'a' + 'A' else s[i])
  }

  function NewRow(kind: Kind, p: Project): (r: Row)
    requires HasId(p)
    ensures r.project == p.id.value
  {
    match kind
    case Design => Row(p.tenant, p.id.value, p.name + " Design")
    case Boq => Row(p.tenant, p.id.value, "BOQ-" + UpperCase(if |p.id.value| > 8 then p.id.value[..8] else p.id.value))
    case Deployment => Row(p.tenant, p.id.value, "new_build")
  }

  predicate HasRow(rows: seq<Row>, project: string)
  {
    exists i | 0 <= i < |rows| :: rows[i].project == project
  }

  /** The project still needs a row among these. */
  predicate Lacks(rows: seq<Row>, p: Project)
  {
    HasId(p) && !HasRow(rows, p.id.value)
  }

  // ---- What one table becomes -------------------------------------------------------------

  /** The table after the projects, or None once an insert is refused. */
  function Fill(kind: Kind, rows: seq<Row>, projects: seq<Project>, rules: Rules): Maybe<seq<Row>>
    decreases |projects|
  {
    if projects == [] then Some(rows)
    else
      var p := projects[|projects| - 1];
      match Fill(kind, rows, projects[..|projects| - 1], rules)
      case None => None
      case Some(t) =>
        if !Lacks(t, p) then Some(t)
        else if rules(kind, NewRow(kind, p)) then Some(t + [NewRow(kind, p)])
        else None
  }

  function FillTable(kind: Kind, t: Table, projects: seq<Project>, rules: Rules): Maybe<Table>
  {
    if t.None? then Some(None)
    else
      match Fill(kind, t.value, projects, rules)
      case None => None
      case Some(rows) => Some(Some(rows))
  }

  /** What a dry run counts: the projects lacking a row in the table as it is. */
  function Missing(t: Table, projects: seq<Project>): nat
    decreases |projects|
  {
    if t.None? || projects == [] then 0
    else Missing(t, projects[..|projects| - 1]) + if Lacks(t.value, projects[|projects| - 1]) then 1 else 0
  }

  function Skipped(projects: seq<Project>): seq<Project>
  {
    if projects == [] then []
    else Skipped(projects[..|projects| - 1]) + if HasId(projects[|projects| - 1]) then [] else [projects[|projects| - 1]]
  }

  function Size(t: Table): nat
  {
    if t.None? then 0 else |t.value|
  }

  /** All three tables, or none. */
  function Commit(db: Database, designs: Maybe<Table>, boqs: Maybe<Table>, deployments: Maybe<Table>,
                  processed: nat, warnings: seq<Project>): (Database, Outcome)
  {
    if designs.None? || boqs.None? || deployments.None? then (db, Raised)
    else
      (Database(designs.value, boqs.value, deployments.value),
       Done(Report(false, processed, Size(designs.value) - Size(db.designs), Size(boqs.value) - Size(db.boqs),
                   Size(deployments.value) - Size(db.deployments), warnings)))
  }

  function Apply(db: Database, projects: seq<Project>, rules: Rules): (Database, Outcome)
  {
    Commit(db, FillTable(Design, db.designs, projects, rules), FillTable(Boq, db.boqs, projects, rules),
           FillTable(Deployment, db.deployments, projects, rules), |projects|, Skipped(projects))
  }

  function DryRun(db: Database, projects: seq<Project>): Report
  {
    Report(true, |projects|, Missing(db.designs, projects), Missing(db.boqs, projects),
           Missing(db.deployments, projects), Skipped(projects))
  }

  // ---- The script -------------------------------------------------------------------------

  /** One table's part of the loop body. */
  method EnsureRow(kind: Kind, t: Table, p: Project, dryRun: bool, rules: Rules)
    returns (after: Table, created: nat, refused: bool)
    requires HasId(p)
    ensures created == (if t.Some? && Lacks(t.value, p) && !refused then 1 else 0)
    ensures refused == (!dryRun && t.Some? && Lacks(t.value, p) && !rules(kind, NewRow(kind, p)))
    ensures after == if !dryRun && created == 1 then Some(t.value + [NewRow(kind, p)]) else t
  {
    after, created, refused := t, 0, false;
    if t.Some? {
      var present := HasRow(t.value, p.id.value);
      if !present && !dryRun {
        if !rules(kind, NewRow(kind, p)) {
          return t, 0, true;
        }
        after := Some(t.value + [NewRow(kind, p)]);
        created := 1;
      } else if !present {
        created := 1;
      }
    }
  }

  /** One more project, for one table. */
  lemma FillStep(kind: Kind, t: Table, projects: seq<Project>, p: Project, rules: Rules)
    ensures FillTable(kind, t, projects + [p], rules) ==
      match FillTable(kind, t, projects, rules)
      case None => None
      case Some(u) =>
        if u.None? || !Lacks(u.value, p) then Some(u)
        else if rules(kind, NewRow(kind, p)) then Some(Some(u.value + [NewRow(kind, p)]))
        else None
    ensures Missing(t, projects + [p]) == Missing(t, projects) + if t.Some? && Lacks(t.value, p) then 1 else 0
  {
    assert (projects + [p])[..|projects|] == projects;
  }

  lemma {:induction false} FillGrows(kind: Kind, rows: seq<Row>, projects: seq<Project>, rules: Rules)
    ensures Fill(kind, rows, projects, rules).Some? ==> rows <= Fill(kind, rows, projects, rules).value
    decreases |projects|
  {
    if projects != [] { FillGrows(kind, rows, projects[..|projects| - 1], rules); }
  }

  lemma {:induction false} FillRefusedLater(kind: Kind, rows: seq<Row>, projects: seq<Project>, n: nat, rules: Rules)
    requires n <= |projects| && Fill(kind, rows, projects[..n], rules).None?
    ensures Fill(kind, rows, projects, rules).None?
    decreases |projects|
  {
    if n == |projects| {
      assert projects[..n] == projects;
    } else {
      assert projects[..|projects| - 1][..n] == projects[..n];
      FillRefusedLater(kind, rows, projects[..|projects| - 1], n, rules);
    }
  }

  /** The state of one table part-way through the loop: rows so far and rows counted so far. */
  predicate Midway(kind: Kind, t: Table, seen: seq<Project>, dryRun: bool, rules: Rules, now: Table, created: int)
  {
    if dryRun then now == t && created == Missing(t, seen)
    else FillTable(kind, t, seen, rules) == Some(now) && Size(now) == Size(t) + created
  }

  lemma MidwayStep(kind: Kind, t: Table, seen: seq<Project>, p: Project, dryRun: bool, rules: Rules,
                   now: Table, created: int, after: Table, more: int)
    requires Midway(kind, t, seen, dryRun, rules, now, created)
    requires if HasId(p) then
               && more == (if now.Some? && Lacks(now.value, p) then 1 else 0)
               && (more == 1 && !dryRun ==> rules(kind, NewRow(kind, p)))
               && after == (if !dryRun && more == 1 then Some(now.value + [NewRow(kind, p)]) else now)
             else more == 0 && after == now
    ensures Midway(kind, t, seen + [p], dryRun, rules, after, created + more)
  {
    FillStep(kind, t, seen, p, rules);
  }

  /** The tables inside the open transaction, and the counters of the report. */
  datatype Progress = Progress(db: Database, designs: int, boqs: int, deployments: int)

  predicate AllMidway(db: Database, seen: seq<Project>, dryRun: bool, rules: Rules, now: Progress)
  {
    && Midway(Design, db.designs, seen, dryRun, rules, now.db.designs, now.designs)
    && Midway(Boq, db.boqs, seen, dryRun, rules, now.db.boqs, now.boqs)
    && Midway(Deployment, db.deployments, seen, dryRun, rules, now.db.deployments, now.deployments)
  }

  /** Some insert among these projects is refused. */
  predicate Refused(db: Database, projects: seq<Project>, rules: Rules)
  {
    || FillTable(Design, db.designs, projects, rules).None?
    || FillTable(Boq, db.boqs, projects, rules).None?
    || FillTable(Deployment, db.deployments, projects, rules).None?
  }

  /** The loop body for a project with an identifier. */
  method ProcessProject(ghost db: Database, ghost seen: seq<Project>, now: Progress, p: Project, dryRun: bool, rules: Rules)
    returns (after: Progress, refused: bool)
    requires HasId(p) && AllMidway(db, seen, dryRun, rules, now)
    ensures refused ==> !dryRun && Refused(db, seen + [p], rules)
    ensures !refused ==> AllMidway(db, seen + [p], dryRun, rules, after)
  {
    var d, newDesigns, noDesign := EnsureRow(Design, now.db.designs, p, dryRun, rules);
    if noDesign {
      FillStep(Design, db.designs, seen, p, rules);
      return now, true;
    }
    MidwayStep(Design, db.designs, seen, p, dryRun, rules, now.db.designs, now.designs, d, newDesigns);
    var b, newBoqs, noBoq := EnsureRow(Boq, now.db.boqs, p, dryRun, rules);
    if noBoq {
      FillStep(Boq, db.boqs, seen, p, rules);
      return now, true;
    }
    MidwayStep(Boq, db.boqs, seen, p, dryRun, rules, now.db.boqs, now.boqs, b, newBoqs);
    var y, newDeployments, noDeployment := EnsureRow(Deployment, now.db.deployments, p, dryRun, rules);
    if noDeployment {
      FillStep(Deployment, db.deployments, seen, p, rules);
      return now, true;
    }
    MidwayStep(Deployment, db.deployments, seen, p, dryRun, rules, now.db.deployments, now.deployments, y, newDeployments);
    after := Progress(Database(d, b, y), now.designs + newDesigns, now.boqs + newBoqs, now.deployments + newDeployments);
    refused := false;
  }

  lemma SkipProject(db: Database, seen: seq<Project>, p: Project, dryRun: bool, rules: Rules, now: Progress)
    requires !HasId(p) && AllMidway(db, seen, dryRun, rules, now)
    ensures AllMidway(db, seen + [p], dryRun, rules, now)
  {
  }

  lemma RefusedRaises(db: Database, projects: seq<Project>, n: nat, rules: Rules)
    requires n <= |projects| && Refused(db, projects[..n], rules)
    ensures Apply(db, projects, rules) == (db, Raised)
  {
    if db.designs.Some? && FillTable(Design, db.designs, projects[..n], rules).None? {
      FillRefusedLater(Design, db.designs.value, projects, n, rules);
    } else if db.boqs.Some? && FillTable(Boq, db.boqs, projects[..n], rules).None? {
      FillRefusedLater(Boq, db.boqs.value, projects, n, rules);
    } else {
      FillRefusedLater(Deployment, db.deployments.value, projects, n, rules);
    }
  }

  lemma DryRunEnds(db: Database, projects: seq<Project>, rules: Rules, end: Progress)
    requires AllMidway(db, projects, true, rules, end)
    ensures Report(true, |projects|, end.designs, end.boqs, end.deployments, Skipped(projects)) == DryRun(db, projects)
  {
  }

  /** What a commit of three tables says, given how many rows each gained. */
  lemma CommitOf(db: Database, d: Table, b: Table, y: Table, now: Progress, processed: nat, warnings: seq<Project>)
    requires now.db == Database(d, b, y)
    requires Size(d) == Size(db.designs) + now.designs && Size(b) == Size(db.boqs) + now.boqs
    requires Size(y) == Size(db.deployments) + now.deployments
    ensures Commit(db, Some(d), Some(b), Some(y), processed, warnings) ==
      (now.db, Done(Report(false, processed, now.designs, now.boqs, now.deployments, warnings)))
  {
  }

  lemma ApplyOf(db: Database, projects: seq<Project>, rules: Rules, d: Table, b: Table, y: Table)
    requires FillTable(Design, db.designs, projects, rules) == Some(d)
    requires FillTable(Boq, db.boqs, projects, rules) == Some(b)
    requires FillTable(Deployment, db.deployments, projects, rules) == Some(y)
    ensures Apply(db, projects, rules) == Commit(db, Some(d), Some(b), Some(y), |projects|, Skipped(projects))
  {
  }

  lemma ApplyEnds(db: Database, projects: seq<Project>, rules: Rules, end: Progress)
    requires AllMidway(db, projects, false, rules, end)
    ensures Apply(db, projects, rules) ==
      (end.db, Done(Report(false, |projects|, end.designs, end.boqs, end.deployments, Skipped(projects))))
  {
    var (d, b, y) := (end.db.designs, end.db.boqs, end.db.deployments);
    ApplyOf(db, projects, rules, d, b, y);
    CommitOf(db, d, b, y, end, |projects|, Skipped(projects));
  }

  class Migration {
    var db: Database

    /** The whole script: an exception rolls the transaction back. */
    method MigrateProjects(projectTable: Maybe<seq<Project>>, dryRun: bool, rules: Rules) returns (outcome: Outcome)
      modifies this
      ensures projectTable.None? ==> outcome == Raised && db == old(db)
      ensures projectTable.Some? && dryRun ==> outcome == Done(DryRun(old(db), projectTable.value)) && db == old(db)
      ensures projectTable.Some? && !dryRun ==> (db, outcome) == Apply(old(db), projectTable.value, rules)
    {
      if projectTable.None? {
        return Raised;
      }
      var projects := projectTable.value;
      var now, warnings, processed := Progress(db, 0, 0, 0), [], 0;
      var i := 0;
      while i < |projects|
        invariant 0 <= i <= |projects| && db == old(db)
        invariant processed == i && warnings == Skipped(projects[..i])
        invariant AllMidway(db, projects[..i], dryRun, rules, now)
      {
        var p := projects[i];
        processed := processed + 1;
        assert projects[..i + 1] == projects[..i] + [p];
        if !HasId(p) {
          SkipProject(db, projects[..i], p, dryRun, rules, now);
          warnings := warnings + [p];
        } else {
          var refused: bool;
          now, refused := ProcessProject(db, projects[..i], now, p, dryRun, rules);
          if refused {
            RefusedRaises(db, projects, i + 1, rules);
            return Raised;
          }
        }
        i := i + 1;
      }
      assert projects[..i] == projects;
      if dryRun {
        DryRunEnds(db, projects, rules, now);
      } else {
        ApplyEnds(db, projects, rules, now);
        db := now.db;
      }
      outcome := Done(Report(dryRun, processed, now.designs, now.boqs, now.deployments, warnings));
    }
  }

  // ---- The dry run predicts the apply run ---------------------------------------------------

  /** The primary key of the projects table. */
  predicate DistinctIds(projects: seq<Project>)
  {
    forall i, j | 0 <= i < j < |projects| && HasId(projects[i]) :: projects[i].id != projects[j].id
  }

  /** Every row the table would get is one the database takes. */
  predicate Acceptable(kind: Kind, t: Table, projects: seq<Project>, rules: Rules)
  {
    forall i | 0 <= i < |projects| && t.Some? && Lacks(t.value, projects[i]) :: rules(kind, NewRow(kind, projects[i]))
  }

  /** The filled table holds a row for a project if it did before or one of the projects has that identifier. */
  lemma {:induction false} FillHasRow(kind: Kind, rows: seq<Row>, projects: seq<Project>, rules: Rules, id: string)
    requires Fill(kind, rows, projects, rules).Some?
    ensures HasRow(Fill(kind, rows, projects, rules).value, id)
        <==> HasRow(rows, id) || exists i | 0 <= i < |projects| :: HasId(projects[i]) && projects[i].id.value == id
    decreases |projects|
  {
    if projects != [] {
      var before, p := projects[..|projects| - 1], projects[|projects| - 1];
      var t := Fill(kind, rows, before, rules).value;
      FillHasRow(kind, rows, before, rules, id);
      if Lacks(t, p) {
        AppendHasRow(t, NewRow(kind, p), id);
      }
      assert projects == before + [p];
      assert (exists i | 0 <= i < |projects| :: HasId(projects[i]) && projects[i].id.value == id)
        <==> (exists i | 0 <= i < |before| :: HasId(before[i]) && before[i].id.value == id) || (HasId(p) && p.id.value == id) by {
        if HasId(p) && p.id.value == id { assert projects[|before|].id.value == id; }
        if i :| 0 <= i < |before| && HasId(before[i]) && before[i].id.value == id { assert projects[i] == before[i]; }
      }
    }
  }

  lemma AppendHasRow(rows: seq<Row>, r: Row, id: string)
    ensures HasRow(rows + [r], id) <==> HasRow(rows, id) || r.project == id
  {
    if HasRow(rows, id) {
      var i :| 0 <= i < |rows| && rows[i].project == id;
      assert (rows + [r])[i].project == id;
    }
    assert (rows + [r])[|rows|] == r;
  }

  /** With distinct identifiers, a project lacks a row half-way through exactly when it lacked one at the start. */
  lemma LacksFromStart(kind: Kind, rows: seq<Row>, projects: seq<Project>, rules: Rules)
    requires projects != [] && DistinctIds(projects)
    requires Fill(kind, rows, projects[..|projects| - 1], rules).Some?
    ensures var p := projects[|projects| - 1];
      Lacks(Fill(kind, rows, projects[..|projects| - 1], rules).value, p) <==> Lacks(rows, p)
  {
    var p := projects[|projects| - 1];
    if HasId(p) {
      FillHasRow(kind, rows, projects[..|projects| - 1], rules, p.id.value);
    }
  }

  lemma {:induction false} FillAsPredicted(kind: Kind, t: Table, projects: seq<Project>, rules: Rules)
    requires DistinctIds(projects)
    ensures FillTable(kind, t, projects, rules).Some? <==> Acceptable(kind, t, projects, rules)
    ensures FillTable(kind, t, projects, rules).Some? ==>
      Size(FillTable(kind, t, projects, rules).value) - Size(t) == Missing(t, projects)
    decreases |projects|
  {
    if projects != [] && t.Some? {
      var before, p := projects[..|projects| - 1], projects[|projects| - 1];
      FillAsPredicted(kind, t, before, rules);
      assert projects == before + [p];
      assert Acceptable(kind, t, projects, rules)
        <==> Acceptable(kind, t, before, rules) && (Lacks(t.value, p) ==> rules(kind, NewRow(kind, p)));
      if Acceptable(kind, t, before, rules) {
        LacksFromStart(kind, t.value, projects, rules);
      }
    }
  }

  /** Every insert the run needs, in all three tables, is one the database takes. */
  predicate AllAcceptable(db: Database, projects: seq<Project>, rules: Rules)
  {
    && Acceptable(Design, db.designs, projects, rules)
    && Acceptable(Boq, db.boqs, projects, rules)
    && Acceptable(Deployment, db.deployments, projects, rules)
  }

  /**
   Main result. An apply run reports what the dry run reported, but for the flag, if and only if the database takes
   every row that is missing; otherwise it raises and changes nothing.
   */
  lemma ApplyAsPredicted(db: Database, projects: seq<Project>, rules: Rules)
    requires DistinctIds(projects)
    ensures Apply(db, projects, rules).1 == Done(DryRun(db, projects).(dryRun := false)) <==> AllAcceptable(db, projects, rules)
    ensures !AllAcceptable(db, projects, rules) ==> Apply(db, projects, rules) == (db, Raised)
  {
    FillAsPredicted(Design, db.designs, projects, rules);
    FillAsPredicted(Boq, db.boqs, projects, rules);
    FillAsPredicted(Deployment, db.deployments, projects, rules);
  }

  // ---- What a dry run says ----------------------------------------------------------------

  /** The positions of the projects that have no row in the table. */
  function LackingAt(t: Table, projects: seq<Project>): set<nat>
  {
    set i | 0 <= i < |projects| && t.Some? && Lacks(t.value, projects[i])
  }

  lemma {:induction false} MissingCounts(t: Table, projects: seq<Project>)
    ensures Missing(t, projects) == |LackingAt(t, projects)|
    decreases |projects|
  {
    if t.Some? && projects != [] {
      var before, last := projects[..|projects| - 1], |projects| - 1;
      MissingCounts(t, before);
      assert LackingAt(t, projects) == LackingAt(t, before) + if Lacks(t.value, projects[last]) then {last} else {};
    }
  }

  /** The warnings are the projects at these positions, which are all those without an identifier, in order. */
  predicate WarnsAt(warnings: seq<Project>, projects: seq<Project>, at: seq<nat>)
  {
    && |warnings| == |at| && (forall k | 0 <= k < |at| :: at[k] < |projects| && warnings[k] == projects[at[k]])
    && (forall j, k | 0 <= j < k < |at| :: at[j] < at[k])
    && (forall i | 0 <= i < |projects| :: i in at <==> !HasId(projects[i]))
  }

  lemma WarnsAtMore(warnings: seq<Project>, projects: seq<Project>, at: seq<nat>, p: Project)
    requires WarnsAt(warnings, projects, at)
    ensures HasId(p) ==> WarnsAt(warnings, projects + [p], at)
    ensures !HasId(p) ==> WarnsAt(warnings + [p], projects + [p], at + [|projects|])
  {
    var longer, n := projects + [p], |projects|;
    assert n !in at;
    forall i | 0 <= i < |longer| ensures HasId(p) ==> (i in at <==> !HasId(longer[i])) {
      if i < n { assert longer[i] == projects[i]; }
    }
    forall i | 0 <= i < |longer| ensures !HasId(p) ==> (i in at + [n] <==> !HasId(longer[i])) {
      if i < n { assert longer[i] == projects[i]; }
    }
  }

  lemma {:induction false} SkippedAt(projects: seq<Project>) returns (at: seq<nat>)
    ensures WarnsAt(Skipped(projects), projects, at)
    decreases |projects|
  {
    at := [];
    if projects != [] {
      var last := |projects| - 1;
      at := SkippedAt(projects[..last]);
      WarnsAtMore(Skipped(projects[..last]), projects[..last], at, projects[last]);
      assert projects == projects[..last] + [projects[last]];
      if !HasId(projects[last]) {
        at := at + [last];
      }
    }
  }

  /** A dry run counts the projects that have no row, table by table, and warns of those without an identifier. */
  lemma DryRunCounts(db: Database, projects: seq<Project>) returns (at: seq<nat>)
    ensures var report := DryRun(db, projects);
      && report.dryRun && report.processed == |projects|
      && report.designs == |LackingAt(db.designs, projects)|
      && report.boqs == |LackingAt(db.boqs, projects)|
      && report.deployments == |LackingAt(db.deployments, projects)|
      && WarnsAt(report.warnings, projects, at)
  {
    MissingCounts(db.designs, projects);
    MissingCounts(db.boqs, projects);
    MissingCounts(db.deployments, projects);
    at := SkippedAt(projects);
  }

  // ---- What an apply run leaves -----------------------------------------------------------

  /** One table after a run that committed: its old rows first, then one new row for each project that lacked one. */
  predicate Completed(kind: Kind, before: Table, after: Table, projects: seq<Project>)
  {
    if before.None? then after.None?
    else
      && after.Some? && before.value <= after.value
      && (forall i | 0 <= i < |projects| && HasId(projects[i]) :: HasRow(after.value, projects[i].id.value))
      && (forall k | |before.value| <= k < |after.value| :: NewAt(kind, before.value, after.value, k, projects))
  }

  /** A BOQ number: the first eight characters of the identifier, in capitals. */
  predicate BoqNumber(text: string, id: string)
  {
    && |text| == 4 + (if |id| < 8 then |id| else 8) && text[..4] == "BOQ-"
    && (forall j | 4 <= j < |text| ::
          if 'a' <= id[j - 4] <= 'z' then text[j] as int == id[j - 4] as int - 32 else text[j] == id[j - 4])
  }

  /** What a row made for a project holds. */
  predicate MadeFor(kind: Kind, r: Row, p: Project)
  {
    && HasId(p) && r.project == p.id.value && r.tenant == p.tenant
    && match kind
       case Design => r.text == p.name + " Design"
       case Boq => BoqNumber(r.text, p.id.value)
       case Deployment => r.text == "new_build"
  }

  lemma NewRowMadeFor(kind: Kind, p: Project)
    requires HasId(p)
    ensures MadeFor(kind, NewRow(kind, p), p)
  {
  }

  /** Row k is new: made for one of the projects, which had no row before it. */
  predicate NewAt(kind: Kind, before: seq<Row>, after: seq<Row>, k: nat, projects: seq<Project>)
    requires k < |after|
  {
    exists i | 0 <= i < |projects| ::
      Lacks(before, projects[i]) && Lacks(after[..k], projects[i]) && MadeFor(kind, after[k], projects[i])
  }

  lemma {:induction false} NewRowsOnly(kind: Kind, rows: seq<Row>, projects: seq<Project>, rules: Rules)
    requires Fill(kind, rows, projects, rules).Some?
    ensures var t := Fill(kind, rows, projects, rules).value;
      rows <= t && forall k | |rows| <= k < |t| :: NewAt(kind, rows, t, k, projects)
    decreases |projects|
  {
    FillGrows(kind, rows, projects, rules);
    if projects != [] {
      var before, p := projects[..|projects| - 1], projects[|projects| - 1];
      var s, t := Fill(kind, rows, before, rules).value, Fill(kind, rows, projects, rules).value;
      NewRowsOnly(kind, rows, before, rules);
      forall k | |rows| <= k < |t| ensures NewAt(kind, rows, t, k, projects) {
        if k < |s| {
          NewAtLater(kind, rows, s, t, k, projects);
        } else {
          assert t[..k] == s;
          LacksBefore(rows, s, p);
          NewRowMadeFor(kind, p);
          assert projects[|before|] == p;
        }
      }
    }
  }

  lemma LacksBefore(rows: seq<Row>, longer: seq<Row>, p: Project)
    requires rows <= longer && Lacks(longer, p)
    ensures Lacks(rows, p)
  {
    assert forall i | 0 <= i < |rows| :: longer[i] == rows[i];
  }

  lemma NewAtLater(kind: Kind, rows: seq<Row>, s: seq<Row>, t: seq<Row>, k: nat, projects: seq<Project>)
    requires projects != [] && s <= t && k < |s| && NewAt(kind, rows, s, k, projects[..|projects| - 1])
    ensures NewAt(kind, rows, t, k, projects)
  {
    var before := projects[..|projects| - 1];
    var i :| 0 <= i < |before| && Lacks(rows, before[i]) && Lacks(s[..k], before[i]) && MadeFor(kind, s[k], before[i]);
    assert t[..k] == s[..k] && projects[i] == before[i];
  }

  lemma TableCompleted(kind: Kind, t: Table, projects: seq<Project>, rules: Rules)
    requires FillTable(kind, t, projects, rules).Some?
    ensures Completed(kind, t, FillTable(kind, t, projects, rules).value, projects)
  {
    if t.Some? {
      NewRowsOnly(kind, t.value, projects, rules);
      forall i | 0 <= i < |projects| && HasId(projects[i])
        ensures HasRow(Fill(kind, t.value, projects, rules).value, projects[i].id.value)
      {
        FillHasRow(kind, t.value, projects, rules, projects[i].id.value);
      }
    }
  }

  /**
   Main result. A run that commits keeps every row, gives every project with an identifier a row in each table present,
   and adds no other row and none twice.
   */
  lemma ApplyCompletes(db: Database, projects: seq<Project>, rules: Rules)
    requires Apply(db, projects, rules).1.Done?
    ensures var after := Apply(db, projects, rules).0;
      && Completed(Design, db.designs, after.designs, projects)
      && Completed(Boq, db.boqs, after.boqs, projects)
      && Completed(Deployment, db.deployments, after.deployments, projects)
  {
    TableCompleted(Design, db.designs, projects, rules);
    TableCompleted(Boq, db.boqs, projects, rules);
    TableCompleted(Deployment, db.deployments, projects, rules);
  }

  lemma {:induction false} NothingToFill(kind: Kind, t: Table, projects: seq<Project>, rules: Rules)
    requires t.Some? ==> forall i | 0 <= i < |projects| && HasId(projects[i]) :: HasRow(t.value, projects[i].id.value)
    ensures FillTable(kind, t, projects, rules) == Some(t)
    decreases |projects|
  {
    if t.Some? && projects != [] {
      NothingToFill(kind, t, projects[..|projects| - 1], rules);
      var p := projects[|projects| - 1];
      assert !Lacks(t.value, p);
    }
  }

  lemma TableSettled(kind: Kind, t: Table, projects: seq<Project>, rules: Rules, later: Rules)
    requires FillTable(kind, t, projects, rules).Some?
    ensures var after := FillTable(kind, t, projects, rules).value; FillTable(kind, after, projects, later) == Some(after)
  {
    TableCompleted(kind, t, projects, rules);
    NothingToFill(kind, FillTable(kind, t, projects, rules).value, projects, later);
  }

  lemma ApplyTables(db: Database, projects: seq<Project>, rules: Rules, after: Database)
    ensures Apply(db, projects, rules).1.Done? && Apply(db, projects, rules).0 == after <==>
      && FillTable(Design, db.designs, projects, rules) == Some(after.designs)
      && FillTable(Boq, db.boqs, projects, rules) == Some(after.boqs)
      && FillTable(Deployment, db.deployments, projects, rules) == Some(after.deployments)
  {
  }

  lemma SettledApply(db: Database, projects: seq<Project>, rules: Rules)
    requires FillTable(Design, db.designs, projects, rules) == Some(db.designs)
    requires FillTable(Boq, db.boqs, projects, rules) == Some(db.boqs)
    requires FillTable(Deployment, db.deployments, projects, rules) == Some(db.deployments)
    ensures Apply(db, projects, rules) == (db, Done(Report(false, |projects|, 0, 0, 0, Skipped(projects))))
  {
  }

  /** A second apply run creates nothing, whatever the database takes by then. */
  lemma SecondApplyCreatesNothing(db: Database, projects: seq<Project>, rules: Rules, after: Database, later: Rules)
    requires Apply(db, projects, rules).1.Done? && Apply(db, projects, rules).0 == after
    ensures Apply(after, projects, later) == (after, Done(Report(false, |projects|, 0, 0, 0, Skipped(projects))))
  {
    ApplyTables(db, projects, rules, after);
    TableSettled(Design, db.designs, projects, rules, later);
    TableSettled(Boq, db.boqs, projects, rules, later);
    TableSettled(Deployment, db.deployments, projects, rules, later);
    SettledApply(after, projects, later);
  }

  // ---- The designs table as migrations 0090 and 0099 leave it -----------------------------

  const DESIGN_COLUMNS: set<string> := {
    "id", "tenant_id", "project_id", "name", "description", "boundary", "status", "current_version_id", "engine_config",
    "created_by", "updated_by", "created_at", "updated_at", "deleted_at", "deleted_by",
    "deployment_status", "coverage_area_sqkm", "estimated_homes_passed"
  }

  const INSERTED_DESIGN_COLUMNS: set<string> := {
    "id", "tenant_id", "project_id", "name", "design_status", "created_at", "updated_at"
  }

  /** Rules under which an INSERT into designs names only existing columns. */
  ghost predicate KnowsDesignColumns(rules: Rules)
  {
    forall r :: rules(Design, r) ==> INSERTED_DESIGN_COLUMNS <= DESIGN_COLUMNS
  }

  lemma NoStatusColumn()
    ensures "design_status" in INSERTED_DESIGN_COLUMNS && "design_status" !in DESIGN_COLUMNS
  {
    assert forall c | c in DESIGN_COLUMNS :: |c| != 13 || c[0] == 'e';
  }

  /**
   The INSERT names a column design_status, which the designs table does not have: there an apply run raises, and changes
   nothing, if and only if some project with an identifier lacks a design or another insert is refused. The dry run does
   not tell.
   */
  lemma ApplyOnCurrentSchema(db: Database, projects: seq<Project>, rules: Rules)
    requires DistinctIds(projects) && db.designs.Some? && KnowsDesignColumns(rules)
    ensures Apply(db, projects, rules) == (db, Raised) <==>
      || (exists i | 0 <= i < |projects| :: Lacks(db.designs.value, projects[i]))
      || !Acceptable(Boq, db.boqs, projects, rules)
      || !Acceptable(Deployment, db.deployments, projects, rules)
  {
    NoStatusColumn();
    ApplyAsPredicted(db, projects, rules);
  }

  /** One project and three empty tables: the dry run announces a design, a BOQ and a deployment; the apply run raises. */
  lemma DryRunAnnouncesApplyRaises(rules: Rules)
    requires KnowsDesignColumns(rules)
    ensures
      var db := Database(Some([]), Some([]), Some([]));
      var projects := [Project(Some("7"), Some("acme"), "Ring")];
      && DryRun(db, projects) == Report(true, 1, 1, 1, 1, [])
      && Apply(db, projects, rules) == (db, Raised)
  {
    var db := Database(Some([]), Some([]), Some([]));
    var p := Project(Some("7"), Some("acme"), "Ring");
    assert [p][..0] == [];
    assert Lacks([], [p][0]);
    ApplyOnCurrentSchema(db, [p], rules);
  }
}
