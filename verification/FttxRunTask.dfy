/**
 The FTTx design task: one run row, its stored output and, for a design run, the design's working set, all
 written in one session with several commits, any of whose steps may raise.

 A fault plan fixes what every step does. The task's contract is stated for every plan, so it covers every
 placement of exceptions, including commits that fail after they took effect.
 */
module FttxRunTask {
  import opened Optional

  datatype Status = Draft | LayersPending | Ready | Queued | Running | Completed | Failed

  /** A row of fttx_design_runs; `forDesign` says design_id is set. */
  datatype Run = Run(status: Status, forDesign: bool, error: Maybe<string>)

  type Output = nat

  /** The design's working set and version, as one value. */
  type DesignState = nat

  /** What is stored: the run, its row in fttx_design_run_outputs (unique per run) and the design. */
  datatype Db = Db(run: Maybe<Run>, output: Maybe<Output>, design: DesignState)

  /** A commit can succeed, or raise before or after it took effect. */
  datatype Fate = Commits | RaisesBefore | RaisesAfter

  datatype Engine = Finishes(output: Output) | Refuses(message: string) | Crashes(message: string)

  /** `apply_output` works on the open transaction; failing, it may leave it half done. */
  datatype Applying = Applied(design: DesignState) | Locked(design: DesignState, message: string) | Breaks(design: DesignState, message: string)

  /** What each step does; `true` means it raises. */
  datatype Faults = Faults(
    connect: bool, load: bool, start: Fate, layers: bool, engine: Engine, convert: bool,
    store: Fate, applying: Applying, summary: bool, finish: Fate,
    rollback: bool, markFailed: Fate, close: bool,
    handlerConnect: bool, handlerUpdate: bool, handlerCommit: Fate)

  predicate Unfinished(s: Status)
  {
    s == Queued || s == Running
  }

  predicate Finished(s: Status)
  {
    s == Completed || s == Failed
  }

  /** The last-resort update did not go through. */
  predicate HandlerFails(f: Faults)
  {
    f.handlerConnect || f.handlerUpdate || f.handlerCommit == RaisesBefore
  }

  /** The engine has been reached. */
  predicate ReachesEngine(f: Faults)
  {
    !f.connect && !f.load && f.start == Commits && !f.layers
  }

  /** Nothing goes wrong before the last commit, which takes effect. */
  predicate EveryStepWorks(before: Db, f: Faults)
  {
    && before.run.Some? && before.output.None? && ReachesEngine(f) && f.engine.Finishes? && !f.convert
    && (before.run.value.forDesign ==> f.store == Commits && f.applying.Applied?)
    && !f.summary && f.finish != RaisesBefore
  }

  /** The output is stored for a design run: by the commit before the design is written. */
  predicate OutputStoredEarly(before: Db, f: Faults)
  {
    && before.run.Some? && before.run.value.forDesign && before.output.None?
    && ReachesEngine(f) && f.engine.Finishes? && !f.convert && f.store != RaisesBefore
  }

  /** The same, and the execution goes on to write the design. */
  predicate StoredForDesign(before: Db, f: Faults)
  {
    OutputStoredEarly(before, f) && f.store == Commits
  }

  /** The failures the task itself reports, each with its message. */
  function Reported(before: Db, f: Faults): Maybe<string>
  {
    if before.run.None? || !ReachesEngine(f) then None
    else match f.engine
      case Refuses(m) => Some(m)
      case Crashes(m) => Some("Unexpected error: " + m)
      case Finishes(_) =>
        if !StoredForDesign(before, f) then None
        else match f.applying
          case Applied(_) => None
          case Locked(_, m) => Some(m)
          case Breaks(_, m) => Some("The engine finished, but its output could not be saved to the design: " + m)
  }

  /** Marking the run failed takes effect. */
  predicate MarkTakes(f: Faults)
  {
    !f.rollback && f.markFailed != RaisesBefore
  }

  /** The first commit takes effect: from here on the execution owns the status. */
  predicate Started(before: Db, f: Faults)
  {
    before.run.Some? && !f.connect && !f.load && f.start != RaisesBefore
  }

  const UNEXPECTED := "The run stopped unexpectedly"

  // ---- What an execution guarantees ------------------------------------------------------

  /** Nothing happens to a run that is not there. */
  predicate MissingRunUntouched(before: Db, after: Db)
  {
    before.run.None? ==> after == before
  }

  /**
   A run that was queued or running, or whose execution got as far as its first commit, ends completed or failed, unless
   an exception escaped and recording it failed as well. Any other run is untouched, and no other status is ever written.
   */
  predicate EndsFinished(before: Db, after: Db, f: Faults, escaped: bool)
  {
    before.run.Some? ==>
      && after.run.Some?
      && ((Unfinished(before.run.value.status) || Started(before, f)) && !(escaped && HandlerFails(f)) ==>
            Finished(after.run.value.status))
      && (Started(before, f) ==> after.run.value.status == Running || Finished(after.run.value.status))
      && (Unfinished(before.run.value.status) && !Started(before, f) ==> after == before || after.run.value.status == Failed)
      && (!Unfinished(before.run.value.status) && !Started(before, f) ==> after == before)
  }

  /** A stored output is never replaced or lost, and a run that has one cannot be completed by running it again. */
  predicate OutputKept(before: Db, after: Db)
  {
    before.output.Some? ==>
      && after.output == before.output
      && (after.run.Some? && after.run.value.status == Completed ==> after == before)
  }

  /** Becoming completed means this execution's output is stored and, for a design run, written into the design. */
  predicate CompletedMeansDone(before: Db, after: Db, f: Faults)
  {
    before.run.Some? && after.run.Some? && after.run.value.status == Completed && after != before ==>
      && after.run.value.error.None? && f.engine.Finishes? && after.output == Some(f.engine.output)
      && (before.run.value.forDesign ==> f.applying.Applied? && after.design == f.applying.design)
  }

  /** Without a design, a run that had no output and was not completed gets its output exactly when it completes. */
  predicate OutputIffCompleted(before: Db, after: Db)
  {
    before.run.Some? && !before.run.value.forDesign && before.output.None? && before.run.value.status != Completed ==>
      (after.output.Some? <==> after.run.Some? && after.run.value.status == Completed)
  }

  /** The design changes only together with completion: a failed apply, however far it got, leaves no trace. */
  predicate DesignAllOrNothing(before: Db, after: Db, f: Faults)
  {
    after.design != before.design ==>
      && before.run.Some? && before.run.value.forDesign && f.applying == Applied(after.design)
      && after.run.Some? && after.run.value.status == Completed
  }

  /** Once the engine's output is stored for a design run, it stays stored whatever happens to the design. */
  predicate StoredOutputSurvives(before: Db, after: Db, f: Faults)
  {
    StoredForDesign(before, f) ==> after.output == Some(f.engine.output)
  }

  /** A run that ends up failed says why, and keeps its kind. */
  predicate FailureRecorded(before: Db, after: Db)
  {
    before.run.Some? && after.run.Some? ==>
      && after.run.value.forDesign == before.run.value.forDesign
      && (after.run.value.status == Failed && after != before ==> after.run.value.error.Some?)
  }

  /** This execution completes the run exactly when every step works. */
  predicate CompletesExactly(before: Db, after: Db, f: Faults)
  {
    EveryStepWorks(before, f) <==> before.run.Some? && after.run.Some? && after.run.value.status == Completed && after != before
  }

  /**
   A failure the task reports fails the run with exactly its message; the design is untouched, and so is the output but
   for one stored before the design was to be written.
   */
  predicate FailureReported(before: Db, after: Db, f: Faults)
  {
    Reported(before, f).Some? && MarkTakes(f) ==>
      after == Db(Some(Run(Failed, before.run.value.forDesign, Reported(before, f))),
                  if OutputStoredEarly(before, f) then Some(f.engine.output) else before.output,
                  before.design)
  }

  /** Every other exception that leaves the run unfinished fails it with the last-resort message, on the same terms. */
  predicate SurpriseRecorded(before: Db, after: Db, f: Faults)
  {
    && before.run.Some? && !EveryStepWorks(before, f) && !(Reported(before, f).Some? && MarkTakes(f))
    && (Unfinished(before.run.value.status) || Started(before, f)) && !HandlerFails(f) ==>
      after == Db(Some(Run(Failed, before.run.value.forDesign, Some(UNEXPECTED))),
                  if OutputStoredEarly(before, f) then Some(f.engine.output) else before.output,
                  before.design)
  }

  /** What the body leaves when an exception escapes it. */
  predicate LeftRunning(before: Db, after: Db, f: Faults)
  {
    Started(before, f) && !EveryStepWorks(before, f) && !(Reported(before, f).Some? && MarkTakes(f)) ==>
      after == Db(Some(Run(Running, before.run.value.forDesign, None)),
                  if OutputStoredEarly(before, f) then Some(f.engine.output) else before.output,
                  before.design)
  }

  predicate Execution(before: Db, after: Db, f: Faults, escaped: bool)
  {
    && MissingRunUntouched(before, after)
    && EndsFinished(before, after, f, escaped)
    && OutputKept(before, after)
    && CompletesExactly(before, after, f)
    && CompletedMeansDone(before, after, f)
    && OutputIffCompleted(before, after)
    && DesignAllOrNothing(before, after, f)
    && StoredOutputSurvives(before, after, f)
    && FailureRecorded(before, after)
    && FailureReported(before, after, f)
    && SurpriseRecorded(before, after, f)
    && (HandlerFails(f) ==> LeftRunning(before, after, f))
  }

  // ---- The session ------------------------------------------------------------------------

  /** A database session: `working` is the open transaction, `adding` an output waiting to be flushed. */
  class Session {
    var committed: Db
    var working: Db
    var adding: Maybe<Output>

    constructor (stored: Db)
      ensures committed == working == stored && adding == None
    {
      committed, working, adding := stored, stored, None;
    }

    /** Flush and commit. A second output for the run violates the unique constraint and takes no effect. */
    method Commit(fate: Fate) returns (raised: bool)
      modifies this
      ensures
        var clash := old(adding).Some? && old(working).output.Some?;
        var written := if old(adding).Some? then old(working).(output := old(adding)) else old(working);
        && committed == (if clash || fate == RaisesBefore then old(committed) else written)
        && raised == (clash || fate != Commits)
        && (!raised ==> working == committed && adding == None)
    {
      if adding.Some? && working.output.Some? {
        return true;
      }
      if fate == RaisesBefore {
        return true;
      }
      if adding.Some? {
        working := working.(output := adding);
        adding := None;
      }
      committed := working;
      raised := fate == RaisesAfter;
    }

    method Rollback(raises: bool) returns (raised: bool)
      modifies this
      ensures committed == old(committed) && raised == raises
      ensures !raised ==> working == committed && adding == None
    {
      if !raises {
        working, adding := committed, None;
      }
      raised := raises;
    }

    method SetStatus(s: Status, error: Maybe<string>)
      requires working.run.Some?
      modifies `working
      ensures working == old(working).(run := Some(old(working).run.value.(status := s, error := error)))
    {
      working := working.(run := Some(working.run.value.(status := s, error := error)));
    }

    /** `_mark_failed`. */
    method MarkFailed(message: string, f: Faults) returns (raised: bool)
      requires committed.run.Some?
      modifies this
      ensures MarkTakes(f) ==>
        committed == old(committed).(run := Some(old(committed).run.value.(status := Failed, error := Some(message))))
      ensures !MarkTakes(f) ==> committed == old(committed) && raised
    {
      raised := Rollback(f.rollback);
      if raised {
        return;
      }
      SetStatus(Failed, Some(message));
      raised := Commit(f.markFailed);
    }

    /** `_run`, up to the closing of the session. */
    method RunBody(f: Faults) returns (raised: bool)
      requires working == committed && adding == None && !f.connect
      modifies this
      ensures MissingRunUntouched(old(committed), committed)
      ensures !Started(old(committed), f) ==> committed == old(committed) && (old(committed).run.Some? ==> raised)
      ensures Started(old(committed), f) ==>
        && committed.run.Some? && committed.run.value.forDesign == old(committed).run.value.forDesign
        && (committed.run.value.status == Running || Finished(committed.run.value.status))
        && (committed.run.value.status == Running ==> raised)
      ensures OutputKept(old(committed), committed)
      ensures CompletedMeansDone(old(committed), committed, f)
      ensures OutputIffCompleted(old(committed), committed)
      ensures DesignAllOrNothing(old(committed), committed, f)
      ensures StoredOutputSurvives(old(committed), committed, f)
      ensures FailureRecorded(old(committed), committed)
      ensures CompletesExactly(old(committed), committed, f)
      ensures FailureReported(old(committed), committed, f)
      ensures LeftRunning(old(committed), committed, f)
    {
      if f.load {
        return true;
      }
      if working.run.None? {
        return false;
      }
      SetStatus(Running, None);
      raised := Commit(f.start);
      if raised || f.layers {
        return true;
      }
      match f.engine {
        case Refuses(message) =>
          raised := MarkFailed(message, f);
          return;
        case Crashes(message) =>
          raised := MarkFailed("Unexpected error: " + message, f);
          return;
        case Finishes(_) =>
      }
      if f.convert {
        return true;
      }
      adding := Some(f.engine.output);
      if working.run.value.forDesign {
        raised := Commit(f.store);
        if raised {
          return;
        }
        working := working.(design := f.applying.design);
        match f.applying {
          case Applied(_) =>
          case Locked(_, message) =>
            raised := MarkFailed(message, f);
            return;
          case Breaks(_, message) =>
            raised := MarkFailed("The engine finished, but its output could not be saved to the design: " + message, f);
            return;
        }
      }
      SetStatus(Completed, None);
      if f.summary {
        return true;
      }
      raised := Commit(f.finish);
    }
  }

  /** `run_fttx_design_task`: the body, the closing of its session, and the last-resort handler for whatever escapes. */
  method RunTask(before: Db, f: Faults) returns (after: Db, escaped: bool)
    ensures Execution(before, after, f, escaped)
  {
    escaped := f.connect;
    after := before;
    if !escaped {
      var session := new Session(before);
      escaped := session.RunBody(f);
      after := session.committed;
      escaped := escaped || f.close;
    }
    if escaped {
      after := FailUnexpectedly(after, f);
    }
  }

  /** `_fail_unexpectedly`: only a queued or running run is marked. */
  method FailUnexpectedly(before: Db, f: Faults) returns (after: Db)
    ensures after == before || (before.run.Some? && Unfinished(before.run.value.status) &&
      after == before.(run := Some(before.run.value.(status := Failed, error := Some(UNEXPECTED)))))
    ensures before.run.Some? && Unfinished(before.run.value.status) && !HandlerFails(f) ==> after != before
    ensures HandlerFails(f) ==> after == before
  {
    after := before;
    if f.handlerConnect {
      return;
    }
    var session := new Session(before);
    if !f.handlerUpdate {
      if before.run.Some? && Unfinished(before.run.value.status) {
        session.SetStatus(Failed, Some(UNEXPECTED));
      }
      var raised := session.Commit(f.handlerCommit);
    }
    after := session.committed;
  }

  // ---- Over every sequence of deliveries -------------------------------------------------

  /** One delivery of the task message, with what it left stored. */
  datatype Delivery = Delivery(faults: Faults, escaped: bool, after: Db)

  predicate Delivered(before: Db, ds: seq<Delivery>)
    decreases |ds|
  {
    ds == [] || (Execution(before, ds[0].after, ds[0].faults, ds[0].escaped) && Delivered(ds[0].after, ds[1..]))
  }

  function Stored(before: Db, ds: seq<Delivery>): Db
  {
    if ds == [] then before else ds[|ds| - 1].after
  }

  predicate CompletedHasOutput(db: Db)
  {
    db.run.Some? && db.run.value.status == Completed ==> db.output.Some?
  }

  lemma {:induction false} DeliveriesKeepOutput(before: Db, ds: seq<Delivery>)
    requires Delivered(before, ds)
    ensures CompletedHasOutput(before) ==> CompletedHasOutput(Stored(before, ds))
    ensures before.output.Some? ==> Stored(before, ds).output == before.output && Stored(before, ds).design == before.design
    decreases |ds|
  {
    if ds != [] {
      var next := ds[0].after;
      DeliveriesKeepOutput(next, ds[1..]);
      assert Stored(before, ds) == Stored(next, ds[1..]);
    }
  }

  /**
   However often the message is delivered and whatever fails, completed always has its output, and once the design
   has been written its output is stored: neither changes again.
   */
  lemma {:induction false} DesignWrittenOnce(before: Db, ds: seq<Delivery>, i: nat)
    requires Delivered(before, ds) && i < |ds| && CompletedHasOutput(before)
    requires ds[i].after.design != Stored(before, ds[..i]).design
    ensures Stored(before, ds).design == ds[i].after.design
    ensures Stored(before, ds).output == ds[i].after.output && ds[i].after.output.Some?
    ensures CompletedHasOutput(Stored(before, ds))
    decreases |ds|
  {
    var next := ds[0].after;
    DeliveriesKeepOutput(before, ds);
    if i == 0 {
      assert ds[..0] == [];
      assert next.run.value.status == Completed && next != before;
      DeliveriesKeepOutput(next, ds[1..]);
    } else {
      assert ds[..i][|ds[..i]| - 1] == ds[i - 1];
      assert i > 1 ==> ds[1..][..i - 1][i - 2] == ds[i - 1];
      DeliveriesKeepOutput(before, ds[..1]) by { assert ds[..1][1..] == []; }
      DesignWrittenOnce(next, ds[1..], i - 1);
    }
    assert |ds| > 1 ==> ds[1..][|ds| - 2] == ds[|ds| - 1];
  }
}
