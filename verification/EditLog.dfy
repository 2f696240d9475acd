/**
 The edit log behind undo and redo: numbered rows, each with a patch forward and a patch back and a mark
 when undone. Undo takes the last row not undone, redo the first undone, and a new operation drops the
 undone ones. Generic in the states and the patches.
 */
module EditLog {
  import opened Optional

  /** A row of design_operations; `undone` says undone_at is set. */
  datatype LogRow<P> = LogRow(forward: P, inverse: P, undone: bool)

  /** A design's rows, by seq number. */
  type Log<P> = map<nat, LogRow<P>>

  function Done<P>(log: Log<P>): set<nat>
  {
    set q | q in log && !log[q].undone
  }

  function Undone<P>(log: Log<P>): set<nat>
  {
    set q | q in log && log[q].undone
  }

  predicate IsLast(q: nat, qs: set<nat>)
  {
    q in qs && forall x | x in qs :: x <= q
  }

  predicate IsFirst(q: nat, qs: set<nat>)
  {
    q in qs && forall x | x in qs :: q <= x
  }

  /** ORDER BY seq DESC LIMIT 1. */
  function Last(qs: set<nat>): (q: nat)
    requires qs != {}
    ensures IsLast(q, qs)
  {
    HasLast(qs);
    var q :| q in qs && IsLast(q, qs);
    q
  }

  lemma {:induction false} HasLast(qs: set<nat>)
    requires qs != {}
    ensures exists q :: q in qs && IsLast(q, qs)
  {
    var q :| q in qs;
    var rest := qs - {q};
    if rest == {} {
      assert qs == {q};
      assert IsLast(q, qs);
    } else {
      HasLast(rest);
      var l :| l in rest && IsLast(l, rest);
      assert qs == rest + {q};
      assert IsLast(if l < q then q else l, qs);
    }
  }

  /** ORDER BY seq ASC LIMIT 1. */
  function First(qs: set<nat>): (q: nat)
    requires qs != {}
    ensures IsFirst(q, qs)
  {
    HasFirst(qs);
    var q :| q in qs && IsFirst(q, qs);
    q
  }

  lemma {:induction false} HasFirst(qs: set<nat>)
    requires qs != {}
    ensures exists q :: q in qs && IsFirst(q, qs)
  {
    var q :| q in qs;
    var rest := qs - {q};
    if rest == {} {
      assert qs == {q};
      assert IsFirst(q, qs);
    } else {
      HasFirst(rest);
      var l :| l in rest && IsFirst(l, rest);
      assert qs == rest + {q};
      assert IsFirst(if l > q then q else l, qs);
    }
  }

  /** coalesce(max(seq), 0) + 1, once the redo branch is gone. */
  function NextSeq<P>(log: Log<P>): nat
  {
    if Done(log) == {} then 1 else Last(Done(log)) + 1
  }

  function Kept<P>(log: Log<P>): Log<P>
  {
    map q | q in log && !log[q].undone :: log[q]
  }

  datatype Command<S, P> = Operate(post: S, forward: P, inverse: P) | Undo | Redo

  /** The current state with its log. */
  datatype Editor<S, P> = Editor(net: S, log: Log<P>)

  /** One request; a refused one (nothing to undo or redo, or a failed transaction) changes nothing. */
  function Handle<S, P>(apply: (S, P) -> Maybe<S>, e: Editor<S, P>, c: Command<S, P>): Editor<S, P>
  {
    match c
    case Operate(post, forward, inverse) =>
      Editor(post, Kept(e.log)[NextSeq(e.log) := LogRow(forward, inverse, false)])
    case Undo =>
      if Done(e.log) == {} then e
      else
        var q := Last(Done(e.log));
        (match apply(e.net, e.log[q].inverse)
         case None => e
         case Some(n) => Editor(n, e.log[q := e.log[q].(undone := true)]))
    case Redo =>
      if Undone(e.log) == {} then e
      else
        var q := First(Undone(e.log));
        (match apply(e.net, e.log[q].forward)
         case None => e
         case Some(n) => Editor(n, e.log[q := e.log[q].(undone := false)]))
  }

  function HandleAll<S, P>(apply: (S, P) -> Maybe<S>, e: Editor<S, P>, run: seq<Command<S, P>>): Editor<S, P>
    decreases |run|
  {
    if run == [] then e else HandleAll(apply, Handle(apply, e, run[0]), run[1..])
  }

  /** The simple design: keep every whole state. */
  datatype Snapshots<S> = Snapshots(past: seq<S>, present: S, future: seq<S>)

  function HandleSimply<S, P>(z: Snapshots<S>, c: Command<S, P>): Snapshots<S>
  {
    match c
    case Operate(post, _, _) => Snapshots(z.past + [z.present], post, [])
    case Undo =>
      if z.past == [] then z
      else Snapshots(z.past[..|z.past| - 1], z.past[|z.past| - 1], [z.present] + z.future)
    case Redo =>
      if z.future == [] then z
      else Snapshots(z.past + [z.present], z.future[0], z.future[1..])
  }

  function HandleAllSimply<S, P>(z: Snapshots<S>, run: seq<Command<S, P>>): Snapshots<S>
    decreases |run|
  {
    if run == [] then z else HandleAllSimply(HandleSimply(z, run[0]), run[1..])
  }

  function Timeline<S>(z: Snapshots<S>): (states: seq<S>)
    ensures |states| == |z.past| + 1 + |z.future|
  {
    z.past + [z.present] + z.future
  }

  /** The patches of a row lead from one state to the next and back. */
  predicate Bridges<S(==), P>(apply: (S, P) -> Maybe<S>, forward: P, inverse: P, before: S, after: S)
  {
    apply(before, forward) == Some(after) && apply(after, inverse) == Some(before)
  }

  /** Every operation of the run comes with patches that lead from the state it met to its result and back. */
  ghost predicate BridgedRun<S, P>(apply: (S, P) -> Maybe<S>, e: Editor<S, P>, run: seq<Command<S, P>>)
    decreases |run|
  {
    run == [] ||
    (&& (run[0].Operate? ==> Bridges(apply, run[0].forward, run[0].inverse, e.net, run[0].post))
     && BridgedRun(apply, Handle(apply, e, run[0]), run[1..]))
  }

  /** `keys` are the log's seq numbers in order; the first `done` rows are done, the others undone. */
  ghost predicate Ordered<P>(log: Log<P>, keys: seq<nat>, done: nat)
  {
    && done <= |keys|
    && (forall i, j | 0 <= i < j < |keys| :: keys[i] < keys[j])
    && (forall q: nat :: q in log <==> q in keys)
    && (forall i | 0 <= i < |keys| :: log[keys[i]].undone <==> i >= done)
  }

  /** Each row leads from one state of the timeline to the next. */
  ghost predicate Linked<S, P>(apply: (S, P) -> Maybe<S>, log: Log<P>, keys: seq<nat>, states: seq<S>)
  {
    && |states| == |keys| + 1
    && (forall q | q in keys :: q in log)
    && (forall i | 0 <= i < |keys| ::
          Bridges(apply, log[keys[i]].forward, log[keys[i]].inverse, states[i], states[i + 1]))
  }

  ghost predicate RefinesBy<S, P>(apply: (S, P) -> Maybe<S>, e: Editor<S, P>, z: Snapshots<S>, keys: seq<nat>)
  {
    Ordered(e.log, keys, |z.past|) && Linked(apply, e.log, keys, Timeline(z)) && e.net == z.present
  }

  ghost predicate Refines<S, P>(apply: (S, P) -> Maybe<S>, e: Editor<S, P>, z: Snapshots<S>)
  {
    exists keys :: RefinesBy(apply, e, z, keys)
  }

  lemma DoneKeys<P>(log: Log<P>, keys: seq<nat>, done: nat)
    requires Ordered(log, keys, done)
    ensures forall i | 0 <= i < done :: keys[i] in Done(log)
    ensures forall q | q in Done(log) :: q in keys[..done]
    ensures done == 0 <==> Done(log) == {}
    ensures done > 0 ==> Last(Done(log)) == keys[done - 1]
  {
    forall q | q in Done(log) ensures q in keys[..done] {
      var i :| 0 <= i < |keys| && keys[i] == q;
      assert keys[..done][i] == q;
    }
    if done > 0 { assert keys[done - 1] in Done(log); }
  }

  lemma UndoneKeys<P>(log: Log<P>, keys: seq<nat>, done: nat)
    requires Ordered(log, keys, done)
    ensures done == |keys| <==> Undone(log) == {}
    ensures done < |keys| ==> First(Undone(log)) == keys[done]
  {
    forall q | q in Undone(log) ensures q in keys[done..] {
      var i :| 0 <= i < |keys| && keys[i] == q;
      assert keys[done..][i - done] == q;
    }
    if done < |keys| { assert keys[done] in Undone(log); }
  }

  /** Marking the row at the boundary moves the boundary and leaves every patch where it was. */
  lemma MarkMovesBoundary<S, P>(apply: (S, P) -> Maybe<S>, log: Log<P>, keys: seq<nat>, done: nat, i: nat, undone: bool, states: seq<S>)
    requires Ordered(log, keys, done) && Linked(apply, log, keys, states) && i < |keys|
    requires if undone then i + 1 == done else i == done
    ensures keys[i] in log
    ensures Ordered(log[keys[i] := log[keys[i]].(undone := undone)], keys, if undone then i else i + 1)
    ensures Linked(apply, log[keys[i] := log[keys[i]].(undone := undone)], keys, states)
  {
    assert keys[i] in keys;
  }

  lemma UndoTimeline<S, P>(z: Snapshots<S>)
    ensures Timeline(HandleSimply<S, P>(z, Undo)) == Timeline(z)
  {
  }

  lemma RedoTimeline<S, P>(z: Snapshots<S>)
    ensures Timeline(HandleSimply<S, P>(z, Redo)) == Timeline(z)
  {
  }

  lemma UndoRefines<S, P>(apply: (S, P) -> Maybe<S>, e: Editor<S, P>, z: Snapshots<S>, keys: seq<nat>)
    requires RefinesBy(apply, e, z, keys)
    ensures RefinesBy(apply, Handle(apply, e, Undo), HandleSimply<S, P>(z, Undo), keys)
  {
    DoneKeys(e.log, keys, |z.past|);
    if z.past != [] {
      var k := |z.past| - 1;
      UndoTimeline<S, P>(z);
      assert Bridges(apply, e.log[keys[k]].forward, e.log[keys[k]].inverse, Timeline(z)[k], Timeline(z)[k + 1]);
      MarkMovesBoundary(apply, e.log, keys, |z.past|, k, true, Timeline(z));
    }
  }

  lemma RedoRefines<S, P>(apply: (S, P) -> Maybe<S>, e: Editor<S, P>, z: Snapshots<S>, keys: seq<nat>)
    requires RefinesBy(apply, e, z, keys)
    ensures RefinesBy(apply, Handle(apply, e, Redo), HandleSimply<S, P>(z, Redo), keys)
  {
    UndoneKeys(e.log, keys, |z.past|);
    if z.future != [] {
      var k := |z.past|;
      RedoTimeline<S, P>(z);
      assert Bridges(apply, e.log[keys[k]].forward, e.log[keys[k]].inverse, Timeline(z)[k], Timeline(z)[k + 1]);
      MarkMovesBoundary(apply, e.log, keys, |z.past|, k, false, Timeline(z));
    }
  }

  lemma NextSeqAfterAll<P>(log: Log<P>, keys: seq<nat>, done: nat)
    requires Ordered(log, keys, done)
    ensures NextSeq(log) !in Kept(log)
    ensures forall i | 0 <= i < done :: keys[i] in Kept(log) && keys[i] < NextSeq(log)
    ensures forall q | q in Kept(log) :: q in keys[..done]
  {
  }

  /** A new row ends the redo branch and goes after every row that is left. */
  lemma NewRowOrdered<P>(log: Log<P>, keys: seq<nat>, done: nat, row: LogRow<P>)
    requires Ordered(log, keys, done) && !row.undone
    ensures Ordered(Kept(log)[NextSeq(log) := row], keys[..done] + [NextSeq(log)], done + 1)
    ensures forall i | 0 <= i < done :: keys[i] in log && keys[i] != NextSeq(log) && !log[keys[i]].undone
  {
    NextSeqAfterAll(log, keys, done);
    var q, kept := NextSeq(log), keys[..done];
    forall x: nat ensures x in Kept(log)[q := row] <==> x in kept + [q] {
      if x in kept { var i :| 0 <= i < done && keys[i] == x; }
    }
  }

  lemma OperateRefines<S, P>(apply: (S, P) -> Maybe<S>, e: Editor<S, P>, z: Snapshots<S>, keys: seq<nat>, c: Command<S, P>)
    requires RefinesBy(apply, e, z, keys) && c.Operate? && Bridges(apply, c.forward, c.inverse, e.net, c.post)
    ensures RefinesBy(apply, Handle(apply, e, c), HandleSimply(z, c), keys[..|z.past|] + [NextSeq(e.log)])
  {
    var done, row := |z.past|, LogRow(c.forward, c.inverse, false);
    var keys', log' := keys[..done] + [NextSeq(e.log)], Kept(e.log)[NextSeq(e.log) := row];
    NewRowOrdered(e.log, keys, done, row);
    var states, states' := Timeline(z), Timeline(HandleSimply(z, c));
    assert states'[..done + 1] == states[..done + 1] && states'[done + 1] == c.post && |states'| == done + 2;
    forall i | 0 <= i < |keys'| ensures Bridges(apply, log'[keys'[i]].forward, log'[keys'[i]].inverse, states'[i], states'[i + 1]) {
      if i < done {
        assert Bridges(apply, e.log[keys[i]].forward, e.log[keys[i]].inverse, states[i], states[i + 1]);
        assert states'[i] == states'[..done + 1][i] && states'[i + 1] == states'[..done + 1][i + 1];
      }
    }
  }

  lemma HandleRefines<S, P>(apply: (S, P) -> Maybe<S>, e: Editor<S, P>, z: Snapshots<S>, c: Command<S, P>)
    requires Refines(apply, e, z)
    requires c.Operate? ==> Bridges(apply, c.forward, c.inverse, e.net, c.post)
    ensures Refines(apply, Handle(apply, e, c), HandleSimply(z, c))
  {
    var keys :| RefinesBy(apply, e, z, keys);
    match c {
      case Operate(_, _, _) => OperateRefines(apply, e, z, keys, c);
      case Undo => UndoRefines(apply, e, z, keys);
      case Redo => RedoRefines(apply, e, z, keys);
    }
  }

  /** Over every run of operations, undos and redos, the log behaves as if whole states had been kept. */
  lemma {:induction false} RunRefines<S, P>(apply: (S, P) -> Maybe<S>, e: Editor<S, P>, z: Snapshots<S>, run: seq<Command<S, P>>)
    requires Refines(apply, e, z) && BridgedRun(apply, e, run)
    ensures Refines(apply, HandleAll(apply, e, run), HandleAllSimply(z, run))
    ensures HandleAll(apply, e, run).net == HandleAllSimply(z, run).present
    decreases |run|
  {
    if run != [] {
      HandleRefines(apply, e, z, run[0]);
      RunRefines(apply, Handle(apply, e, run[0]), HandleSimply(z, run[0]), run[1..]);
    }
  }

  lemma FreshLogRefines<S, P>(apply: (S, P) -> Maybe<S>, state: S)
    ensures Refines(apply, Editor(state, map[]), Snapshots([], state, []))
  {
    assert RefinesBy(apply, Editor(state, map[]), Snapshots([], state, []), []);
  }

  // ---- The numbering -----------------------------------------------------------------------

  /** The rows are numbered from 1 without a gap, and those after the first `done` are undone. */
  ghost predicate Numbered<P>(log: Log<P>, done: nat, all: nat)
  {
    && done <= all
    && (forall q: nat :: q in log <==> 1 <= q <= all)
    && (forall q | q in log :: log[q].undone <==> q > done)
  }

  lemma NumberedEnds<P>(log: Log<P>, done: nat, all: nat)
    requires Numbered(log, done, all)
    ensures if done == 0 then Done(log) == {} else Done(log) != {} && Last(Done(log)) == done
    ensures if done == all then Undone(log) == {} else Undone(log) != {} && First(Undone(log)) == done + 1
  {
    if done > 0 { assert done in Done(log); }
    if done < all { assert done + 1 in Undone(log); }
  }

  /**
   What one request does to a log with rows 1 to `all`, `done` of them not undone: an operation becomes row `done` + 1 and
   the last one; an undo applies the inverse patch of row `done` and marks it; a redo applies the forward patch of row
   `done` + 1 and clears its mark; with no such row, or a patch that fails, nothing changes.
   */
  lemma HandleExact<S, P>(apply: (S, P) -> Maybe<S>, e: Editor<S, P>, c: Command<S, P>, done: nat, all: nat)
    requires Numbered(e.log, done, all)
    ensures var after := Handle(apply, e, c);
      match c
      case Operate(post, forward, inverse) =>
        && after.net == post && Numbered(after.log, done + 1, done + 1) && after.log[done + 1] == LogRow(forward, inverse, false)
        && forall q | 1 <= q <= done :: after.log[q] == e.log[q]
      case Undo =>
        if done == 0 || apply(e.net, e.log[done].inverse).None? then after == e
        else
          && Some(after.net) == apply(e.net, e.log[done].inverse) && Numbered(after.log, done - 1, all)
          && forall q | q in e.log :: after.log[q].forward == e.log[q].forward && after.log[q].inverse == e.log[q].inverse
      case Redo =>
        if done == all || apply(e.net, e.log[done + 1].forward).None? then after == e
        else
          && Some(after.net) == apply(e.net, e.log[done + 1].forward) && Numbered(after.log, done + 1, all)
          && forall q | q in e.log :: after.log[q].forward == e.log[q].forward && after.log[q].inverse == e.log[q].inverse
  {
    NumberedEnds(e.log, done, all);
  }

  /** Over every run from an empty log the rows are numbered 1, 2, 3 and so on, the undone ones last. */
  lemma {:induction false} RunNumbered<S, P>(
    apply: (S, P) -> Maybe<S>, e: Editor<S, P>, run: seq<Command<S, P>>, done: nat, all: nat) returns (done': nat, all': nat)
    requires Numbered(e.log, done, all)
    ensures Numbered(HandleAll(apply, e, run).log, done', all')
    decreases |run|
  {
    done', all' := done, all;
    if run != [] {
      HandleExact(apply, e, run[0], done, all);
      var d, n := done, all;
      if run[0].Operate? {
        d, n := done + 1, done + 1;
      } else if run[0].Undo? && done > 0 && apply(e.net, e.log[done].inverse).Some? {
        d := done - 1;
      } else if run[0].Redo? && done < all && apply(e.net, e.log[done + 1].forward).Some? {
        d := done + 1;
      }
      done', all' := RunNumbered(apply, Handle(apply, e, run[0]), run[1..], d, n);
    }
  }

  // ---- Undo everything, redo everything --------------------------------------------------

  function Times<S, P>(c: Command<S, P>, n: nat): seq<Command<S, P>>
  {
    if n == 0 then [] else [c] + Times(c, n - 1)
  }

  lemma {:induction false} StacksUndo<S, P>(z: Snapshots<S>, n: nat)
    requires n <= |z.past|
    ensures HandleAllSimply(z, Times<S, P>(Undo, n)).present == Timeline(z)[|z.past| - n]
    decreases n
  {
    if n > 0 {
      UndoTimeline<S, P>(z);
      StacksUndo<S, P>(HandleSimply<S, P>(z, Undo), n - 1);
    }
  }

  lemma {:induction false} RedoAtEnd<S, P>(n: nat)
    requires n > 0
    ensures Times<S, P>(Redo, n) == Times<S, P>(Redo, n - 1) + [Redo]
  {
    if n > 1 { RedoAtEnd<S, P>(n - 1); }
  }

  /** Nothing has to be assumed of a run without operations. */
  lemma {:induction false} MovesAreBridged<S, P>(apply: (S, P) -> Maybe<S>, e: Editor<S, P>, run: seq<Command<S, P>>)
    requires forall i | 0 <= i < |run| :: !run[i].Operate?
    ensures BridgedRun(apply, e, run)
    decreases |run|
  {
    if run != [] { MovesAreBridged(apply, Handle(apply, e, run[0]), run[1..]); }
  }

  lemma {:induction false} TimesMoves<S, P>(c: Command<S, P>, n: nat)
    ensures |Times(c, n)| == n && forall i | 0 <= i < n :: Times(c, n)[i] == c
  {
    if n > 0 { TimesMoves(c, n - 1); }
  }

  lemma BackAndForth<S, P>(apply: (S, P) -> Maybe<S>, e: Editor<S, P>, q: nat, earlier: S)
    requires q in e.log && !e.log[q].undone && Done(e.log) != {} && Last(Done(e.log)) == q
    requires Bridges(apply, e.log[q].forward, e.log[q].inverse, earlier, e.net)
    requires var marked := e.log[q := e.log[q].(undone := true)]; Undone(marked) != {} && First(Undone(marked)) == q
    ensures Handle(apply, Handle(apply, e, Undo), Redo) == e
  {
    var marked := e.log[q := e.log[q].(undone := true)];
    assert Handle(apply, e, Undo) == Editor(earlier, marked);
    assert marked[q := marked[q].(undone := false)] == e.log;
  }

  /** One undo and one redo give the editor back, marks included. */
  lemma UndoRedoOne<S, P>(apply: (S, P) -> Maybe<S>, e: Editor<S, P>, z: Snapshots<S>)
    requires Refines(apply, e, z) && z.past != []
    ensures Handle(apply, Handle(apply, e, Undo), Redo) == e
  {
    var keys :| RefinesBy(apply, e, z, keys);
    var k := |z.past| - 1;
    var q := keys[k];
    DoneKeys(e.log, keys, |z.past|);
    MarkMovesBoundary(apply, e.log, keys, |z.past|, k, true, Timeline(z));
    UndoneKeys(e.log[q := e.log[q].(undone := true)], keys, k);
    assert Bridges(apply, e.log[q].forward, e.log[q].inverse, Timeline(z)[k], Timeline(z)[k + 1]);
    BackAndForth(apply, e, q, Timeline(z)[k]);
  }

  lemma {:induction false} HandleLast<S, P>(apply: (S, P) -> Maybe<S>, e: Editor<S, P>, run: seq<Command<S, P>>, c: Command<S, P>)
    ensures HandleAll(apply, e, run + [c]) == Handle(apply, HandleAll(apply, e, run), c)
    decreases |run|
  {
    if run == [] {
      assert run + [c] == [c] && [c][1..] == [];
    } else {
      assert (run + [c])[1..] == run[1..] + [c];
      HandleLast(apply, Handle(apply, e, run[0]), run[1..], c);
    }
  }

  /** Undoing n times and redoing n times gives the whole editor back, log and marks included. */
  lemma {:induction false} RedoReturns<S, P>(apply: (S, P) -> Maybe<S>, e: Editor<S, P>, z: Snapshots<S>, n: nat)
    requires Refines(apply, e, z) && n <= |z.past|
    ensures HandleAll(apply, e, Times(Undo, n) + Times(Redo, n)) == e
    decreases n
  {
    if n > 0 {
      var undos, redos := Times<S, P>(Undo, n - 1), Times<S, P>(Redo, n - 1);
      var back := Handle(apply, e, Command<S, P>.Undo);
      HandleRefines(apply, e, z, Command<S, P>.Undo);
      RedoReturns(apply, back, HandleSimply<S, P>(z, Undo), n - 1);
      RedoAtEnd<S, P>(n);
      assert Times<S, P>(Undo, n) + Times<S, P>(Redo, n) == [Undo] + ((undos + redos) + [Redo]);
      HandleLast(apply, back, undos + redos, Command<S, P>.Redo);
      UndoRedoOne(apply, e, z);
    }
  }

  /**
   Main result on the log itself. Undoing n times applies n stored patches and reaches the state n operations back;
   redoing n times applies the other patches and gives the editor back exactly, its log and marks included.
   */
  lemma UndoThenRedo<S, P>(apply: (S, P) -> Maybe<S>, e: Editor<S, P>, z: Snapshots<S>, n: nat)
    requires Refines(apply, e, z) && n <= |z.past|
    ensures HandleAll(apply, e, Times(Undo, n)).net == Timeline(z)[|z.past| - n]
    ensures HandleAll(apply, e, Times(Undo, n) + Times(Redo, n)) == e
  {
    var undos := Times<S, P>(Undo, n);
    TimesMoves<S, P>(Undo, n);
    StacksUndo<S, P>(z, n);
    MovesAreBridged(apply, e, undos);
    RunRefines(apply, e, z, undos);
    RedoReturns(apply, e, z, n);
  }
}
