/**
 The design editor's operations, one by one, as the rows they read, snapshot, insert and change. The result: all but
 DELETE_ASSET snapshot every row they change, so over every run of requests, undos and redos undo is exact with no
 assumption but that each asset deletion is contained.

 What an operation computes from geometry, codes, categories and soft-delete marks is part of the request, so the results
 hold whatever it computes. A request the editor refuses changes nothing.
 */
module DesignRequests {
  import opened DesignOperations
  import opened EditLog
  import opened Optional

  /** What `_feed_link` finds to do: the connection to insert, unless there is one, and the fed asset's new attributes. */
  datatype FeedNote = FeedNote(link: Maybe<(Id, string)>, head: Maybe<string>)

  datatype Request =
    | AddAsset(id: Id, parent: Maybe<Id>, data: string)
    | MoveAsset(asset: Id, places: map<Id, string>, recalc: bool, live: set<Id>, lines: map<Id, string>)
    | UpdateAsset(asset: Id, data: string)
    | UpdateCable(cable: Id, data: string)
    | DrawCable(id: Id, from: Maybe<Id>, to: Maybe<Id>, data: string, feeding: bool, note: FeedNote)
    | DeleteCable(cable: Id)
    | EditCableGeom(cable: Id, data: string)
    | SplitCable(cable: Id, insert: Maybe<(Id, string)>, id: Id, newData: string, data: string)
    | ExtendCable(cable: Id, atStart: bool, target: Maybe<Id>, data: string, feeding: bool, note: FeedNote)
    | Feed(source: Id, dest: Id, note: FeedNote)
    | Connect(id: Id, source: Id, dest: Id, data: string)
    | Disconnect(link: Id)
    | DeleteAsset(request: DeleteRequest)

  // ---- The rows an operation touches, makes and sets ---------------------------------------

  /** One statement: a snapshot by the tracker, an insert reported to it, or an update. */
  datatype Write =
    | TouchAssets(ids: set<Id>)
    | TouchCables(ids: set<Id>)
    | MakeAsset(id: Id, asset: Asset)
    | MakeCable(id: Id, cable: Cable)
    | MakeLink(id: Id, link: Link)
    | SetAssets(datas: map<Id, string>)
    | SetCables(datas: map<Id, string>)
    | SetCableEnd(id: Id, atStart: bool, end: Maybe<Id>, data: string)

  /** The tables and the tracker inside the open transaction. */
  datatype Work = Work(net: Net, tr: Tracker)

  const UNTRACKED := Tracker(map[], map[], map[], {}, {}, {})

  /** `Tracker.touch`: the rows that exist and were neither made nor snapshotted before; the first snapshot wins. */
  function Touch<R>(rows: map<Id, R>, before: map<Id, R>, made: set<Id>, ids: set<Id>): map<Id, R>
  {
    Restrict(rows, ids - made) + before
  }

  function WithEnd(c: Cable, atStart: bool, end: Maybe<Id>, data: string): Cable
  {
    if atStart then c.(source := end, data := data) else c.(dest := end, data := data)
  }

  /** `None` is a statement the database refuses: a key that is taken, or a reference to nothing. */
  function Execute(w: Work, s: Write): Maybe<Work>
  {
    var n := w.net;
    match s
    case TouchAssets(ids) => Some(w.(tr := w.tr.(assets := Touch(n.assets, w.tr.assets, w.tr.madeAssets, ids))))
    case TouchCables(ids) => Some(w.(tr := w.tr.(cables := Touch(n.cables, w.tr.cables, w.tr.madeCables, ids))))
    case MakeAsset(id, a) =>
      if id in n.assets || !AssetOk(a, n.assets.Keys + {id}) then None
      else Some(Work(n.(assets := n.assets[id := a]), w.tr.(madeAssets := w.tr.madeAssets + {id})))
    case MakeCable(id, c) =>
      if id in n.cables || !CableOk(c, n.assets.Keys) then None
      else Some(Work(n.(cables := n.cables[id := c]), w.tr.(madeCables := w.tr.madeCables + {id})))
    case MakeLink(id, l) =>
      if id in n.links || !LinkOk(l, n.assets.Keys, n.cables.Keys) then None
      else Some(Work(n.(links := n.links[id := l]), w.tr.(madeLinks := w.tr.madeLinks + {id})))
    case SetAssets(datas) =>
      Some(w.(net := n.(assets := map id | id in n.assets ::
        if id in datas then n.assets[id].(data := datas[id]) else n.assets[id])))
    case SetCables(datas) =>
      Some(w.(net := n.(cables := map id | id in n.cables ::
        if id in datas then n.cables[id].(data := datas[id]) else n.cables[id])))
    case SetCableEnd(id, atStart, end, data) =>
      if !RefOk(end, n.assets.Keys) then None
      else if id !in n.cables then Some(w)
      else Some(w.(net := n.(cables := n.cables[id := WithEnd(n.cables[id], atStart, end, data)])))
  }

  function ExecuteAll(w: Work, script: seq<Write>): Maybe<Work>
    decreases |script|
  {
    if script == [] then Some(w)
    else match Execute(w, script[0])
      case None => None
      case Some(next) => ExecuteAll(next, script[1..])
  }

  /** The session in which `apply_operation` runs: statements one after the other, the first refusal ends it. */
  class Transaction {
    var net: Net
    var tr: Tracker

    constructor (net: Net)
      ensures this.net == net && tr == UNTRACKED
    {
      this.net, tr := net, UNTRACKED;
    }

    method Run(script: seq<Write>) returns (ok: bool)
      modifies this
      ensures ok <==> ExecuteAll(old(Work(net, tr)), script).Some?
      ensures ok ==> Some(Work(net, tr)) == ExecuteAll(old(Work(net, tr)), script)
    {
      ghost var start := Work(net, tr);
      var i := 0;
      while i < |script|
        invariant 0 <= i <= |script|
        invariant ExecuteAll(start, script) == ExecuteAll(Work(net, tr), script[i..])
      {
        var next := Execute(Work(net, tr), script[i]);
        assert script[i..][1..] == script[i + 1..];
        if next.None? {
          return false;
        }
        net, tr := next.value.net, next.value.tr;
        i := i + 1;
      }
      ok := true;
    }
  }

  // ---- The operations ----------------------------------------------------------------------

  predicate InDesign(n: Net, d: Id, asset: Id)
  {
    asset in n.assets && n.assets[asset].design == Some(d)
  }

  /** An asset of the design or of the live network. */
  predicate Reachable(n: Net, d: Id, asset: Id)
  {
    asset in n.assets && (n.assets[asset].design == Some(d) || n.assets[asset].design.None?)
  }

  predicate EndReachable(n: Net, d: Id, end: Maybe<Id>)
  {
    end.Some? ==> Reachable(n, d, end.value)
  }

  predicate CableInDesign(n: Net, d: Id, cable: Id)
  {
    cable in n.cables && n.cables[cable].design == Some(d)
  }

  function WithChildren(n: Net, d: Id, asset: Id): set<Id>
  {
    {asset} + set k | k in n.assets && n.assets[k].parent == Some(asset) && n.assets[k].design == Some(d)
  }

  function CablesAt(n: Net, d: Id, live: set<Id>, ids: set<Id>): set<Id>
  {
    set id | id in n.cables && id in live && n.cables[id].design == Some(d) && CableTouches(n.cables[id], ids)
  }

  function Only(datas: map<Id, string>, ids: set<Id>): map<Id, string>
  {
    map id | id in datas && id in ids :: datas[id]
  }

  /** `_feed_link`. */
  function FeedScript(n: Net, source: Id, dest: Id, via: Maybe<Id>, note: FeedNote): seq<Write>
  {
    (if note.link.Some? then [MakeLink(note.link.value.0, Link(source, dest, via, note.link.value.1))] else [])
    + if note.head.Some? && dest in n.assets && n.assets[dest].design.Some?
      then [TouchAssets({dest}), SetAssets(map[dest := note.head.value])] else []
  }

  /** The statements of an operation that deletes nothing, or None if a lookup refuses the request. */
  function Script(n: Net, d: Id, r: Request): Maybe<seq<Write>>
    requires !r.DeleteCable? && !r.Disconnect? && !r.DeleteAsset?
  {
    match r
    case AddAsset(id, parent, data) =>
      if parent.Some? && !InDesign(n, d, parent.value) then None
      else Some([MakeAsset(id, Asset(parent, Some(d), data))])
    case MoveAsset(asset, places, recalc, live, lines) =>
      if !InDesign(n, d, asset) then None
      else
        var family := WithChildren(n, d, asset);
        var own, all := CablesAt(n, d, live, {asset}), CablesAt(n, d, live, family);
        Some([TouchAssets(family), TouchCables(own), SetAssets(Only(places, family))]
             + if recalc then [TouchCables(all), SetCables(Only(lines, all))] else [SetCables(Only(lines, own))])
    case UpdateAsset(asset, data) =>
      if !InDesign(n, d, asset) then None else Some([TouchAssets({asset}), SetAssets(map[asset := data])])
    case UpdateCable(cable, data) =>
      if !CableInDesign(n, d, cable) then None else Some([TouchCables({cable}), SetCables(map[cable := data])])
    case DrawCable(id, from, to, data, feeding, note) =>
      if !EndReachable(n, d, from) || !EndReachable(n, d, to) then None
      else
        Some([MakeCable(id, Cable(from, to, Some(d), data))]
             + if feeding && from.Some? && to.Some? && from != to
               then FeedScript(n, from.value, to.value, Some(id), note) else [])
    case EditCableGeom(cable, data) =>
      if !CableInDesign(n, d, cable) then None else Some([TouchCables({cable}), SetCables(map[cable := data])])
    case SplitCable(cable, insert, id, newData, data) =>
      if !CableInDesign(n, d, cable) then None
      else
        var cut := if insert.Some? then Some(insert.value.0) else None;
        Some([TouchCables({cable})]
             + (if insert.Some? then [MakeAsset(insert.value.0, Asset(None, Some(d), insert.value.1))] else [])
             + [MakeCable(id, Cable(cut, n.cables[cable].dest, Some(d), newData)), SetCableEnd(cable, false, cut, data)])
    case ExtendCable(cable, atStart, target, data, feeding, note) =>
      if !CableInDesign(n, d, cable) || !EndReachable(n, d, target) then None
      else
        var other := if atStart then n.cables[cable].dest else n.cables[cable].source;
        var first := [TouchCables({cable}), SetCableEnd(cable, atStart, target, data)];
        if target.None? || !feeding || other.None? then Some(first)
        else if !Reachable(n, d, other.value) then None
        else
          var (from, to) := if atStart then (target.value, other.value) else (other.value, target.value);
          Some(first + FeedScript(n, from, to, Some(cable), note))
    case Feed(source, dest, note) =>
      if !Reachable(n, d, source) || !InDesign(n, d, dest) || source == dest || note.link.None? then None
      else Some(FeedScript(n, source, dest, None, note))
    case Connect(id, source, dest, data) =>
      if !Reachable(n, d, source) || !InDesign(n, d, dest) || source == dest then None
      else Some([MakeLink(id, Link(source, dest, None, data))])
  }

  /** DELETE_CABLE and DISCONNECT with the rows they snapshot first. */
  function CableDeleted(n: Net, cable: Id): Work
  {
    var via := set id | id in n.links && n.links[id].via == Some(cable);
    Work(DropCables(n, {cable}), UNTRACKED.(cables := Restrict(n.cables, {cable}), links := Restrict(n.links, via)))
  }

  function Disconnected(n: Net, link: Id): Work
  {
    Work(DropLinks(n, {link}), UNTRACKED.(links := Restrict(n.links, {link})))
  }

  /** One request on a design: the tables after it and its tracker, or None if it is refused. */
  function Perform(n: Net, d: Id, r: Request): Maybe<Work>
  {
    if r.DeleteAsset? then
      if r.request.design != d || !InDesign(n, d, r.request.asset) then None
      else Some(Work(Deleted(n, r.request), DeleteTracker(n, r.request)))
    else if r.DeleteCable? then if !CableInDesign(n, d, r.cable) then None else Some(CableDeleted(n, r.cable))
    else if r.Disconnect? then if r.link !in n.links then None else Some(Disconnected(n, r.link))
    else match Script(n, d, r)
      case None => None
      case Some(script) => ExecuteAll(Work(n, UNTRACKED), script)
  }

  // ---- Every row is snapshotted before it is set -------------------------------------------

  /** The assets and cables a script has touched or made so far. */
  datatype Cover = Cover(assets: set<Id>, cables: set<Id>)

  function Covered(c: Cover, s: Write): Cover
  {
    match s
    case TouchAssets(ids) => c.(assets := c.assets + ids)
    case TouchCables(ids) => c.(cables := c.cables + ids)
    case MakeAsset(id, _) => c.(assets := c.assets + {id})
    case MakeCable(id, _) => c.(cables := c.cables + {id})
    case _ => c
  }

  /** The statement sets only rows touched or made before. */
  predicate Allowed(c: Cover, s: Write)
  {
    match s
    case SetAssets(datas) => datas.Keys <= c.assets
    case SetCables(datas) => datas.Keys <= c.cables
    case SetCableEnd(id, _, _, _) => id in c.cables
    case _ => true
  }

  predicate Careful(c: Cover, script: seq<Write>)
    decreases |script|
  {
    script == [] || (Allowed(c, script[0]) && Careful(Covered(c, script[0]), script[1..]))
  }

  lemma FeedCareful(n: Net, source: Id, dest: Id, via: Maybe<Id>, note: FeedNote, c: Cover)
    ensures Careful(c, FeedScript(n, source, dest, via, note))
  {
    var feed := FeedScript(n, source, dest, via, note);
    var head := [TouchAssets({dest}), SetAssets(map[dest := if note.head.Some? then note.head.value else ""])];
    assert head[1..][1..] == [];
    assert Careful(c, head);
    if note.link.Some? {
      assert feed[1..] == [] || feed[1..] == head;
    } else {
      assert feed == [] || feed == head;
    }
  }

  const NOTHING := Cover({}, {})

  /** Each operation touches a row before it sets it. */
  lemma ScriptsCareful(n: Net, d: Id, r: Request)
    requires !r.DeleteCable? && !r.Disconnect? && !r.DeleteAsset? && Script(n, d, r).Some?
    ensures Careful(NOTHING, Script(n, d, r).value)
  {
    var script := Script(n, d, r).value;
    match r {
      case MoveAsset(asset, places, recalc, live, lines) => MoveCareful(n, d, r);
      case DrawCable(id, from, to, data, feeding, note) =>
        if |script| > 1 {
          var feed := FeedScript(n, from.value, to.value, Some(id), note);
          assert script[1..] == feed;
          FeedCareful(n, from.value, to.value, Some(id), note, Covered(NOTHING, script[0]));
        }
      case SplitCable(cable, insert, id, newData, data) => SplitCareful(n, d, r);
      case ExtendCable(cable, atStart, target, data, feeding, note) => ExtendCareful(n, d, r);
      case Feed(source, dest, note) => FeedCareful(n, source, dest, None, note, NOTHING);
      case AddAsset(_, _, _) => assert script[1..] == [];
      case Connect(_, _, _, _) => assert script[1..] == [];
      case UpdateAsset(_, _) => assert script[1..][1..] == [];
      case UpdateCable(_, _) => assert script[1..][1..] == [];
      case EditCableGeom(_, _) => assert script[1..][1..] == [];
    }
  }

  lemma MoveCareful(n: Net, d: Id, r: Request)
    requires r.MoveAsset? && Script(n, d, r).Some?
    ensures Careful(NOTHING, Script(n, d, r).value)
  {
    var family := WithChildren(n, d, r.asset);
    var own, all := CablesAt(n, d, r.live, {r.asset}), CablesAt(n, d, r.live, family);
    var first := [TouchAssets(family), TouchCables(own), SetAssets(Only(r.places, family))];
    var rest := if r.recalc then [TouchCables(all), SetCables(Only(r.lines, all))] else [SetCables(Only(r.lines, own))];
    var script := first + rest;
    var c := Cover(family, own);
    assert script[1..][1..][1..] == rest;
    assert rest[1..] == [] || rest[1..][1..] == [];
    assert Careful(c, rest);
    assert Careful(c, script[1..][1..]);
    assert Covered(Covered(NOTHING, script[0]), script[1]) == c;
  }

  lemma SplitCareful(n: Net, d: Id, r: Request)
    requires r.SplitCable? && Script(n, d, r).Some?
    ensures Careful(NOTHING, Script(n, d, r).value)
  {
    var script := Script(n, d, r).value;
    var made := if r.insert.Some? then {r.insert.value.0} else {};
    var inner := if r.insert.Some? then script[1..][1..] else script[1..];
    assert inner[1..][1..] == [];
    assert Covered(Cover(made, {r.cable}), inner[0]) == Cover(made, {r.cable, r.id});
    assert Careful(Cover(made, {r.cable, r.id}), inner[1..]);
    assert Careful(Cover(made, {r.cable}), inner);
    assert Covered(NOTHING, script[0]) == Cover({}, {r.cable});
    assert r.insert.Some? ==> Covered(Cover({}, {r.cable}), script[1]) == Cover(made, {r.cable});
  }

  lemma ExtendCareful(n: Net, d: Id, r: Request)
    requires r.ExtendCable? && Script(n, d, r).Some?
    ensures Careful(NOTHING, Script(n, d, r).value)
  {
    var script := Script(n, d, r).value;
    var c := Cover({}, {r.cable});
    var other := if r.atStart then n.cables[r.cable].dest else n.cables[r.cable].source;
    if |script| == 2 {
      assert script[1..][1..] == [];
    } else {
      var (from, to) := if r.atStart then (r.target.value, other.value) else (other.value, r.target.value);
      assert script[1..][1..] == FeedScript(n, from, to, Some(r.cable), r.note);
      FeedCareful(n, from, to, Some(r.cable), r.note, c);
    }
    assert Covered(NOTHING, script[0]) == c;
  }

  // ---- A careful script is well tracked ----------------------------------------------------

  /** Nothing is deleted, every reference holds, and every changed or new row is in the tracker. */
  predicate Grown(pre: Net, w: Work)
  {
    && Tracked(pre, w.net, w.tr) && Consistent(w.net)
    && pre.assets.Keys <= w.net.assets.Keys && pre.cables.Keys <= w.net.cables.Keys && pre.links.Keys <= w.net.links.Keys
  }

  /** The tracker holds what the cover says: an existing row of it was snapshotted or made. */
  predicate Holds(c: Cover, w: Work)
  {
    && (forall id | id in c.assets && id in w.net.assets :: id in w.tr.assets || id in w.tr.madeAssets)
    && (forall id | id in c.cables && id in w.net.cables :: id in w.tr.cables || id in w.tr.madeCables)
  }

  /** A snapshot taken at any time is a row as it was at the start. */
  lemma TouchTracked<R>(pre: map<Id, R>, post: map<Id, R>, before: map<Id, R>, made: set<Id>, ids: set<Id>)
    requires TableTracked(pre, post, before, made)
    ensures TableTracked(pre, post, Touch(post, before, made, ids), made)
  {
  }

  lemma MakeTracked<R>(pre: map<Id, R>, post: map<Id, R>, before: map<Id, R>, made: set<Id>, id: Id, row: R)
    requires TableTracked(pre, post, before, made) && id !in pre
    ensures TableTracked(pre, post[id := row], before, made + {id})
  {
  }

  lemma SetTracked<R>(pre: map<Id, R>, post: map<Id, R>, after: map<Id, R>, before: map<Id, R>, made: set<Id>)
    requires TableTracked(pre, post, before, made) && after.Keys == post.Keys
    requires forall id | id in post && after[id] != post[id] :: id in before || id in made
    ensures TableTracked(pre, after, before, made)
  {
  }

  lemma TouchGrows(pre: Net, w: Work, c: Cover, s: Write, next: Work)
    requires Grown(pre, w) && Holds(c, w) && (s.TouchAssets? || s.TouchCables?) && Execute(w, s) == Some(next)
    ensures Grown(pre, next) && Holds(Covered(c, s), next)
  {
    if s.TouchAssets? {
      TouchTracked(pre.assets, w.net.assets, w.tr.assets, w.tr.madeAssets, s.ids);
    } else {
      TouchTracked(pre.cables, w.net.cables, w.tr.cables, w.tr.madeCables, s.ids);
    }
  }

  lemma MakeGrows(pre: Net, w: Work, c: Cover, s: Write, next: Work)
    requires Grown(pre, w) && Holds(c, w) && (s.MakeAsset? || s.MakeCable? || s.MakeLink?) && Execute(w, s) == Some(next)
    ensures Grown(pre, next) && Holds(Covered(c, s), next)
  {
    match s {
      case MakeAsset(id, a) => MakeTracked(pre.assets, w.net.assets, w.tr.assets, w.tr.madeAssets, id, a);
      case MakeCable(id, cable) => MakeTracked(pre.cables, w.net.cables, w.tr.cables, w.tr.madeCables, id, cable);
      case MakeLink(id, link) => MakeTracked(pre.links, w.net.links, w.tr.links, w.tr.madeLinks, id, link);
    }
  }

  lemma SetGrows(pre: Net, w: Work, c: Cover, s: Write, next: Work)
    requires Grown(pre, w) && Holds(c, w) && Allowed(c, s) && (s.SetAssets? || s.SetCables? || s.SetCableEnd?)
    requires Execute(w, s) == Some(next)
    ensures Grown(pre, next) && Holds(Covered(c, s), next)
  {
    if s.SetAssets? {
      SetTracked(pre.assets, w.net.assets, next.net.assets, w.tr.assets, w.tr.madeAssets);
    } else {
      SetTracked(pre.cables, w.net.cables, next.net.cables, w.tr.cables, w.tr.madeCables);
    }
  }

  lemma StepGrows(pre: Net, w: Work, c: Cover, s: Write, next: Work)
    requires Grown(pre, w) && Holds(c, w) && Allowed(c, s) && Execute(w, s) == Some(next)
    ensures Grown(pre, next) && Holds(Covered(c, s), next)
  {
    if s.TouchAssets? || s.TouchCables? {
      TouchGrows(pre, w, c, s, next);
    } else if s.MakeAsset? || s.MakeCable? || s.MakeLink? {
      MakeGrows(pre, w, c, s, next);
    } else {
      SetGrows(pre, w, c, s, next);
    }
  }

  lemma {:induction false} ScriptGrows(pre: Net, w: Work, c: Cover, script: seq<Write>, end: Work)
    requires Grown(pre, w) && Holds(c, w) && Careful(c, script) && ExecuteAll(w, script) == Some(end)
    ensures Grown(pre, end)
    decreases |script|
  {
    if script != [] {
      var next := Execute(w, script[0]).value;
      StepGrows(pre, w, c, script[0], next);
      ScriptGrows(pre, next, Covered(c, script[0]), script[1..], end);
    }
  }

  /** The assets a script makes. */
  function Makes(script: seq<Write>): set<Id>
  {
    if script == [] then {} else (if script[0].MakeAsset? then {script[0].id} else {}) + Makes(script[1..])
  }

  lemma {:induction false} MadeAssetsOf(w: Work, script: seq<Write>, end: Work)
    requires ExecuteAll(w, script) == Some(end)
    ensures end.tr.madeAssets == w.tr.madeAssets + Makes(script)
    decreases |script|
  {
    if script != [] { MadeAssetsOf(Execute(w, script[0]).value, script[1..], end); }
  }

  lemma {:induction false} MakesOnly(script: seq<Write>, id: Id)
    requires forall i | 0 <= i < |script| && script[i].MakeAsset? :: script[i].id == id
    ensures Makes(script) <= {id}
  {
    if script != [] { MakesOnly(script[1..], id); }
  }

  /** The asset a request may insert. */
  function NewAsset(r: Request): Id
  {
    if r.AddAsset? then r.id else if r.SplitCable? && r.insert.Some? then r.insert.value.0 else 0
  }

  lemma ScriptMakesOne(n: Net, d: Id, r: Request)
    requires !r.DeleteCable? && !r.Disconnect? && !r.DeleteAsset? && Script(n, d, r).Some?
    ensures Makes(Script(n, d, r).value) <= {NewAsset(r)}
  {
    MakesOnly(Script(n, d, r).value, NewAsset(r));
  }

  /** What a tracker must be for undo and redo to be exact. */
  predicate WellDone(n: Net, w: Work)
  {
    && Tracked(n, w.net, w.tr) && Consistent(w.net)
    && TwoLevels(Gone(w.tr.assets, w.net.assets)) && TwoLevels(Restrict(w.net.assets, w.tr.madeAssets))
  }

  lemma OneNewAsset(rows: map<Id, Asset>, id: Id)
    requires rows.Keys <= {id}
    ensures TwoLevels(rows)
  {
  }

  lemma ScriptDone(n: Net, d: Id, r: Request, w: Work)
    requires !r.DeleteCable? && !r.Disconnect? && !r.DeleteAsset? && Consistent(n) && Perform(n, d, r) == Some(w)
    ensures WellDone(n, w)
  {
    var script := Script(n, d, r).value;
    ScriptsCareful(n, d, r);
    ScriptGrows(n, Work(n, UNTRACKED), NOTHING, script, w);
    MadeAssetsOf(Work(n, UNTRACKED), script, w);
    ScriptMakesOne(n, d, r);
    OneNewAsset(Restrict(w.net.assets, w.tr.madeAssets), NewAsset(r));
    assert Gone(w.tr.assets, w.net.assets) == map[];
  }

  /** Deleting a cable clears only the connections that ran via it, and those are snapshotted. */
  lemma CableDeletedDone(n: Net, cable: Id)
    requires Consistent(n)
    ensures WellDone(n, CableDeleted(n, cable))
  {
    var w := CableDeleted(n, cable);
    forall id | id in n.links && id !in w.tr.links ensures w.net.links[id] == n.links[id] {
      assert n.links[id].via != Some(cable);
    }
    forall id | id in w.net.links ensures LinkOk(w.net.links[id], w.net.assets.Keys, w.net.cables.Keys) {
      assert LinkOk(n.links[id], n.assets.Keys, n.cables.Keys);
    }
  }

  lemma DisconnectedDone(n: Net, link: Id)
    requires Consistent(n)
    ensures WellDone(n, Disconnected(n, link))
  {
  }

  lemma DropAssetsConsistent(n: Net, gone: set<Id>)
    requires Consistent(n)
    ensures Consistent(DropAssets(n, gone))
  {
    var m := DropAssets(n, gone);
    assert m.assets.Keys == n.assets.Keys - gone && m.cables.Keys == n.cables.Keys;
  }

  lemma DropCablesConsistent(n: Net, gone: set<Id>)
    requires Consistent(n)
    ensures Consistent(DropCables(n, gone))
  {
  }

  lemma DeletedConsistent(n: Net, r: DeleteRequest)
    requires Consistent(n)
    ensures Consistent(Deleted(n, r))
  {
    var renamed := n.(assets := map id | id in n.assets ::
      if id in r.orphans then n.assets[id].(data := r.strip(n.assets[id].data)) else n.assets[id]);
    assert renamed.assets.Keys == n.assets.Keys;
    assert Consistent(renamed);
    DropCablesConsistent(renamed, AttachedCables(n, r));
    DropAssetsConsistent(if r.keepCables then renamed else DropCables(renamed, AttachedCables(n, r)), Family(n, r));
  }

  /** A deletion, if there is one, is contained. */
  predicate Safe(n: Net, r: Request)
  {
    r.DeleteAsset? && r.request.asset in n.assets ==> Contained(n, r.request)
  }

  /** Main result on single requests: whatever the operation, its tracker is right, save that a deletion must be contained. */
  lemma PerformDone(n: Net, d: Id, r: Request, w: Work)
    requires Consistent(n) && Perform(n, d, r) == Some(w) && Safe(n, r)
    ensures WellDone(n, w)
  {
    if r.DeleteAsset? {
      ContainedIsTracked(n, r.request);
      FamilyTwoLevels(n, r.request);
      DeletedConsistent(n, r.request);
    } else if r.DeleteCable? {
      CableDeletedDone(n, r.cable);
    } else if r.Disconnect? {
      DisconnectedDone(n, r.link);
    } else {
      ScriptDone(n, d, r, w);
    }
  }

  /** Undo takes a request back exactly, in whatever order rows return, if and only if it is no uncontained deletion. */
  lemma RequestUndoneExactly(n: Net, d: Id, r: Request, w: Work)
    requires Consistent(n) && Perform(n, d, r) == Some(w)
    ensures (forall p | InversePatch(p, w.net, w.tr) :: ApplyPatch(w.net, p) == Some(n)) <==> Safe(n, r)
  {
    if r.DeleteAsset? {
      DeleteAssetUndo(n, r.request);
    } else {
      PerformDone(n, d, r, w);
      forall p | InversePatch(p, w.net, w.tr) ensures ApplyPatch(w.net, p) == Some(n) {
        UndoExact(n, w.net, w.tr, p);
      }
    }
  }

  // ---- What each operation leaves ----------------------------------------------------------

  /** Outside `ids` the table is as it was: no row new, gone or different. */
  predicate SameOutside<R(==)>(before: map<Id, R>, after: map<Id, R>, ids: set<Id>)
  {
    && (forall id | id in before && id !in ids :: id in after && after[id] == before[id])
    && (forall id | id in after && id !in ids :: id in before)
  }

  /** Exactly these rows have new data, as given; their references stay. */
  ghost predicate AssetsWritten(before: map<Id, Asset>, after: map<Id, Asset>, datas: map<Id, string>, chosen: Id -> bool)
  {
    && after.Keys == before.Keys
    && forall id | id in before ::
         && after[id].parent == before[id].parent && after[id].design == before[id].design
         && after[id].data == if id in datas && chosen(id) then datas[id] else before[id].data
  }

  ghost predicate CablesWritten(before: map<Id, Cable>, after: map<Id, Cable>, datas: map<Id, string>, chosen: Id -> bool)
  {
    && after.Keys == before.Keys
    && forall id | id in before ::
         && after[id].source == before[id].source && after[id].dest == before[id].dest && after[id].design == before[id].design
         && after[id].data == if id in datas && chosen(id) then datas[id] else before[id].data
  }

  /** The asset itself, or one of its children in the design. */
  predicate Kin(n: Net, d: Id, asset: Id, id: Id)
  {
    id == asset || (id in n.assets && n.assets[id].parent == Some(asset) && n.assets[id].design == Some(d))
  }

  /** The reference is to an asset of that family. */
  predicate ToKin(n: Net, d: Id, asset: Id, ref: Maybe<Id>)
  {
    ref.Some? && Kin(n, d, asset, ref.value)
  }

  /** A feed from `source` to `dest`: one connection that way, if one was missing, and the fed asset's new head. */
  predicate FeedLeft(n: Net, m: Net, source: Id, dest: Id, via: Maybe<Id>, note: FeedNote)
  {
    && (if note.link.None? then m.links == n.links
        else
          var (id, data) := note.link.value;
          id !in n.links && id in m.links && SameOutside(n.links, m.links, {id})
          && m.links[id].source == source && m.links[id].dest == dest && m.links[id].via == via && m.links[id].data == data)
    && SameOutside(n.assets, m.assets, {dest}) && dest in n.assets && dest in m.assets
    && m.assets[dest].parent == n.assets[dest].parent && m.assets[dest].design == n.assets[dest].design
    && m.assets[dest].data == if note.head.Some? && n.assets[dest].design.Some? then note.head.value else n.assets[dest].data
  }

  predicate DrawFeeds(r: Request)
    requires r.DrawCable?
  {
    r.feeding && r.from.Some? && r.to.Some? && r.from != r.to
  }

  /** The end of the cable that EXTEND_CABLE leaves alone. */
  function FarEnd(n: Net, r: Request): Maybe<Id>
    requires r.ExtendCable? && r.cable in n.cables
  {
    if r.atStart then n.cables[r.cable].dest else n.cables[r.cable].source
  }

  predicate ExtendFeeds(n: Net, r: Request)
    requires r.ExtendCable? && r.cable in n.cables
  {
    r.feeding && r.target.Some? && FarEnd(n, r).Some?
  }

  /** A cable that MOVE_ASSET may redraw: at the asset, or, recalculating, at any of its family. */
  predicate Follows(n: Net, d: Id, r: Request, cable: Id)
    requires r.MoveAsset?
  {
    && cable in n.cables && cable in r.live && n.cables[cable].design == Some(d)
    && if r.recalc then ToKin(n, d, r.asset, n.cables[cable].source) || ToKin(n, d, r.asset, n.cables[cable].dest)
       else n.cables[cable].source == Some(r.asset) || n.cables[cable].dest == Some(r.asset)
  }

  /** What the user asked for, stated on the tables before and after. */
  ghost predicate Leaves(n: Net, d: Id, r: Request, m: Net)
  {
    match r
    case AddAsset(id, parent, data) =>
      && id !in n.assets && id in m.assets && SameOutside(n.assets, m.assets, {id}) && m.cables == n.cables && m.links == n.links
      && m.assets[id].parent == parent && m.assets[id].design == Some(d) && m.assets[id].data == data
    case MoveAsset(asset, places, recalc, live, lines) =>
      && m.links == n.links
      && AssetsWritten(n.assets, m.assets, places, (id: Id) => Kin(n, d, asset, id))
      && CablesWritten(n.cables, m.cables, lines, (id: Id) => Follows(n, d, r, id))
    case UpdateAsset(asset, data) =>
      m.cables == n.cables && m.links == n.links && AssetsWritten(n.assets, m.assets, map[asset := data], (id: Id) => true)
    case UpdateCable(cable, data) =>
      m.assets == n.assets && m.links == n.links && CablesWritten(n.cables, m.cables, map[cable := data], (id: Id) => true)
    case EditCableGeom(cable, data) =>
      m.assets == n.assets && m.links == n.links && CablesWritten(n.cables, m.cables, map[cable := data], (id: Id) => true)
    case DrawCable(id, from, to, data, feeding, note) =>
      && id !in n.cables && id in m.cables && SameOutside(n.cables, m.cables, {id})
      && m.cables[id].source == from && m.cables[id].dest == to && m.cables[id].design == Some(d) && m.cables[id].data == data
      && (if DrawFeeds(r) then FeedLeft(n, m, from.value, to.value, Some(id), note)
          else m.assets == n.assets && m.links == n.links)
    case SplitCable(cable, insert, id, newData, data) =>
      && m.links == n.links && cable in n.cables && id !in n.cables && id in m.cables && cable in m.cables
      && SameOutside(n.cables, m.cables, {cable, id})
      && (if insert.None? then m.assets == n.assets && m.cables[cable].dest.None?
          else
            var (cut, cutData) := insert.value;
            && cut !in n.assets && cut in m.assets && SameOutside(n.assets, m.assets, {cut})
            && m.assets[cut].parent.None? && m.assets[cut].design == Some(d) && m.assets[cut].data == cutData
            && m.cables[cable].dest == Some(cut))
      && m.cables[id].source == m.cables[cable].dest && m.cables[id].dest == n.cables[cable].dest
      && m.cables[cable].source == n.cables[cable].source
      && m.cables[id].design == Some(d) == m.cables[cable].design
      && m.cables[id].data == newData && m.cables[cable].data == data
    case ExtendCable(cable, atStart, target, data, feeding, note) =>
      && cable in n.cables && cable in m.cables && SameOutside(n.cables, m.cables, {cable})
      && (if atStart then m.cables[cable].source == target && m.cables[cable].dest == n.cables[cable].dest
          else m.cables[cable].dest == target && m.cables[cable].source == n.cables[cable].source)
      && m.cables[cable].design == n.cables[cable].design && m.cables[cable].data == data
      && (if !ExtendFeeds(n, r) then m.assets == n.assets && m.links == n.links
          else if atStart then FeedLeft(n, m, target.value, FarEnd(n, r).value, Some(cable), note)
          else FeedLeft(n, m, FarEnd(n, r).value, target.value, Some(cable), note))
    case Feed(source, dest, note) =>
      note.link.Some? && m.cables == n.cables && FeedLeft(n, m, source, dest, None, note)
    case Connect(id, source, dest, data) =>
      && m.assets == n.assets && m.cables == n.cables && id !in n.links && id in m.links && SameOutside(n.links, m.links, {id})
      && m.links[id].source == source && m.links[id].dest == dest && m.links[id].via.None? && m.links[id].data == data
    case DeleteCable(cable) =>
      && m.assets == n.assets && m.cables.Keys == n.cables.Keys - {cable} && SameOutside(n.cables, m.cables, {cable})
      && m.links.Keys == n.links.Keys
      && forall id | id in n.links ::
           && m.links[id].source == n.links[id].source && m.links[id].dest == n.links[id].dest
           && m.links[id].data == n.links[id].data
           && m.links[id].via == if n.links[id].via == Some(cable) then None else n.links[id].via
    case Disconnect(link) =>
      && m.assets == n.assets && m.cables == n.cables
      && m.links.Keys == n.links.Keys - {link} && SameOutside(n.links, m.links, {link})
    case DeleteAsset(q) => DeletedAssetLeaves(n, d, q, m)
  }

  /** A cable that DELETE_ASSET deletes. */
  predicate CutOff(n: Net, d: Id, q: DeleteRequest, cable: Id)
  {
    && !q.keepCables && cable in n.cables && n.cables[cable].design == Some(d)
    && (ToKin(n, d, q.asset, n.cables[cable].source) || ToKin(n, d, q.asset, n.cables[cable].dest))
  }

  ghost predicate DeletedAssetLeaves(n: Net, d: Id, q: DeleteRequest, m: Net)
  {
    && (forall id :: id in m.assets <==> id in n.assets && !Kin(n, d, q.asset, id))
    && (forall id | id in m.assets ::
          && m.assets[id].parent == (if ToKin(n, d, q.asset, n.assets[id].parent) then None else n.assets[id].parent)
          && m.assets[id].design == n.assets[id].design
          && m.assets[id].data == if id in q.orphans then q.strip(n.assets[id].data) else n.assets[id].data)
    && (forall id :: id in m.cables <==> id in n.cables && !CutOff(n, d, q, id))
    && (forall id | id in m.cables ::
          && m.cables[id].source == (if ToKin(n, d, q.asset, n.cables[id].source) then None else n.cables[id].source)
          && m.cables[id].dest == (if ToKin(n, d, q.asset, n.cables[id].dest) then None else n.cables[id].dest)
          && m.cables[id].design == n.cables[id].design && m.cables[id].data == n.cables[id].data)
    && (forall id :: id in m.links <==>
          id in n.links && !Kin(n, d, q.asset, n.links[id].source) && !Kin(n, d, q.asset, n.links[id].dest))
    && (forall id | id in m.links ::
          && m.links[id].source == n.links[id].source && m.links[id].dest == n.links[id].dest
          && m.links[id].data == n.links[id].data
          && m.links[id].via == if n.links[id].via.Some? && CutOff(n, d, q, n.links[id].via.value) then None else n.links[id].via)
  }

  /** The asset belongs to the design, or, where that will do, to no design. */
  predicate Known(n: Net, d: Id, asset: Id, liveToo: bool)
  {
    asset in n.assets && (n.assets[asset].design == Some(d) || (liveToo && n.assets[asset].design == None))
  }

  predicate EndKnown(n: Net, d: Id, end: Maybe<Id>)
  {
    end == None || Known(n, d, end.value, true)
  }

  predicate OwnCable(n: Net, d: Id, cable: Id)
  {
    cable in n.cables && n.cables[cable].design == Some(d)
  }

  predicate LinkTaken(n: Net, note: FeedNote)
  {
    note.link.Some? && note.link.value.0 in n.links
  }

  /** The requests that are refused: something named is not in the design, or a new row's key is taken. */
  predicate Refused(n: Net, d: Id, r: Request)
  {
    match r
    case AddAsset(id, parent, _) => id in n.assets || (parent.Some? && !Known(n, d, parent.value, false))
    case MoveAsset(asset, _, _, _, _) => !Known(n, d, asset, false)
    case UpdateAsset(asset, _) => !Known(n, d, asset, false)
    case UpdateCable(cable, _) => !OwnCable(n, d, cable)
    case EditCableGeom(cable, _) => !OwnCable(n, d, cable)
    case DrawCable(id, from, to, _, _, note) =>
      !EndKnown(n, d, from) || !EndKnown(n, d, to) || id in n.cables || (DrawFeeds(r) && LinkTaken(n, note))
    case SplitCable(cable, insert, id, _, _) =>
      !OwnCable(n, d, cable) || id in n.cables || (insert.Some? && insert.value.0 in n.assets)
    case ExtendCable(cable, _, target, _, _, note) =>
      || !OwnCable(n, d, cable) || !EndKnown(n, d, target)
      || (ExtendFeeds(n, r) && (!Known(n, d, FarEnd(n, r).value, true) || LinkTaken(n, note)))
    case Feed(source, dest, note) =>
      !Known(n, d, source, true) || !Known(n, d, dest, false) || source == dest || note.link.None? || LinkTaken(n, note)
    case Connect(id, source, dest, _) =>
      !Known(n, d, source, true) || !Known(n, d, dest, false) || source == dest || id in n.links
    case DeleteCable(cable) => !OwnCable(n, d, cable)
    case Disconnect(link) => link !in n.links
    case DeleteAsset(q) => q.design != d || !Known(n, d, q.asset, false)
  }

  /** The request is refused exactly when it should be, and otherwise leaves what was asked for. */
  ghost predicate DoneRight(n: Net, d: Id, r: Request)
  {
    match Perform(n, d, r)
    case None => Refused(n, d, r)
    case Some(w) => !Refused(n, d, r) && Leaves(n, d, r, w.net)
  }

  lemma ExecuteOne(w: Work, a: Write, rest: seq<Write>)
    ensures ExecuteAll(w, [a] + rest) == match Execute(w, a) case None => None case Some(next) => ExecuteAll(next, rest)
  {
    assert ([a] + rest)[1..] == rest;
  }

  lemma ExecuteLast(w: Work, a: Write)
    ensures ExecuteAll(w, [a]) == Execute(w, a)
  {
    assert [a][1..] == [];
  }

  lemma ExecuteTwo(w: Work, a: Write, b: Write)
    ensures ExecuteAll(w, [a, b]) == match Execute(w, a) case None => None case Some(next) => Execute(next, b)
  {
    assert [a, b] == [a] + [b];
    ExecuteOne(w, a, [b]);
    if Execute(w, a).Some? { ExecuteLast(Execute(w, a).value, b); }
  }

  lemma AddAssetRight(n: Net, d: Id, r: Request)
    requires r.AddAsset?
    ensures DoneRight(n, d, r)
  {
    ExecuteLast(Work(n, UNTRACKED), MakeAsset(r.id, Asset(r.parent, Some(d), r.data)));
  }

  lemma UpdateAssetRight(n: Net, d: Id, r: Request)
    requires r.UpdateAsset?
    ensures DoneRight(n, d, r)
  {
    ExecuteTwo(Work(n, UNTRACKED), TouchAssets({r.asset}), SetAssets(map[r.asset := r.data]));
  }

  lemma CableDataRight(n: Net, d: Id, r: Request)
    requires r.UpdateCable? || r.EditCableGeom?
    ensures DoneRight(n, d, r)
  {
    ExecuteTwo(Work(n, UNTRACKED), TouchCables({r.cable}), SetCables(map[r.cable := r.data]));
  }

  lemma ConnectRight(n: Net, d: Id, r: Request)
    requires r.Connect?
    ensures DoneRight(n, d, r)
  {
    ExecuteLast(Work(n, UNTRACKED), MakeLink(r.id, Link(r.source, r.dest, None, r.data)));
  }

  lemma DeleteCableRight(n: Net, d: Id, r: Request)
    requires r.DeleteCable?
    ensures DoneRight(n, d, r)
  {
  }

  lemma DisconnectRight(n: Net, d: Id, r: Request)
    requires r.Disconnect?
    ensures DoneRight(n, d, r)
  {
  }

  lemma SplitOnlyRight(n: Net, d: Id, r: Request)
    requires r.SplitCable? && r.insert.None? && Consistent(n)
    ensures DoneRight(n, d, r)
  {
    if CableInDesign(n, d, r.cable) {
      var make := MakeCable(r.id, Cable(None, n.cables[r.cable].dest, Some(d), r.newData));
      var end := SetCableEnd(r.cable, false, None, r.data);
      var touched := Execute(Work(n, UNTRACKED), TouchCables({r.cable})).value;
      assert Script(n, d, r).value == [TouchCables({r.cable})] + [make, end];
      ExecuteOne(Work(n, UNTRACKED), TouchCables({r.cable}), [make, end]);
      ExecuteTwo(touched, make, end);
    }
  }

  lemma SplitInsertRight(n: Net, d: Id, r: Request)
    requires r.SplitCable? && r.insert.Some? && Consistent(n)
    ensures DoneRight(n, d, r)
  {
    if CableInDesign(n, d, r.cable) {
      var (cut, data) := r.insert.value;
      var add := MakeAsset(cut, Asset(None, Some(d), data));
      var make := MakeCable(r.id, Cable(Some(cut), n.cables[r.cable].dest, Some(d), r.newData));
      var end := SetCableEnd(r.cable, false, Some(cut), r.data);
      var touched := Execute(Work(n, UNTRACKED), TouchCables({r.cable})).value;
      assert Script(n, d, r).value == [TouchCables({r.cable})] + ([add] + [make, end]);
      ExecuteOne(Work(n, UNTRACKED), TouchCables({r.cable}), [add] + [make, end]);
      ExecuteOne(touched, add, [make, end]);
      if Execute(touched, add).Some? { ExecuteTwo(Execute(touched, add).value, make, end); }
    }
  }

  /** MOVE_ASSET comes down to one update of assets and one of cables. */
  lemma MoveNets(n: Net, d: Id, r: Request, cables: set<Id>)
    requires r.MoveAsset? && InDesign(n, d, r.asset)
    requires cables == CablesAt(n, d, r.live, if r.recalc then WithChildren(n, d, r.asset) else {r.asset})
    ensures var w := Work(n, UNTRACKED);
      var placed := Execute(w, SetAssets(Only(r.places, WithChildren(n, d, r.asset)))).value;
      Perform(n, d, r).Some? && Perform(n, d, r).value.net == Execute(placed, SetCables(Only(r.lines, cables))).value.net
  {
    var family := WithChildren(n, d, r.asset);
    var own := CablesAt(n, d, r.live, {r.asset});
    var start := Work(n, UNTRACKED);
    var a, b, c, e := TouchAssets(family), TouchCables(own), SetAssets(Only(r.places, family)), SetCables(Only(r.lines, cables));
    var rest := if r.recalc then [TouchCables(cables), e] else [e];
    assert Script(n, d, r).value == [a] + ([b] + ([c] + rest));
    ExecuteOne(start, a, [b] + ([c] + rest));
    var one := Execute(start, a).value;
    ExecuteOne(one, b, [c] + rest);
    var two := Execute(one, b).value;
    ExecuteOne(two, c, rest);
    var three := Execute(two, c).value;
    if r.recalc { ExecuteTwo(three, TouchCables(cables), e); } else { ExecuteLast(three, e); }
  }

  lemma PlacesLeft(n: Net, d: Id, asset: Id, places: map<Id, string>, w: Work)
    requires w.net == n
    ensures var m := Execute(w, SetAssets(Only(places, WithChildren(n, d, asset)))).value.net;
      m.cables == n.cables && m.links == n.links && AssetsWritten(n.assets, m.assets, places, (id: Id) => Kin(n, d, asset, id))
  {
  }

  lemma LinesLeft(n: Net, w: Work, d: Id, r: Request, cables: set<Id>)
    requires r.MoveAsset? && w.net.cables == n.cables
    requires cables == CablesAt(n, d, r.live, if r.recalc then WithChildren(n, d, r.asset) else {r.asset})
    ensures var m := Execute(w, SetCables(Only(r.lines, cables))).value.net;
      && m.assets == w.net.assets && m.links == w.net.links
      && CablesWritten(n.cables, m.cables, r.lines, (id: Id) => Follows(n, d, r, id))
  {
    assert forall id | id in n.cables :: id in cables <==> Follows(n, d, r, id);
  }

  lemma MoveRight(n: Net, d: Id, r: Request)
    requires r.MoveAsset?
    ensures DoneRight(n, d, r)
  {
    if InDesign(n, d, r.asset) {
      var cables := CablesAt(n, d, r.live, if r.recalc then WithChildren(n, d, r.asset) else {r.asset});
      var start := Work(n, UNTRACKED);
      var placed := Execute(start, SetAssets(Only(r.places, WithChildren(n, d, r.asset)))).value;
      MoveNets(n, d, r, cables);
      PlacesLeft(n, d, r.asset, r.places, start);
      LinesLeft(n, placed, d, r, cables);
    }
  }

  /** `_feed_link`, wherever it comes in an operation. */
  lemma FeedRight(w: Work, n: Net, source: Id, dest: Id, via: Maybe<Id>, note: FeedNote)
    requires w.net.assets == n.assets && w.net.links == n.links && source in n.assets && dest in n.assets
    requires RefOk(via, w.net.cables.Keys)
    ensures var end := ExecuteAll(w, FeedScript(n, source, dest, via, note));
      && (end.None? <==> LinkTaken(n, note))
      && (end.Some? ==> end.value.net.cables == w.net.cables && FeedLeft(n, end.value.net, source, dest, via, note))
  {
    var heads := note.head.Some? && n.assets[dest].design.Some?;
    var head := SetAssets(map[dest := if note.head.Some? then note.head.value else ""]);
    var tail := if heads then [TouchAssets({dest}), head] else [];
    if note.link.Some? {
      var make := MakeLink(note.link.value.0, Link(source, dest, via, note.link.value.1));
      assert FeedScript(n, source, dest, via, note) == [make] + tail;
      ExecuteOne(w, make, tail);
      if Execute(w, make).Some? && heads { ExecuteTwo(Execute(w, make).value, TouchAssets({dest}), head); }
    } else {
      assert FeedScript(n, source, dest, via, note) == tail;
      if heads { ExecuteTwo(w, TouchAssets({dest}), head); }
    }
  }

  lemma FeedRequestRight(n: Net, d: Id, r: Request)
    requires r.Feed?
    ensures DoneRight(n, d, r)
  {
    if Reachable(n, d, r.source) && InDesign(n, d, r.dest) && r.source != r.dest {
      FeedRight(Work(n, UNTRACKED), n, r.source, r.dest, None, r.note);
    }
  }

  lemma DrawRight(n: Net, d: Id, r: Request)
    requires r.DrawCable?
    ensures DoneRight(n, d, r)
  {
    if EndReachable(n, d, r.from) && EndReachable(n, d, r.to) {
      var make := MakeCable(r.id, Cable(r.from, r.to, Some(d), r.data));
      var rest := if DrawFeeds(r) then FeedScript(n, r.from.value, r.to.value, Some(r.id), r.note) else [];
      assert Script(n, d, r).value == [make] + rest;
      ExecuteOne(Work(n, UNTRACKED), make, rest);
      if Execute(Work(n, UNTRACKED), make).Some? && DrawFeeds(r) {
        FeedRight(Execute(Work(n, UNTRACKED), make).value, n, r.from.value, r.to.value, Some(r.id), r.note);
      }
    }
  }

  lemma ExtendOnlyRight(n: Net, d: Id, r: Request)
    requires r.ExtendCable? && (CableInDesign(n, d, r.cable) ==> !ExtendFeeds(n, r))
    ensures DoneRight(n, d, r)
  {
    ExecuteTwo(Work(n, UNTRACKED), TouchCables({r.cable}), SetCableEnd(r.cable, r.atStart, r.target, r.data));
  }

  /** EXTEND_CABLE with a feed: the cable's end is set, then the feed goes from the start asset to the end asset. */
  lemma ExtendRun(n: Net, d: Id, r: Request, from: Id, to: Id) returns (moved: Work)
    requires r.ExtendCable? && CableInDesign(n, d, r.cable) && ExtendFeeds(n, r)
    requires EndReachable(n, d, r.target) && Reachable(n, d, FarEnd(n, r).value)
    requires if r.atStart then from == r.target.value && to == FarEnd(n, r).value else from == FarEnd(n, r).value && to == r.target.value
    ensures Perform(n, d, r) == ExecuteAll(moved, FeedScript(n, from, to, Some(r.cable), r.note))
    ensures Some(moved) == Execute(Execute(Work(n, UNTRACKED), TouchCables({r.cable})).value,
                                   SetCableEnd(r.cable, r.atStart, r.target, r.data))
  {
    var a, b := TouchCables({r.cable}), SetCableEnd(r.cable, r.atStart, r.target, r.data);
    var touched := Execute(Work(n, UNTRACKED), a).value;
    var rest := FeedScript(n, from, to, Some(r.cable), r.note);
    moved := Execute(touched, b).value;
    assert Script(n, d, r).value == [a] + ([b] + rest);
    ExecuteOne(Work(n, UNTRACKED), a, [b] + rest);
    ExecuteOne(touched, b, rest);
  }

  lemma ExtendFeedingRight(n: Net, d: Id, r: Request)
    requires r.ExtendCable? && CableInDesign(n, d, r.cable) && ExtendFeeds(n, r)
    ensures DoneRight(n, d, r)
  {
    if EndReachable(n, d, r.target) && Reachable(n, d, FarEnd(n, r).value) {
      var (from, to) := if r.atStart then (r.target.value, FarEnd(n, r).value) else (FarEnd(n, r).value, r.target.value);
      var moved := ExtendRun(n, d, r, from, to);
      FeedRight(moved, n, from, to, Some(r.cable), r.note);
    }
  }

  lemma FamilyIsKin(n: Net, q: DeleteRequest)
    ensures forall id :: id in Family(n, q) <==> Kin(n, q.design, q.asset, id)
    ensures forall ref :: Touches(ref, Family(n, q)) <==> ToKin(n, q.design, q.asset, ref)
  {
  }

  lemma AttachedIsCutOff(n: Net, q: DeleteRequest)
    requires !q.keepCables
    ensures forall id :: id in AttachedCables(n, q) <==> CutOff(n, q.design, q, id)
  {
    FamilyIsKin(n, q);
  }

  lemma DeletedAssetsLeft(n: Net, q: DeleteRequest, m: Net)
    requires m == Deleted(n, q)
    ensures forall id :: id in m.assets <==> id in n.assets && !Kin(n, q.design, q.asset, id)
    ensures forall id | id in m.assets ::
      && m.assets[id].parent == (if ToKin(n, q.design, q.asset, n.assets[id].parent) then None else n.assets[id].parent)
      && m.assets[id].design == n.assets[id].design
      && m.assets[id].data == if id in q.orphans then q.strip(n.assets[id].data) else n.assets[id].data
  {
    FamilyIsKin(n, q);
  }

  lemma DeletedCablesLeft(n: Net, q: DeleteRequest, m: Net)
    requires m == Deleted(n, q)
    ensures forall id :: id in m.cables <==> id in n.cables && !CutOff(n, q.design, q, id)
    ensures forall id | id in m.cables ::
      && m.cables[id].source == (if ToKin(n, q.design, q.asset, n.cables[id].source) then None else n.cables[id].source)
      && m.cables[id].dest == (if ToKin(n, q.design, q.asset, n.cables[id].dest) then None else n.cables[id].dest)
      && m.cables[id].design == n.cables[id].design && m.cables[id].data == n.cables[id].data
  {
    FamilyIsKin(n, q);
    if !q.keepCables { AttachedIsCutOff(n, q); }
  }

  lemma DeletedLinksLeft(n: Net, q: DeleteRequest, m: Net)
    requires m == Deleted(n, q)
    ensures forall id :: id in m.links <==>
      id in n.links && !Kin(n, q.design, q.asset, n.links[id].source) && !Kin(n, q.design, q.asset, n.links[id].dest)
    ensures forall id | id in m.links ::
      && m.links[id].source == n.links[id].source && m.links[id].dest == n.links[id].dest
      && m.links[id].data == n.links[id].data
      && m.links[id].via ==
           if n.links[id].via.Some? && CutOff(n, q.design, q, n.links[id].via.value) then None else n.links[id].via
  {
    FamilyIsKin(n, q);
    if !q.keepCables { AttachedIsCutOff(n, q); }
  }

  lemma DeleteAssetRight(n: Net, d: Id, r: Request)
    requires r.DeleteAsset?
    ensures DoneRight(n, d, r)
  {
    var m := Deleted(n, r.request);
    DeletedAssetsLeft(n, r.request, m);
    DeletedCablesLeft(n, r.request, m);
    DeletedLinksLeft(n, r.request, m);
  }

  /**
   Main result on what the operations do. On consistent tables every request is refused exactly when something it names is
   not in the design or a new key is taken, and otherwise leaves exactly the rows asked for, every other row unchanged.
   */
  lemma PerformRight(n: Net, d: Id, r: Request)
    requires Consistent(n)
    ensures DoneRight(n, d, r)
  {
    match r {
      case AddAsset(_, _, _) => AddAssetRight(n, d, r);
      case MoveAsset(_, _, _, _, _) => MoveRight(n, d, r);
      case UpdateAsset(_, _) => UpdateAssetRight(n, d, r);
      case UpdateCable(_, _) => CableDataRight(n, d, r);
      case DrawCable(_, _, _, _, _, _) => DrawRight(n, d, r);
      case DeleteCable(_) => DeleteCableRight(n, d, r);
      case EditCableGeom(_, _) => CableDataRight(n, d, r);
      case SplitCable(_, _, _, _, _) =>
        if r.insert.None? { SplitOnlyRight(n, d, r); } else { SplitInsertRight(n, d, r); }
      case ExtendCable(_, _, _, _, _, _) =>
        if CableInDesign(n, d, r.cable) && ExtendFeeds(n, r) { ExtendFeedingRight(n, d, r); } else { ExtendOnlyRight(n, d, r); }
      case Feed(_, _, _) => FeedRequestRight(n, d, r);
      case Connect(_, _, _, _) => ConnectRight(n, d, r);
      case Disconnect(_) => DisconnectRight(n, d, r);
      case DeleteAsset(_) => DeleteAssetRight(n, d, r);
    }
  }

  // ---- Whole sessions ----------------------------------------------------------------------

  /** The operation is a request of the design, done on these tables, with the patches its tracker computes. */
  ghost predicate Requested(n: Net, d: Id, c: Command<Net, Patch>)
  {
    c.Operate? ==> exists r, w :: RequestedBy(n, d, c, r, w)
  }

  predicate RequestedBy(n: Net, d: Id, c: Command<Net, Patch>, r: Request, w: Work)
    requires c.Operate?
  {
    && Perform(n, d, r) == Some(w) && Safe(n, r)
    && c.post == w.net && ForwardPatch(c.forward, w.net, w.tr) && InversePatch(c.inverse, w.net, w.tr)
  }

  ghost predicate Session(e: Editor<Net, Patch>, d: Id, run: seq<Command<Net, Patch>>)
    decreases |run|
  {
    run == [] || (Requested(e.net, d, run[0]) && Session(Handle(ApplyPatch, e, run[0]), d, run[1..]))
  }

  lemma {:induction false} InsertsConsistent(assets: map<Id, Asset>, order: seq<Id>, rows: map<Id, Asset>)
    requires forall id | id in assets :: AssetOk(assets[id], assets.Keys)
    requires InsertAssets(assets, order, rows).Some?
    ensures var all := InsertAssets(assets, order, rows).value;
      assets.Keys <= all.Keys && forall id | id in all :: AssetOk(all[id], all.Keys)
    decreases |order|
  {
    if order != [] { InsertsConsistent(assets[order[0] := rows[order[0]]], order[1..], rows); }
  }

  lemma AfterDeletesConsistent(n: Net, p: Patch)
    requires Consistent(n)
    ensures Consistent(AfterDeletes(n, p))
  {
    var one := DropLinks(n, p.deleteLinks);
    assert Consistent(one);
    DropCablesConsistent(one, p.deleteCables);
    DropAssetsConsistent(DropCables(one, p.deleteCables), p.deleteAssets);
  }

  lemma CablesFit(d: Net, p: Patch, assets: set<Id>)
    requires Consistent(d) && d.assets.Keys <= assets
    requires RowsFit(p, d, assets, d.cables.Keys + p.restoreCables.Keys)
    ensures var cables := Overwrite(d.cables + p.restoreCables, p.updateCables);
      cables.Keys == d.cables.Keys + p.restoreCables.Keys && forall id | id in cables :: CableOk(cables[id], assets)
  {
  }

  lemma LinksFit(d: Net, p: Patch, assets: set<Id>, cables: set<Id>)
    requires Consistent(d) && d.assets.Keys <= assets && d.cables.Keys <= cables && RowsFit(p, d, assets, cables)
    ensures var links := Overwrite(d.links + p.restoreLinks, p.updateLinks);
      forall id | id in links :: LinkOk(links[id], assets, cables)
  {
  }

  lemma AssetsFit(rows: map<Id, Asset>, updates: map<Id, Asset>)
    requires forall id | id in rows :: AssetOk(rows[id], rows.Keys)
    requires forall id | id in updates && id in rows :: AssetOk(updates[id], rows.Keys)
    ensures var all := Overwrite(rows, updates);
      all.Keys == rows.Keys && forall id | id in all :: AssetOk(all[id], all.Keys)
  {
  }

  /** Foreign keys survive every patch, whatever is in it. */
  lemma PatchKeepsConsistent(n: Net, p: Patch)
    requires Consistent(n) && ApplyPatch(n, p).Some?
    ensures Consistent(ApplyPatch(n, p).value)
  {
    var d := AfterDeletes(n, p);
    AfterDeletesConsistent(n, p);
    var order := ParentsFirst(p.assetOrder, p.restoreAssets);
    InsertsConsistent(d.assets, order, p.restoreAssets);
    PatchFits(d, p, InsertAssets(d.assets, order, p.restoreAssets).value);
  }

  lemma PatchFits(d: Net, p: Patch, assets: map<Id, Asset>)
    requires Consistent(d) && d.assets.Keys <= assets.Keys
    requires forall id | id in assets :: AssetOk(assets[id], assets.Keys)
    requires RowsFit(p, d, assets.Keys, d.cables.Keys + p.restoreCables.Keys)
    ensures Consistent(Net(Overwrite(assets, p.updateAssets), Overwrite(d.cables + p.restoreCables, p.updateCables),
                           Overwrite(d.links + p.restoreLinks, p.updateLinks)))
  {
    AssetsFit(assets, p.updateAssets);
    CablesFit(d, p, assets.Keys);
    LinksFit(d, p, assets.Keys, d.cables.Keys + p.restoreCables.Keys);
  }

  lemma HandleKeepsConsistent(e: Editor<Net, Patch>, d: Id, c: Command<Net, Patch>)
    requires Consistent(e.net) && Requested(e.net, d, c)
    ensures Consistent(Handle(ApplyPatch, e, c).net) && WellTracked(e.net, c)
  {
    match c {
      case Operate(post, forward, inverse) =>
        var r, w :| RequestedBy(e.net, d, c, r, w);
        PerformDone(e.net, d, r, w);
        assert TrackedBy(e.net, c, w.tr);
      case Undo =>
        if Done(e.log) != {} && ApplyPatch(e.net, e.log[Last(Done(e.log))].inverse).Some? {
          PatchKeepsConsistent(e.net, e.log[Last(Done(e.log))].inverse);
        }
      case Redo =>
        if Undone(e.log) != {} && ApplyPatch(e.net, e.log[First(Undone(e.log))].forward).Some? {
          PatchKeepsConsistent(e.net, e.log[First(Undone(e.log))].forward);
        }
    }
  }

  lemma {:induction false} SessionWellTracked(e: Editor<Net, Patch>, d: Id, run: seq<Command<Net, Patch>>)
    requires Consistent(e.net) && Session(e, d, run)
    ensures WellTrackedRun(e, run)
    decreases |run|
  {
    if run != [] {
      HandleKeepsConsistent(e, d, run[0]);
      SessionWellTracked(Handle(ApplyPatch, e, run[0]), d, run[1..]);
    }
  }

  /**
   Main result. From consistent tables and an empty log, over every run of the editor's eleven operations, undos and
   redos, with each asset deletion contained, the working set is that of an editor keeping whole states; n undos reach the
   state n operations back and n redos give tables and log back exactly.
   */
  lemma SessionsExact(net: Net, d: Id, run: seq<Command<Net, Patch>>, e: Editor<Net, Patch>, z: Snapshots<Net>, n: nat)
    requires Consistent(net) && Session(Editor(net, map[]), d, run)
    requires e == HandleAll(ApplyPatch, Editor(net, map[]), run) && z == HandleAllSimply(Snapshots([], net, []), run)
    requires n <= |z.past|
    ensures e.net == z.present
    ensures HandleAll(ApplyPatch, e, Times(Undo, n)).net == Timeline(z)[|z.past| - n]
    ensures HandleAll(ApplyPatch, e, Times(Undo, n) + Times(Redo, n)) == e
  {
    SessionWellTracked(Editor(net, map[]), d, run);
    EditingKeepsSnapshots(net, run);
    UndoRedoReturns(net, run, e, z, n);
  }
}
