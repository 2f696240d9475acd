/**
 Manual design: every operation is logged with the before and after images of the rows it touched, undo
 writes the before images back and redo the after images.

 The tables carry PostgreSQL's foreign keys and their ON DELETE actions, which fire while a patch is
 applied. The results: a well-tracked operation is undone and redone exactly, the edit log behaves like a
 stack of whole snapshots over every run, and DELETE_ASSET is undone exactly if and only if nothing it
 leaves untracked refers to what it deletes.
 */
module DesignOperations {

  import opened EditLog
  import opened Optional

  type Id = nat

  /** Rows: the columns that refer to other rows, the design, and everything else as one value. */
  datatype Asset = Asset(parent: Maybe<Id>, design: Maybe<Id>, data: string)
  datatype Cable = Cable(source: Maybe<Id>, dest: Maybe<Id>, design: Maybe<Id>, data: string)
  datatype Link = Link(source: Id, dest: Id, via: Maybe<Id>, data: string)

  /** net_assets, net_cables and net_connections. */
  datatype Net = Net(assets: map<Id, Asset>, cables: map<Id, Cable>, links: map<Id, Link>)

  // ---- Foreign keys -----------------------------------------------------------------------

  predicate RefOk(ref: Maybe<Id>, ids: set<Id>)
  {
    ref.None? || ref.value in ids
  }

  predicate AssetOk(a: Asset, assets: set<Id>)
  {
    RefOk(a.parent, assets)
  }

  predicate CableOk(c: Cable, assets: set<Id>)
  {
    RefOk(c.source, assets) && RefOk(c.dest, assets)
  }

  predicate LinkOk(l: Link, assets: set<Id>, cables: set<Id>)
  {
    l.source in assets && l.dest in assets && RefOk(l.via, cables)
  }

  predicate Consistent(n: Net)
  {
    && (forall id | id in n.assets :: AssetOk(n.assets[id], n.assets.Keys))
    && (forall id | id in n.cables :: CableOk(n.cables[id], n.assets.Keys))
    && (forall id | id in n.links :: LinkOk(n.links[id], n.assets.Keys, n.cables.Keys))
  }

  /** ON DELETE SET NULL. */
  function Clear(ref: Maybe<Id>, gone: set<Id>): Maybe<Id>
  {
    if ref.Some? && ref.value in gone then None else ref
  }

  /** DELETE FROM net_assets: children and cable ends are set to NULL, connections go with their ends. */
  function DropAssets(n: Net, gone: set<Id>): Net
  {
    Net(map id | id in n.assets && id !in gone :: n.assets[id].(parent := Clear(n.assets[id].parent, gone)),
        map id | id in n.cables ::
          n.cables[id].(source := Clear(n.cables[id].source, gone), dest := Clear(n.cables[id].dest, gone)),
        map id | id in n.links && n.links[id].source !in gone && n.links[id].dest !in gone :: n.links[id])
  }

  /** DELETE FROM net_cables: connections that ran via one are set to NULL. */
  function DropCables(n: Net, gone: set<Id>): Net
  {
    Net(n.assets, n.cables - gone,
        map id | id in n.links :: n.links[id].(via := Clear(n.links[id].via, gone)))
  }

  function DropLinks(n: Net, gone: set<Id>): Net
  {
    n.(links := n.links - gone)
  }

  // ---- Patches ----------------------------------------------------------------------------

  /** Rows to put back come in some order; only assets refer to each other, so only theirs matters. */
  datatype Patch = Patch(
    deleteAssets: set<Id>, deleteCables: set<Id>, deleteLinks: set<Id>,
    assetOrder: seq<Id>, restoreAssets: map<Id, Asset>, restoreCables: map<Id, Cable>, restoreLinks: map<Id, Link>,
    updateAssets: map<Id, Asset>, updateCables: map<Id, Cable>, updateLinks: map<Id, Link>)

  predicate Lists(order: seq<Id>, ids: set<Id>)
  {
    && (forall i, j | 0 <= i < j < |order| :: order[i] != order[j])
    && (forall id | id in order :: id in ids)
    && (forall id | id in ids :: id in order)
  }

  /** Does this row's parent come back with it? */
  predicate ParentAmong(id: Id, rows: map<Id, Asset>)
  {
    id in rows && rows[id].parent.Some? && rows[id].parent.value in rows
  }

  function Pick(order: seq<Id>, rows: map<Id, Asset>, children: bool): seq<Id>
  {
    if order == [] then []
    else (if ParentAmong(order[0], rows) == children then [order[0]] else []) + Pick(order[1..], rows, children)
  }

  /** `_parents_first`: a stable sort on whether the parent is in the set. */
  function ParentsFirst(order: seq<Id>, rows: map<Id, Asset>): seq<Id>
  {
    Pick(order, rows, false) + Pick(order, rows, true)
  }

  /** One INSERT after another; a duplicate id or a parent not there yet fails the transaction. */
  function InsertAssets(assets: map<Id, Asset>, order: seq<Id>, rows: map<Id, Asset>): Maybe<map<Id, Asset>>
    decreases |order|
  {
    if order == [] then Some(assets)
    else
      var id := order[0];
      if id !in rows || id in assets || !RefOk(rows[id].parent, assets.Keys + {id}) then None
      else InsertAssets(assets[id := rows[id]], order[1..], rows)
  }

  /** UPDATE of rows by id: rows that are not there are not touched. */
  function Overwrite<R>(rows: map<Id, R>, updates: map<Id, R>): map<Id, R>
  {
    map id | id in rows :: if id in updates then updates[id] else rows[id]
  }

  function AfterDeletes(n: Net, p: Patch): Net
  {
    DropAssets(DropCables(DropLinks(n, p.deleteLinks), p.deleteCables), p.deleteAssets)
  }

  /** Primary and foreign keys, for cables and connections put back and for every row written over. */
  predicate RowsFit(p: Patch, d: Net, assets: set<Id>, cables: set<Id>)
  {
    && (forall id | id in p.restoreCables :: id !in d.cables && CableOk(p.restoreCables[id], assets))
    && (forall id | id in p.restoreLinks :: id !in d.links && LinkOk(p.restoreLinks[id], assets, cables))
    && (forall id | id in p.updateAssets && id in assets :: AssetOk(p.updateAssets[id], assets))
    && (forall id | id in p.updateCables && id in cables :: CableOk(p.updateCables[id], assets))
    && (forall id | id in p.updateLinks && id in d.links.Keys + p.restoreLinks.Keys :: LinkOk(p.updateLinks[id], assets, cables))
  }

  /** `apply_patch`: delete, then restore (assets before cables before connections), then update. `None` is a failed transaction. */
  function ApplyPatch(n: Net, p: Patch): Maybe<Net>
  {
    var d := AfterDeletes(n, p);
    var inserted := InsertAssets(d.assets, ParentsFirst(p.assetOrder, p.restoreAssets), p.restoreAssets);
    if inserted.None? || !RowsFit(p, d, inserted.value.Keys, d.cables.Keys + p.restoreCables.Keys) then None
    else Some(Net(Overwrite(inserted.value, p.updateAssets),
                  Overwrite(d.cables + p.restoreCables, p.updateCables),
                  Overwrite(d.links + p.restoreLinks, p.updateLinks)))
  }

  // ---- The tracker ------------------------------------------------------------------------

  /** First snapshots of the rows an operation touched, and the ids it made. */
  datatype Tracker = Tracker(
    assets: map<Id, Asset>, cables: map<Id, Cable>, links: map<Id, Link>,
    madeAssets: set<Id>, madeCables: set<Id>, madeLinks: set<Id>)

  function Gone<R>(before: map<Id, R>, after: map<Id, R>): map<Id, R>
  {
    map id | id in before && id !in after :: before[id]
  }

  /** The rows of `a` whose image in `b` is different. */
  function Changed<R(==)>(a: map<Id, R>, b: map<Id, R>): map<Id, R>
  {
    map id | id in a && id in b && a[id] != b[id] :: a[id]
  }

  function Restrict<R>(rows: map<Id, R>, ids: set<Id>): map<Id, R>
  {
    map id | id in rows && id in ids :: rows[id]
  }

  /** The patch that takes the operation back, computed from the tracker and the tables after it. */
  predicate InversePatch(p: Patch, post: Net, tr: Tracker)
  {
    && p.deleteAssets == tr.madeAssets * post.assets.Keys
    && p.deleteCables == tr.madeCables * post.cables.Keys
    && p.deleteLinks == tr.madeLinks * post.links.Keys
    && p.restoreAssets == Gone(tr.assets, post.assets) && Lists(p.assetOrder, p.restoreAssets.Keys)
    && p.restoreCables == Gone(tr.cables, post.cables)
    && p.restoreLinks == Gone(tr.links, post.links)
    && p.updateAssets == Changed(tr.assets, post.assets)
    && p.updateCables == Changed(tr.cables, post.cables)
    && p.updateLinks == Changed(tr.links, post.links)
  }

  /** The patch that repeats it. */
  predicate ForwardPatch(p: Patch, post: Net, tr: Tracker)
  {
    && p.deleteAssets == Gone(tr.assets, post.assets).Keys
    && p.deleteCables == Gone(tr.cables, post.cables).Keys
    && p.deleteLinks == Gone(tr.links, post.links).Keys
    && p.restoreAssets == Restrict(post.assets, tr.madeAssets) && Lists(p.assetOrder, p.restoreAssets.Keys)
    && p.restoreCables == Restrict(post.cables, tr.madeCables)
    && p.restoreLinks == Restrict(post.links, tr.madeLinks)
    && p.updateAssets == Changed(Restrict(post.assets, tr.assets.Keys), tr.assets)
    && p.updateCables == Changed(Restrict(post.cables, tr.cables.Keys), tr.cables)
    && p.updateLinks == Changed(Restrict(post.links, tr.links.Keys), tr.links)
  }

  method ListIds(ids: set<Id>) returns (order: seq<Id>)
    ensures Lists(order, ids)
  {
    order := [];
    var todo := ids;
    while todo != {}
      invariant todo <= ids
      invariant Lists(order, ids - todo)
    {
      var id :| id in todo;
      order := order + [id];
      todo := todo - {id};
    }
  }

  /** `Tracker.patches`. */
  method Patches(tr: Tracker, post: Net) returns (forward: Patch, inverse: Patch)
    ensures ForwardPatch(forward, post, tr)
    ensures InversePatch(inverse, post, tr)
  {
    var madeAssets := Restrict(post.assets, tr.madeAssets);
    var gone := Gone(tr.assets, post.assets);
    var madeOrder := ListIds(madeAssets.Keys);
    var goneOrder := ListIds(gone.Keys);
    var madeCables, madeLinks := Restrict(post.cables, tr.madeCables), Restrict(post.links, tr.madeLinks);
    var goneCables, goneLinks := Gone(tr.cables, post.cables), Gone(tr.links, post.links);
    forward := Patch(gone.Keys, goneCables.Keys, goneLinks.Keys, madeOrder, madeAssets, madeCables, madeLinks,
      Changed(Restrict(post.assets, tr.assets.Keys), tr.assets),
      Changed(Restrict(post.cables, tr.cables.Keys), tr.cables),
      Changed(Restrict(post.links, tr.links.Keys), tr.links));
    inverse := Patch(madeAssets.Keys, madeCables.Keys, madeLinks.Keys, goneOrder, gone, goneCables, goneLinks,
      Changed(tr.assets, post.assets), Changed(tr.cables, post.cables), Changed(tr.links, post.links));
  }

  // ---- Well-tracked operations ------------------------------------------------------------

  /** One table: snapshots are the rows as they were, new rows are recorded as made, everything else is as before. */
  predicate TableTracked<R(==)>(pre: map<Id, R>, post: map<Id, R>, before: map<Id, R>, made: set<Id>)
  {
    && (forall id | id in before :: id in pre && before[id] == pre[id])
    && (forall id | id in pre :: id !in made)
    && (forall id | id in post && id !in pre :: id in made)
    && (forall id | id in pre && id !in before :: id in post && post[id] == pre[id])
  }

  /** No operation rewrites the ends of a connection that stays. */
  predicate LinksKeepEnds(pre: Net, post: Net)
  {
    forall id | id in pre.links && id in post.links ::
      pre.links[id].source == post.links[id].source && pre.links[id].dest == post.links[id].dest
  }

  predicate Tracked(pre: Net, post: Net, tr: Tracker)
  {
    && TableTracked(pre.assets, post.assets, tr.assets, tr.madeAssets)
    && TableTracked(pre.cables, post.cables, tr.cables, tr.madeCables)
    && TableTracked(pre.links, post.links, tr.links, tr.madeLinks)
    && LinksKeepEnds(pre, post)
  }

  /** No asset comes back together with its parent and that parent's parent. */
  predicate TwoLevels(rows: map<Id, Asset>)
  {
    forall id | id in rows && ParentAmong(id, rows) && rows[id].parent.value != id :: !ParentAmong(rows[id].parent.value, rows)
  }

  // ---- Restoring assets -------------------------------------------------------------------

  lemma {:induction false} PickProps(order: seq<Id>, rows: map<Id, Asset>, children: bool)
    requires forall id | id in order :: id in rows
    requires forall i, j | 0 <= i < j < |order| :: order[i] != order[j]
    ensures forall id :: id in Pick(order, rows, children) <==> id in order && ParentAmong(id, rows) == children
    ensures forall i, j | 0 <= i < j < |Pick(order, rows, children)| ::
      Pick(order, rows, children)[i] != Pick(order, rows, children)[j]
  {
    if order != [] {
      PickProps(order[1..], rows, children);
      assert order == [order[0]] + order[1..];
      assert order[0] !in order[1..];
    }
  }

  /** The parent of the i-th row to insert is there by then. */
  predicate ParentReady(order: seq<Id>, i: nat, rows: map<Id, Asset>, there: set<Id>)
    requires i < |order| && order[i] in rows
  {
    var parent := rows[order[i]].parent;
    RefOk(parent, there + {order[i]}) || exists j | 0 <= j < i :: order[j] == parent.value
  }

  lemma ReadyAfterFirst(order: seq<Id>, i: nat, rows: map<Id, Asset>, there: set<Id>)
    requires i + 1 < |order| && order[i + 1] in rows && ParentReady(order, i + 1, rows, there)
    ensures ParentReady(order[1..], i, rows, there + {order[0]})
  {
  }

  function Added(assets: map<Id, Asset>, order: seq<Id>, rows: map<Id, Asset>): map<Id, Asset>
    requires forall id | id in order :: id in rows
    decreases |order|
  {
    if order == [] then assets else Added(assets[order[0] := rows[order[0]]], order[1..], rows)
  }

  lemma {:induction false} AddedAt(assets: map<Id, Asset>, order: seq<Id>, rows: map<Id, Asset>, id: Id)
    requires forall x | x in order :: x in rows
    ensures id in Added(assets, order, rows) <==> id in assets || id in order
    ensures id in order ==> id in Added(assets, order, rows) && Added(assets, order, rows)[id] == rows[id]
    ensures id in assets && id !in order ==> Added(assets, order, rows)[id] == assets[id]
    decreases |order|
  {
    if order != [] {
      AddedAt(assets[order[0] := rows[order[0]]], order[1..], rows, id);
      assert order == [order[0]] + order[1..];
    }
  }

  lemma {:induction false} InsertSucceeds(assets: map<Id, Asset>, order: seq<Id>, rows: map<Id, Asset>)
    requires forall id | id in order :: id in rows && id !in assets
    requires forall i, j | 0 <= i < j < |order| :: order[i] != order[j]
    requires forall i | 0 <= i < |order| :: ParentReady(order, i, rows, assets.Keys)
    ensures InsertAssets(assets, order, rows) == Some(Added(assets, order, rows))
    decreases |order|
  {
    if order != [] {
      var id, rest := order[0], order[1..];
      assert ParentReady(order, 0, rows, assets.Keys);
      var next := assets[id := rows[id]];
      assert next.Keys == assets.Keys + {id};
      forall i | 0 <= i < |rest| ensures ParentReady(rest, i, rows, next.Keys) {
        assert ParentReady(order, i + 1, rows, assets.Keys);
        ReadyAfterFirst(order, i, rows, assets.Keys);
      }
      assert id !in rest;
      InsertSucceeds(next, rest, rows);
    }
  }

  lemma ParentsFirstLists(order: seq<Id>, rows: map<Id, Asset>)
    requires Lists(order, rows.Keys)
    ensures Lists(ParentsFirst(order, rows), rows.Keys)
  {
    var roots, children := Pick(order, rows, false), Pick(order, rows, true);
    PickProps(order, rows, false);
    PickProps(order, rows, true);
    forall i, j | 0 <= i < |roots| && 0 <= j < |children| ensures roots[i] != children[j] {
      assert roots[i] in roots && children[j] in children;
    }
  }

  lemma ParentsFirstReady(order: seq<Id>, rows: map<Id, Asset>, there: set<Id>, i: nat)
    requires Lists(order, rows.Keys) && TwoLevels(rows) && i < |ParentsFirst(order, rows)|
    requires forall id | id in rows :: RefOk(rows[id].parent, there + rows.Keys)
    ensures ParentsFirst(order, rows)[i] in rows && ParentReady(ParentsFirst(order, rows), i, rows, there)
  {
    var roots, children := Pick(order, rows, false), Pick(order, rows, true);
    var all := roots + children;
    PickProps(order, rows, false);
    PickProps(order, rows, true);
    if i >= |roots| {
      assert all[i] in children;
      var parent := rows[all[i]].parent.value;
      if parent != all[i] {
        assert parent in roots;
        var j :| 0 <= j < |roots| && roots[j] == parent;
        assert all[j] == parent;
      }
    } else {
      assert all[i] in roots;
    }
  }

  /** With at most two levels, parents-first order meets every foreign key, whatever order the rows came in. */
  lemma RestoreSucceeds(assets: map<Id, Asset>, order: seq<Id>, rows: map<Id, Asset>)
    requires Lists(order, rows.Keys) && TwoLevels(rows) && assets.Keys !! rows.Keys
    requires forall id | id in rows :: RefOk(rows[id].parent, assets.Keys + rows.Keys)
    ensures InsertAssets(assets, ParentsFirst(order, rows), rows) == Some(assets + rows)
  {
    var all := ParentsFirst(order, rows);
    ParentsFirstLists(order, rows);
    forall i | 0 <= i < |all| ensures ParentReady(all, i, rows, assets.Keys) {
      ParentsFirstReady(order, rows, assets.Keys, i);
    }
    InsertSucceeds(assets, all, rows);
    forall id ensures id in Added(assets, all, rows) <==> id in assets + rows {
      AddedAt(assets, all, rows, id);
    }
    forall id | id in assets + rows ensures Added(assets, all, rows)[id] == (assets + rows)[id] {
      AddedAt(assets, all, rows, id);
    }
    assert Added(assets, all, rows) == assets + rows;
  }

  lemma {:induction false} SomeOrder(ids: set<Id>) returns (order: seq<Id>)
    ensures Lists(order, ids)
    decreases ids
  {
    if ids == {} {
      order := [];
    } else {
      var id :| id in ids;
      var rest := SomeOrder(ids - {id});
      order := [id] + rest;
    }
  }

  lemma {:induction false} InsertedWereReady(assets: map<Id, Asset>, order: seq<Id>, rows: map<Id, Asset>, i: nat)
    requires InsertAssets(assets, order, rows).Some? && i < |order|
    ensures order[i] in rows && ParentReady(order, i, rows, assets.Keys)
    decreases |order|
  {
    if i > 0 {
      InsertedWereReady(assets[order[0] := rows[order[0]]], order[1..], rows, i - 1);
      assert order[1..][i - 1] == order[i];
      var parent := rows[order[i]].parent;
      if !RefOk(parent, assets.Keys + {order[i]}) && parent.value != order[0] {
        var j :| 0 <= j < i - 1 && order[1..][j] == parent.value;
        assert order[j + 1] == parent.value;
      }
    }
  }

  /** The parents-first sort is exactly good enough for two levels: deeper rows can fail to come back. */
  lemma ParentsFirstExact(assets: map<Id, Asset>, rows: map<Id, Asset>)
    requires assets.Keys !! rows.Keys
    requires forall id | id in rows :: RefOk(rows[id].parent, assets.Keys + rows.Keys)
    ensures (forall order | Lists(order, rows.Keys) :: InsertAssets(assets, ParentsFirst(order, rows), rows).Some?)
       <==> TwoLevels(rows)
  {
    if TwoLevels(rows) {
      forall order | Lists(order, rows.Keys) ensures InsertAssets(assets, ParentsFirst(order, rows), rows).Some? {
        RestoreSucceeds(assets, order, rows);
      }
    } else {
      var id :| id in rows && ParentAmong(id, rows) && rows[id].parent.value != id && ParentAmong(rows[id].parent.value, rows);
      var rest := SomeOrder(rows.Keys - {id});
      GrandchildFirstFails(assets, rows, id, rest);
    }
  }

  lemma GrandchildFirstFails(assets: map<Id, Asset>, rows: map<Id, Asset>, id: Id, rest: seq<Id>)
    requires assets.Keys !! rows.Keys && id in rows && Lists(rest, rows.Keys - {id})
    requires ParentAmong(id, rows) && rows[id].parent.value != id && ParentAmong(rows[id].parent.value, rows)
    ensures Lists([id] + rest, rows.Keys)
    ensures InsertAssets(assets, ParentsFirst([id] + rest, rows), rows).None?
  {
    var order := [id] + rest;
    assert order[1..] == rest;
    var roots, children := Pick(order, rows, false), Pick(order, rows, true);
    PickProps(order, rows, false);
    assert (roots + children)[|roots|] == children[0] == id;
    forall j | 0 <= j < |roots| ensures (roots + children)[j] != rows[id].parent.value {
      assert roots[j] in roots;
    }
    if InsertAssets(assets, roots + children, rows).Some? {
      InsertedWereReady(assets, roots + children, rows, |roots|);
      assert false;
    }
  }

  // ---- Undo and redo are exact ------------------------------------------------------------

  /** Each table after the deletes, with what the undo adds and writes. */
  predicate TableBack<R(==)>(pre: map<Id, R>, left: map<Id, R>, restore: map<Id, R>, update: map<Id, R>)
  {
    && left.Keys !! restore.Keys && (left + restore).Keys == pre.Keys
    && (forall id | id in restore :: id in pre && restore[id] == pre[id])
    && (forall id | id in update :: id in pre && update[id] == pre[id])
    && Overwrite(left + restore, update) == pre
  }

  /** The deletes of an undo leave the rows of both sides, and an unchanged row as it was. */
  ghost predicate Spared<R>(pre: map<Id, R>, post: map<Id, R>, left: map<Id, R>)
  {
    && (forall id :: id in left <==> id in pre && id in post)
    && (forall id | id in left && pre[id] == post[id] :: left[id] == pre[id])
  }

  /** One table, once the deletes have run: rows that went come back, rows that changed are written back. */
  lemma TableRestored<R>(pre: map<Id, R>, post: map<Id, R>, before: map<Id, R>, made: set<Id>, left: map<Id, R>)
    requires TableTracked(pre, post, before, made) && Spared(pre, post, left)
    ensures TableBack(pre, left, Gone(before, post), Changed(before, post))
  {
  }

  /** The ON DELETE actions of an undo only reach rows that the undo deletes or rewrites anyway. */
  lemma AssetsSpared(pre: Net, post: Net, tr: Tracker, p: Patch)
    requires Consistent(pre) && Tracked(pre, post, tr) && InversePatch(p, post, tr)
    ensures Spared(pre.assets, post.assets, AfterDeletes(post, p).assets)
  {
  }

  lemma CablesSpared(pre: Net, post: Net, tr: Tracker, p: Patch)
    requires Consistent(pre) && Tracked(pre, post, tr) && InversePatch(p, post, tr)
    ensures Spared(pre.cables, post.cables, AfterDeletes(post, p).cables)
  {
  }

  /** A connection that was there before and still is refers to nothing the undo deletes. */
  lemma LinkSpared(pre: Net, post: Net, tr: Tracker, p: Patch, id: Id)
    requires Consistent(pre) && Tracked(pre, post, tr) && InversePatch(p, post, tr) && id in pre.links && id in post.links
    ensures post.links[id].source !in p.deleteAssets && post.links[id].dest !in p.deleteAssets
    ensures pre.links[id] == post.links[id] ==> Clear(post.links[id].via, p.deleteCables) == pre.links[id].via
    ensures id !in p.deleteLinks
  {
    assert LinkOk(pre.links[id], pre.assets.Keys, pre.cables.Keys);
  }

  lemma LinksSurvive(pre: Net, post: Net, tr: Tracker, p: Patch, id: Id)
    requires Consistent(pre) && Tracked(pre, post, tr) && InversePatch(p, post, tr)
    ensures id in AfterDeletes(post, p).links <==> id in pre.links && id in post.links
  {
    if id in post.links {
      if id in pre.links {
        LinkSpared(pre, post, tr, p, id);
        assert id in DropCables(DropLinks(post, p.deleteLinks), p.deleteCables).links;
      } else {
        assert id in tr.madeLinks && id in p.deleteLinks;
      }
    }
  }

  lemma LinksSpared(pre: Net, post: Net, tr: Tracker, p: Patch)
    requires Consistent(pre) && Tracked(pre, post, tr) && InversePatch(p, post, tr)
    ensures Spared(pre.links, post.links, AfterDeletes(post, p).links)
  {
    var left := AfterDeletes(post, p).links;
    forall id ensures id in left <==> id in pre.links && id in post.links {
      LinksSurvive(pre, post, tr, p, id);
    }
    forall id | id in left && pre.links[id] == post.links[id] ensures left[id] == pre.links[id] {
      LinkSpared(pre, post, tr, p, id);
    }
  }

  /** Every row the undo writes fits the tables it restores. */
  lemma UndoFits(pre: Net, p: Patch, d: Net)
    requires Consistent(pre)
    requires d.cables.Keys !! p.restoreCables.Keys && d.links.Keys !! p.restoreLinks.Keys
    requires forall id | id in p.restoreCables :: id in pre.cables && p.restoreCables[id] == pre.cables[id]
    requires forall id | id in p.restoreLinks :: id in pre.links && p.restoreLinks[id] == pre.links[id]
    requires forall id | id in p.updateAssets :: id in pre.assets && p.updateAssets[id] == pre.assets[id]
    requires forall id | id in p.updateCables :: id in pre.cables && p.updateCables[id] == pre.cables[id]
    requires forall id | id in p.updateLinks :: id in pre.links && p.updateLinks[id] == pre.links[id]
    ensures RowsFit(p, d, pre.assets.Keys, pre.cables.Keys)
  {
  }

  lemma UndoRestoresAssets(pre: Net, left: map<Id, Asset>, p: Patch)
    requires Consistent(pre) && Lists(p.assetOrder, p.restoreAssets.Keys) && TwoLevels(p.restoreAssets)
    requires left.Keys !! p.restoreAssets.Keys && (left + p.restoreAssets).Keys == pre.assets.Keys
    requires forall id | id in p.restoreAssets :: id in pre.assets && p.restoreAssets[id] == pre.assets[id]
    ensures InsertAssets(left, ParentsFirst(p.assetOrder, p.restoreAssets), p.restoreAssets) == Some(left + p.restoreAssets)
  {
    assert left.Keys + p.restoreAssets.Keys == pre.assets.Keys;
    forall id | id in p.restoreAssets ensures RefOk(p.restoreAssets[id].parent, left.Keys + p.restoreAssets.Keys) {
      assert AssetOk(pre.assets[id], pre.assets.Keys);
    }
    RestoreSucceeds(left, p.assetOrder, p.restoreAssets);
  }

  lemma AssetsBack(pre: Net, post: Net, tr: Tracker, p: Patch)
    requires Consistent(pre) && Tracked(pre, post, tr) && InversePatch(p, post, tr)
    ensures TableBack(pre.assets, AfterDeletes(post, p).assets, p.restoreAssets, p.updateAssets)
  {
    AssetsSpared(pre, post, tr, p);
    TableRestored(pre.assets, post.assets, tr.assets, tr.madeAssets, AfterDeletes(post, p).assets);
  }

  lemma CablesBack(pre: Net, post: Net, tr: Tracker, p: Patch)
    requires Consistent(pre) && Tracked(pre, post, tr) && InversePatch(p, post, tr)
    ensures TableBack(pre.cables, AfterDeletes(post, p).cables, p.restoreCables, p.updateCables)
  {
    CablesSpared(pre, post, tr, p);
    TableRestored(pre.cables, post.cables, tr.cables, tr.madeCables, AfterDeletes(post, p).cables);
  }

  lemma LinksBack(pre: Net, post: Net, tr: Tracker, p: Patch)
    requires Consistent(pre) && Tracked(pre, post, tr) && InversePatch(p, post, tr)
    ensures TableBack(pre.links, AfterDeletes(post, p).links, p.restoreLinks, p.updateLinks)
  {
    LinksSpared(pre, post, tr, p);
    TableRestored(pre.links, post.links, tr.links, tr.madeLinks, AfterDeletes(post, p).links);
  }

  /** Main result: undoing a well-tracked operation restores exactly the tables it started from. */
  lemma UndoExact(pre: Net, post: Net, tr: Tracker, p: Patch)
    requires Consistent(pre) && Tracked(pre, post, tr)
    requires InversePatch(p, post, tr) && TwoLevels(p.restoreAssets)
    ensures ApplyPatch(post, p) == Some(pre)
  {
    AssetsBack(pre, post, tr, p);
    CablesBack(pre, post, tr, p);
    LinksBack(pre, post, tr, p);
    BackTogether(pre, post, p);
  }

  lemma BackTogether(pre: Net, post: Net, p: Patch)
    requires Consistent(pre) && Lists(p.assetOrder, p.restoreAssets.Keys) && TwoLevels(p.restoreAssets)
    requires TableBack(pre.assets, AfterDeletes(post, p).assets, p.restoreAssets, p.updateAssets)
    requires TableBack(pre.cables, AfterDeletes(post, p).cables, p.restoreCables, p.updateCables)
    requires TableBack(pre.links, AfterDeletes(post, p).links, p.restoreLinks, p.updateLinks)
    ensures ApplyPatch(post, p) == Some(pre)
  {
    var d := AfterDeletes(post, p);
    UndoRestoresAssets(pre, d.assets, p);
    UndoFits(pre, p, d);
    assert d.cables.Keys + p.restoreCables.Keys == pre.cables.Keys;
  }

  /** The operation seen backwards: from its result to its start. */
  function Mirror(post: Net, tr: Tracker): Tracker
  {
    Tracker(Restrict(post.assets, tr.assets.Keys + tr.madeAssets), Restrict(post.cables, tr.cables.Keys + tr.madeCables),
            Restrict(post.links, tr.links.Keys + tr.madeLinks),
            Gone(tr.assets, post.assets).Keys, Gone(tr.cables, post.cables).Keys, Gone(tr.links, post.links).Keys)
  }

  lemma MirrorTable<R>(pre: map<Id, R>, post: map<Id, R>, before: map<Id, R>, made: set<Id>)
    requires TableTracked(pre, post, before, made)
    ensures var after := Restrict(post, before.Keys + made);
      && TableTracked(post, pre, after, Gone(before, post).Keys)
      && Gone(before, post).Keys * pre.Keys == Gone(before, post).Keys
      && Gone(after, pre) == Restrict(post, made)
      && Changed(after, pre) == Changed(Restrict(post, before.Keys), before)
  {
  }

  lemma RedoIsMirroredUndo(pre: Net, post: Net, tr: Tracker, p: Patch)
    requires Tracked(pre, post, tr) && ForwardPatch(p, post, tr)
    ensures Tracked(post, pre, Mirror(post, tr)) && InversePatch(p, pre, Mirror(post, tr))
  {
    MirrorTable(pre.assets, post.assets, tr.assets, tr.madeAssets);
    MirrorTable(pre.cables, post.cables, tr.cables, tr.madeCables);
    MirrorTable(pre.links, post.links, tr.links, tr.madeLinks);
  }

  /** Redo, from the tables the undo restored, gives exactly the operation's result again. */
  lemma RedoExact(pre: Net, post: Net, tr: Tracker, p: Patch)
    requires Consistent(post) && Tracked(pre, post, tr)
    requires ForwardPatch(p, post, tr) && TwoLevels(p.restoreAssets)
    ensures ApplyPatch(pre, p) == Some(post)
  {
    RedoIsMirroredUndo(pre, post, tr, p);
    UndoExact(post, pre, Mirror(post, tr), p);
  }

  // ---- The edit log -----------------------------------------------------------------------

  class DesignEditor {
    var net: Net
    var log: Log<Patch>

    constructor (net: Net)
      ensures this.net == net && log == map[]
    {
      this.net, log := net, map[];
    }

    ghost function Now(): Editor<Net, Patch>
      reads this
    {
      Editor(net, log)
    }

    /** `apply_operation`, once the operation's body has run: log it, ending the redo branch. */
    method ApplyOperation(post: Net, tr: Tracker) returns (forward: Patch, inverse: Patch)
      modifies this
      ensures ForwardPatch(forward, post, tr) && InversePatch(inverse, post, tr)
      ensures Now() == Handle(ApplyPatch, old(Now()), Operate(post, forward, inverse))
    {
      net := post;
      forward, inverse := Patches(tr, post);
      log := map q | q in log && !log[q].undone :: log[q];
      assert Done(old(log)) == log.Keys;
      var seqNo := if log.Keys == {} then 1 else Last(log.Keys) + 1;
      log := log[seqNo := LogRow(forward, inverse, false)];
    }

    method UndoLast() returns (ok: bool)
      modifies this
      ensures Now() == Handle(ApplyPatch, old(Now()), Undo)
    {
      if Done(log) == {} {
        return false;
      }
      var q := Last(Done(log));
      var patched := ApplyPatch(net, log[q].inverse);
      if patched.None? {
        return false;
      }
      net := patched.value;
      log := log[q := log[q].(undone := true)];
      ok := true;
    }

    method RedoNext() returns (ok: bool)
      modifies this
      ensures Now() == Handle(ApplyPatch, old(Now()), Redo)
    {
      if Undone(log) == {} {
        return false;
      }
      var q := First(Undone(log));
      var patched := ApplyPatch(net, log[q].forward);
      if patched.None? {
        return false;
      }
      net := patched.value;
      log := log[q := log[q].(undone := false)];
      ok := true;
    }
  }

  /** A well-tracked operation, handed to the editor with the patches its tracker computes. */
  ghost predicate WellTracked(net: Net, c: Command<Net, Patch>)
  {
    c.Operate? ==> exists tr :: TrackedBy(net, c, tr)
  }

  predicate TrackedBy(net: Net, c: Command<Net, Patch>, tr: Tracker)
    requires c.Operate?
  {
    && Consistent(net) && Consistent(c.post) && Tracked(net, c.post, tr)
    && ForwardPatch(c.forward, c.post, tr) && TwoLevels(c.forward.restoreAssets)
    && InversePatch(c.inverse, c.post, tr) && TwoLevels(c.inverse.restoreAssets)
  }

  lemma WellTrackedBridges(net: Net, c: Command<Net, Patch>)
    requires c.Operate? && WellTracked(net, c)
    ensures Bridges(ApplyPatch, c.forward, c.inverse, net, c.post)
  {
    var tr :| TrackedBy(net, c, tr);
    BothExact(net, c, tr);
  }

  lemma BothExact(net: Net, c: Command<Net, Patch>, tr: Tracker)
    requires c.Operate? && TrackedBy(net, c, tr)
    ensures ApplyPatch(c.post, c.inverse) == Some(net) && ApplyPatch(net, c.forward) == Some(c.post)
  {
    UndoExact(net, c.post, tr, c.inverse);
    RedoExact(net, c.post, tr, c.forward);
  }

  ghost predicate WellTrackedRun(e: Editor<Net, Patch>, run: seq<Command<Net, Patch>>)
    decreases |run|
  {
    run == [] || (WellTracked(e.net, run[0]) && WellTrackedRun(Handle(ApplyPatch, e, run[0]), run[1..]))
  }

  lemma {:induction false} WellTrackedRunBridges(e: Editor<Net, Patch>, run: seq<Command<Net, Patch>>)
    requires WellTrackedRun(e, run)
    ensures BridgedRun(ApplyPatch, e, run)
    decreases |run|
  {
    if run != [] {
      WellTrackedRunBridges(Handle(ApplyPatch, e, run[0]), run[1..]);
      if run[0].Operate? { WellTrackedBridges(e.net, run[0]); }
    }
  }

  /**
   Main result: from an empty log, over every run of well-tracked operations, undos and redos, the working set is
   what it would be had every state been kept whole.
   */
  lemma EditingKeepsSnapshots(net: Net, run: seq<Command<Net, Patch>>)
    requires WellTrackedRun(Editor(net, map[]), run)
    ensures HandleAll(ApplyPatch, Editor(net, map[]), run).net == HandleAllSimply(Snapshots([], net, []), run).present
  {
    WellTrackedRunBridges(Editor(net, map[]), run);
    FreshLogRefines(ApplyPatch, net);
    RunRefines(ApplyPatch, Editor(net, map[]), Snapshots([], net, []), run);
  }

  lemma RunsRefine(net: Net, run: seq<Command<Net, Patch>>)
    requires WellTrackedRun(Editor(net, map[]), run)
    ensures Refines(ApplyPatch, HandleAll(ApplyPatch, Editor(net, map[]), run), HandleAllSimply(Snapshots([], net, []), run))
  {
    WellTrackedRunBridges(Editor(net, map[]), run);
    FreshLogRefines(ApplyPatch, net);
    RunRefines(ApplyPatch, Editor(net, map[]), Snapshots([], net, []), run);
  }

  /** After any such run, n undos reach the working set n operations back, and n redos give tables and log back exactly. */
  lemma UndoRedoReturns(net: Net, run: seq<Command<Net, Patch>>, e: Editor<Net, Patch>, z: Snapshots<Net>, n: nat)
    requires WellTrackedRun(Editor(net, map[]), run) && e == HandleAll(ApplyPatch, Editor(net, map[]), run)
    requires z == HandleAllSimply(Snapshots([], net, []), run) && n <= |z.past|
    ensures HandleAll(ApplyPatch, e, Times(Undo, n)).net == Timeline(z)[|z.past| - n]
    ensures HandleAll(ApplyPatch, e, Times(Undo, n) + Times(Redo, n)) == e
  {
    RunsRefine(net, run);
    UndoThenRedo(ApplyPatch, e, z, n);
  }

  // ---- DELETE_ASSET -----------------------------------------------------------------------

  /** What the user asks for: an asset of a design, whether its cables stay, and, for an FDT, the FATs that name it as their
      head, with the change that takes the name out of their attributes. */
  datatype DeleteRequest = DeleteRequest(asset: Id, design: Id, keepCables: bool, orphans: set<Id>, strip: string -> string)

  /** The asset and its children in the design: what is deleted. */
  function Family(n: Net, r: DeleteRequest): set<Id>
  {
    {r.asset} + set k | k in n.assets && n.assets[k].parent == Some(r.asset) && n.assets[k].design == Some(r.design)
  }

  predicate Touches(ref: Maybe<Id>, ids: set<Id>)
  {
    ref.Some? && ref.value in ids
  }

  predicate CableTouches(c: Cable, ids: set<Id>)
  {
    Touches(c.source, ids) || Touches(c.dest, ids)
  }

  function AttachedCables(n: Net, r: DeleteRequest): set<Id>
  {
    set id | id in n.cables && n.cables[id].design == Some(r.design) && CableTouches(n.cables[id], Family(n, r))
  }

  function AttachedLinks(n: Net, r: DeleteRequest): set<Id>
  {
    set id | id in n.links && (n.links[id].source in Family(n, r) || n.links[id].dest in Family(n, r))
  }

  /** `_delete_asset`: orphans lose their head, then the cables go unless kept, then the family. */
  function Deleted(n: Net, r: DeleteRequest): Net
  {
    var renamed := n.(assets := map id | id in n.assets ::
      if id in r.orphans then n.assets[id].(data := r.strip(n.assets[id].data)) else n.assets[id]);
    DropAssets(if r.keepCables then renamed else DropCables(renamed, AttachedCables(n, r)), Family(n, r))
  }

  /** The rows it touched first. */
  function DeleteTracker(n: Net, r: DeleteRequest): Tracker
  {
    Tracker(Restrict(n.assets, Family(n, r) + r.orphans), Restrict(n.cables, AttachedCables(n, r)),
            Restrict(n.links, AttachedLinks(n, r)), {}, {}, {})
  }

  /**
   Nothing outside what the operation snapshots refers to what it deletes: no grandchild and no child in another
   design, no cable of another design, no other connection running via a deleted cable; and the asset is not its
   own descendant.
   */
  predicate Contained(n: Net, r: DeleteRequest)
    requires r.asset in n.assets
  {
    && (forall id | id in n.assets && Touches(n.assets[id].parent, Family(n, r)) :: id in Family(n, r) + r.orphans)
    && (forall id | id in n.cables && CableTouches(n.cables[id], Family(n, r)) :: id in AttachedCables(n, r))
    && (!r.keepCables ==> forall id | id in n.links && Touches(n.links[id].via, AttachedCables(n, r)) :: id in AttachedLinks(n, r))
    && (Touches(n.assets[r.asset].parent, Family(n, r)) ==> Family(n, r) == {r.asset})
  }

  /** Undo gives back exactly the tables there were, in whatever order the rows come back. */
  ghost predicate DeleteUndoes(n: Net, r: DeleteRequest)
  {
    forall p | InversePatch(p, Deleted(n, r), DeleteTracker(n, r)) :: ApplyPatch(Deleted(n, r), p) == Some(n)
  }

  lemma DeletedAssets(n: Net, r: DeleteRequest)
    ensures Deleted(n, r).assets.Keys == n.assets.Keys - Family(n, r)
    ensures forall id | id in Deleted(n, r).assets && id !in r.orphans ::
      Deleted(n, r).assets[id] == n.assets[id].(parent := Clear(n.assets[id].parent, Family(n, r)))
  {
  }

  lemma DeletedCables(n: Net, r: DeleteRequest)
    ensures Deleted(n, r).cables.Keys == if r.keepCables then n.cables.Keys else n.cables.Keys - AttachedCables(n, r)
    ensures forall id | id in Deleted(n, r).cables ::
      && Deleted(n, r).cables[id].source == Clear(n.cables[id].source, Family(n, r))
      && Deleted(n, r).cables[id].dest == Clear(n.cables[id].dest, Family(n, r))
    ensures forall id | id in Deleted(n, r).cables && !CableTouches(n.cables[id], Family(n, r)) ::
      Deleted(n, r).cables[id] == n.cables[id]
  {
  }

  lemma DeletedLinks(n: Net, r: DeleteRequest)
    ensures Deleted(n, r).links.Keys == n.links.Keys - AttachedLinks(n, r)
    ensures forall id | id in Deleted(n, r).links && (r.keepCables || !Touches(n.links[id].via, AttachedCables(n, r))) ::
      Deleted(n, r).links[id] == n.links[id]
    ensures forall id | id in Deleted(n, r).links && !r.keepCables ::
      !Touches(Deleted(n, r).links[id].via, AttachedCables(n, r))
  {
  }

  lemma ContainedIsTracked(n: Net, r: DeleteRequest)
    requires r.asset in n.assets && Contained(n, r)
    ensures Tracked(n, Deleted(n, r), DeleteTracker(n, r))
  {
    DeletedAssets(n, r);
    DeletedCables(n, r);
    DeletedLinks(n, r);
  }

  lemma FamilyTwoLevels(n: Net, r: DeleteRequest)
    requires r.asset in n.assets && Contained(n, r)
    ensures TwoLevels(Gone(DeleteTracker(n, r).assets, Deleted(n, r).assets))
  {
    DeletedAssets(n, r);
    var rows := Gone(DeleteTracker(n, r).assets, Deleted(n, r).assets);
    assert forall id | id in rows :: id in Family(n, r) && rows[id] == n.assets[id];
  }

  lemma {:induction false} InsertKeeps(assets: map<Id, Asset>, order: seq<Id>, rows: map<Id, Asset>, id: Id)
    requires InsertAssets(assets, order, rows).Some? && id in assets
    ensures id in InsertAssets(assets, order, rows).value && InsertAssets(assets, order, rows).value[id] == assets[id]
    decreases |order|
  {
    if order != [] { InsertKeeps(assets[order[0] := rows[order[0]]], order[1..], rows, id); }
  }

  /** The undo's patch, with the rows coming back in the given order. */
  lemma PatchWithOrder(n: Net, r: DeleteRequest, order: seq<Id>) returns (p: Patch)
    requires Lists(order, Gone(DeleteTracker(n, r).assets, Deleted(n, r).assets).Keys)
    ensures InversePatch(p, Deleted(n, r), DeleteTracker(n, r)) && p.assetOrder == order
  {
    var tr, post := DeleteTracker(n, r), Deleted(n, r);
    p := Patch({}, {}, {}, order, Gone(tr.assets, post.assets), Gone(tr.cables, post.cables), Gone(tr.links, post.links),
      Changed(tr.assets, post.assets), Changed(tr.cables, post.cables), Changed(tr.links, post.links));
  }

  /** Rows the operation did not snapshot stay as the deletion left them. */
  lemma UntouchedStay(n: Net, r: DeleteRequest, p: Patch, back: Net)
    requires InversePatch(p, Deleted(n, r), DeleteTracker(n, r)) && ApplyPatch(Deleted(n, r), p) == Some(back)
    ensures forall id | id in Deleted(n, r).assets && id !in Family(n, r) + r.orphans ::
      id in back.assets && back.assets[id] == Deleted(n, r).assets[id]
    ensures forall id | id in Deleted(n, r).cables && id !in AttachedCables(n, r) ::
      id in back.cables && back.cables[id] == Deleted(n, r).cables[id]
    ensures forall id | id in Deleted(n, r).links && id !in AttachedLinks(n, r) ::
      id in back.links && back.links[id] == Deleted(n, r).links[id]
  {
    var post := Deleted(n, r);
    NoDeletes(post, p);
    forall id | id in post.assets && id !in Family(n, r) + r.orphans
      ensures id in back.assets && back.assets[id] == post.assets[id]
    {
      InsertKeeps(post.assets, ParentsFirst(p.assetOrder, p.restoreAssets), p.restoreAssets, id);
    }
  }

  lemma NoDeletes(n: Net, p: Patch)
    requires p.deleteAssets == {} && p.deleteCables == {} && p.deleteLinks == {}
    ensures AfterDeletes(n, p) == n
  {
    var d := AfterDeletes(n, p);
    assert d.assets == n.assets && d.cables == n.cables && d.links == n.links;
  }

  lemma FamilyRows(n: Net, r: DeleteRequest)
    requires r.asset in n.assets
    ensures Gone(DeleteTracker(n, r).assets, Deleted(n, r).assets) == Restrict(n.assets, Family(n, r))
    ensures Restrict(n.assets, Family(n, r)).Keys == Family(n, r)
  {
    DeletedAssets(n, r);
  }

  lemma CycleAllChildren(n: Net, r: DeleteRequest, order: seq<Id>)
    requires r.asset in n.assets && Touches(n.assets[r.asset].parent, Family(n, r))
    requires Lists(order, Family(n, r))
    ensures ParentsFirst(order, Restrict(n.assets, Family(n, r))) == order
  {
    var rows := Restrict(n.assets, Family(n, r));
    assert forall id | id in rows :: ParentAmong(id, rows);
    PickAllOrNone(order, rows);
  }

  /** An asset among its own descendants cannot come back child first. */
  lemma CycleFails(n: Net, r: DeleteRequest)
    requires r.asset in n.assets
    requires Touches(n.assets[r.asset].parent, Family(n, r)) && Family(n, r) != {r.asset}
    ensures !DeleteUndoes(n, r)
  {
    var kid :| kid in Family(n, r) && kid != r.asset;
    var rest := SomeOrder(Family(n, r) - {kid});
    var order := [kid] + rest;
    FamilyRows(n, r);
    var p := PatchWithOrder(n, r, order);
    CycleAllChildren(n, r, order);
    KidStuck(n, r, kid);
    FirstRowStuck(Deleted(n, r), p);
  }

  lemma KidStuck(n: Net, r: DeleteRequest, kid: Id)
    requires r.asset in n.assets && kid in Family(n, r) && kid != r.asset
    ensures kid in n.assets && !RefOk(n.assets[kid].parent, Deleted(n, r).assets.Keys + {kid})
  {
    DeletedAssets(n, r);
  }

  lemma FirstRowStuck(n: Net, p: Patch)
    requires p.deleteAssets == {} && p.deleteCables == {} && p.deleteLinks == {} && p.assetOrder != []
    requires ParentsFirst(p.assetOrder, p.restoreAssets) == p.assetOrder
    requires var id := p.assetOrder[0];
      id in p.restoreAssets && !RefOk(p.restoreAssets[id].parent, n.assets.Keys + {id})
    ensures ApplyPatch(n, p) == None
  {
    NoDeletes(n, p);
  }

  lemma {:induction false} PickAllOrNone(order: seq<Id>, rows: map<Id, Asset>)
    requires forall id | id in order :: ParentAmong(id, rows)
    ensures Pick(order, rows, true) == order && Pick(order, rows, false) == []
  {
    if order != [] {
      PickAllOrNone(order[1..], rows);
      assert order == [order[0]] + order[1..];
    }
  }

  /** Main result. Undo takes DELETE_ASSET back exactly if and only if the deletion is contained. */
  lemma DeleteAssetUndo(n: Net, r: DeleteRequest)
    requires Consistent(n) && r.asset in n.assets
    ensures DeleteUndoes(n, r) <==> Contained(n, r)
  {
    if Contained(n, r) {
      ContainedIsTracked(n, r);
      FamilyTwoLevels(n, r);
      forall p | InversePatch(p, Deleted(n, r), DeleteTracker(n, r)) ensures ApplyPatch(Deleted(n, r), p) == Some(n) {
        UndoExact(n, Deleted(n, r), DeleteTracker(n, r), p);
      }
    } else if DeleteUndoes(n, r) {
      UndoneIsContained(n, r);
      assert false;
    }
  }

  lemma UndoneIsContained(n: Net, r: DeleteRequest)
    requires r.asset in n.assets && DeleteUndoes(n, r)
    ensures Contained(n, r)
  {
    var order := SomeOrder(Gone(DeleteTracker(n, r).assets, Deleted(n, r).assets).Keys);
    var p := PatchWithOrder(n, r, order);
    UntouchedStay(n, r, p, n);
    UnchangedOutside(n, r);
    if Touches(n.assets[r.asset].parent, Family(n, r)) && Family(n, r) != {r.asset} { CycleFails(n, r); }
  }

  /** If the deletion changed no row it did not snapshot, no such row referred to what went. */
  lemma UnchangedOutside(n: Net, r: DeleteRequest)
    requires forall id | id in Deleted(n, r).assets && id !in Family(n, r) + r.orphans :: Deleted(n, r).assets[id] == n.assets[id]
    requires forall id | id in Deleted(n, r).cables && id !in AttachedCables(n, r) :: Deleted(n, r).cables[id] == n.cables[id]
    requires forall id | id in Deleted(n, r).links && id !in AttachedLinks(n, r) :: Deleted(n, r).links[id] == n.links[id]
    ensures forall id | id in n.assets && Touches(n.assets[id].parent, Family(n, r)) :: id in Family(n, r) + r.orphans
    ensures forall id | id in n.cables && CableTouches(n.cables[id], Family(n, r)) :: id in AttachedCables(n, r)
    ensures !r.keepCables ==>
      forall id | id in n.links && Touches(n.links[id].via, AttachedCables(n, r)) :: id in AttachedLinks(n, r)
  {
  }

  /**
   How a real design gets there: cable 1 once joined assets 1 and 2 and carries their connection; extended, it now
   ends at asset 3. Deleting 3 deletes the cable, which clears the connection's via_cable_id untracked.
   */
  lemma ReroutedCableNotUndone()
    ensures
      var box, d := Asset(None, Some(7), ""), Some(7 as Id);
      var n := Net(map[1 := box, 2 := box, 3 := box], map[1 := Cable(Some(1), Some(3), d, "")],
                   map[1 := Link(1, 2, Some(1), ""), 2 := Link(1, 3, Some(1), "")]);
      Consistent(n) && !DeleteUndoes(n, DeleteRequest(3, 7, false, {}, x => x))
  {
    var box, d := Asset(None, Some(7), ""), Some(7 as Id);
    var n := Net(map[1 := box, 2 := box, 3 := box], map[1 := Cable(Some(1), Some(3), d, "")],
                 map[1 := Link(1, 2, Some(1), ""), 2 := Link(1, 3, Some(1), "")]);
    var r := DeleteRequest(3, 7, false, {}, x => x);
    assert Family(n, r) == {3};
    assert 1 in AttachedCables(n, r) && 1 !in AttachedLinks(n, r);
    assert Touches(n.links[1].via, AttachedCables(n, r));
    DeleteAssetUndo(n, r);
  }
}
