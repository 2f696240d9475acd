/**
 The network audit trigger `network_audit_row()` (migrations 0092 and 0094) and the log it keeps.

 The log stores a delta per change. The results: the deltas are exact, folding them forward rebuilds every
 audited row, folding them backward restores every earlier state, and the later trigger differs from the
 earlier one only on promotions.
 */
module NetworkAudit {
  import opened Optional

  /** A column's value in `to_jsonb(row)`: a NULL column is a JSON null, not a missing key. */
  datatype Json = Null | Str(s: string) | Raw(text: string)

  type Row = map<string, Json>

  const BOOKKEEPING: set<string> := {"updated_at", "updated_by"}

  /** `to_jsonb(row) - 'updated_at' - 'updated_by'`. */
  function Image(r: Row): Row
  {
    r - BOOKKEEPING
  }

  /** The operator `->>`: SQL NULL for a missing key and for a JSON null. */
  function AsText(r: Row, k: string): Maybe<string>
  {
    if k !in r then None
    else match r[k] case Null => None case Str(s) => Some(s) case Raw(t) => Some(t)
  }

  function Coalesce<T>(a: Maybe<T>, b: Maybe<T>): Maybe<T>
  {
    if a.Some? then a else b
  }

  /** TG_OP with OLD and NEW. */
  datatype Change = Insert(new_: Row) | Update(old_: Row, new_: Row) | Delete(old_: Row)

  /** The settings of the transaction that makes a change; `None` is an unset one. */
  datatype Session = Session(auditBulk: Maybe<string>, userId: Maybe<string>, actorLabel: Maybe<string>)

  predicate AuditOff(s: Session)
  {
    s.auditBulk == Some("off")
  }

  datatype Entry = Entry(
    tenantId: Maybe<string>, entityType: string, entityId: Maybe<string>, entityCode: Maybe<string>,
    designId: Maybe<string>, action: string, actorId: Maybe<string>, actorLabel: string,
    changed: Maybe<seq<string>>, oldData: Maybe<Row>, newData: Maybe<Row>)

  // ---- What an entry must say -------------------------------------------------------------

  /** `o -> k IS DISTINCT FROM n -> k`, for a key of `n`. */
  predicate Differs(o: Row, n: Row, k: string)
    requires k in n
  {
    k !in o || o[k] != n[k]
  }

  /** Every key on which the images differ, each once. */
  ghost predicate ListsDifferences(changed: seq<string>, o: Row, n: Row)
  {
    && (forall i, j | 0 <= i < j < |changed| :: changed[i] != changed[j])
    && (forall k | k in changed :: k in n && Differs(o, n, k))
    && (forall k | k in n && Differs(o, n, k) :: k in changed)
  }

  function Part(r: Row, keys: seq<string>): Row
  {
    map k | k in keys :: if k in r then r[k] else Null
  }

  predicate Within(keys: seq<string>, allowed: set<string>)
  {
    forall k | k in keys :: k in allowed
  }

  /** The CASE that labels an update; `promote` is the rule 0094 added. */
  function UpdateAction(promote: bool, changed: seq<string>, dOld: Row, dNew: Row): string
  {
    if "deleted_at" in dNew && AsText(dNew, "deleted_at").Some? then "delete"
    else if "deleted_at" in dNew then "restore"
    else if promote && AsText(dOld, "design_id").Some? && "design_id" in dNew && AsText(dNew, "design_id").None? then "promote"
    else if Within(changed, {"geom", "length_m"}) then "move"
    else if Within(changed, {"lifecycle_status"}) then "lifecycle"
    else "update"
  }

  /** The images the trigger starts from. */
  function OldImage(c: Change): Maybe<Row>
  {
    if c.Insert? then None else Some(Image(c.old_))
  }

  function NewImage(c: Change): Maybe<Row>
  {
    if c.Delete? then None else Some(Image(c.new_))
  }

  function DesignRef(promote: bool, c: Change): Maybe<string>
  {
    var o := if c.Insert? then None else AsText(Image(c.old_), "design_id");
    var n := if c.Delete? then None else AsText(Image(c.new_), "design_id");
    if promote then Coalesce(n, o) else if c.Delete? then o else n
  }

  function NullIfEmpty(s: Maybe<string>): Maybe<string>
  {
    if s == Some("") then None else s
  }

  /** The row inserted into network_audit_log, given the changed keys in the order they were met. */
  function MakeEntry(promote: bool, kind: string, c: Change, s: Session, changed: Maybe<seq<string>>): Entry
    requires c.Update? <==> changed.Some?
  {
    var row := Coalesce(NewImage(c), OldImage(c)).value;
    var who := NullIfEmpty(s.actorLabel);
    var base := Entry(
      AsText(row, "tenant_id"), kind, AsText(row, "id"), AsText(row, "asset_code"), DesignRef(promote, c),
      if c.Insert? then "create" else "delete", NullIfEmpty(s.userId), if who.Some? then who.value else "System",
      None, OldImage(c), NewImage(c));
    if !c.Update? then base
    else
      var dOld, dNew := Part(Image(c.old_), changed.value), Part(Image(c.new_), changed.value);
      base.(action := UpdateAction(promote, changed.value, dOld, dNew), changed := changed,
            oldData := Some(dOld), newData := Some(dNew))
  }

  /** What the trigger writes for one change: nothing in bulk mode or when only bookkeeping moved, else one entry. */
  ghost predicate Emits(promote: bool, kind: string, c: Change, s: Session, written: seq<Entry>)
  {
    if AuditOff(s) then written == []
    else if !c.Update? then written == [MakeEntry(promote, kind, c, s, None)]
    else if ListsDifferences([], Image(c.old_), Image(c.new_)) then written == []
    else
      && |written| == 1
      && written[0].changed.Some?
      && ListsDifferences(written[0].changed.value, Image(c.old_), Image(c.new_))
      && written[0] == MakeEntry(promote, kind, c, s, written[0].changed)
  }

  // ---- The trigger ------------------------------------------------------------------------

  class AuditLog {
    var entries: seq<Entry>

    constructor ()
      ensures entries == []
    {
      entries := [];
    }

    method AuditRow(promote: bool, kind: string, c: Change, s: Session) returns (written: seq<Entry>)
      modifies this
      ensures Emits(promote, kind, c, s, written)
      ensures entries == old(entries) + written
    {
      var o, n := OldImage(c), NewImage(c);
      var row := Coalesce(n, o).value;
      if AuditOff(s) {
        return [];
      }
      var design := if promote
        then Coalesce(if n.Some? then AsText(n.value, "design_id") else None, if o.Some? then AsText(o.value, "design_id") else None)
        else AsText(row, "design_id");
      var changed: Maybe<seq<string>> := None;
      var action;
      if c.Update? {
        var keys, dOld, dNew := Differences(o.value, n.value);
        if keys == [] {
          return [];
        }
        assert keys[0] in keys;
        changed := Some(keys);
        action := UpdateAction(promote, keys, dOld, dNew);
        o, n := Some(dOld), Some(dNew);
      } else {
        action := if c.Insert? then "create" else "delete";
      }
      var who := NullIfEmpty(s.actorLabel);
      var e := Entry(AsText(row, "tenant_id"), kind, AsText(row, "id"), AsText(row, "asset_code"), design, action,
                     NullIfEmpty(s.userId), if who.Some? then who.value else "System", changed, o, n);
      entries := entries + [e];
      written := [e];
    }
  }

  lemma PartGrows(r: Row, keys: seq<string>, k: string)
    ensures Part(r, keys + [k]) == Part(r, keys)[k := if k in r then r[k] else Null]
  {
  }

  /** The trigger's loop over the keys of the new image, in whatever order jsonb hands them out. */
  method Differences(o: Row, n: Row) returns (changed: seq<string>, dOld: Row, dNew: Row)
    ensures ListsDifferences(changed, o, n)
    ensures dOld == Part(o, changed) && dNew == Part(n, changed)
  {
    changed, dOld, dNew := [], map[], map[];
    var todo := n.Keys;
    while todo != {}
      invariant todo <= n.Keys
      invariant forall i, j | 0 <= i < j < |changed| :: changed[i] != changed[j]
      invariant forall k | k in changed :: k in n && k !in todo && Differs(o, n, k)
      invariant forall k | k in n && k !in todo && Differs(o, n, k) :: k in changed
      invariant dOld == Part(o, changed) && dNew == Part(n, changed)
    {
      var k :| k in todo;
      todo := todo - {k};
      if k !in o || o[k] != n[k] {
        PartGrows(o, changed, k);
        PartGrows(n, changed, k);
        changed := changed + [k];
        dOld := dOld[k := if k in o then o[k] else Null];
        dNew := dNew[k := n[k]];
      }
    }
  }

  // ---- Exactness --------------------------------------------------------------------------

  /** The two parts hold the differing keys, and each turns the other side's row into its own. */
  lemma PartsExact(o: Row, n: Row, changed: seq<string>)
    requires o.Keys == n.Keys && ListsDifferences(changed, o, n)
    ensures forall k :: k in Part(o, changed) <==> k in o && o[k] != n[k]
    ensures Part(n, changed).Keys == Part(o, changed).Keys
    ensures forall k | k in Part(o, changed) :: Part(o, changed)[k] == o[k] && Part(n, changed)[k] == n[k]
    ensures o + Part(n, changed) == n && n + Part(o, changed) == o
  {
    assert forall k | k in changed :: k in n && k in o;
  }

  /** An update's entry holds the differing keys and no others, with their values on each side. */
  lemma DeltaExact(promote: bool, kind: string, c: Change, s: Session, written: seq<Entry>)
    requires Emits(promote, kind, c, s, written) && !AuditOff(s) && c.Update?
    requires c.old_.Keys == c.new_.Keys
    ensures written == [] <==> Image(c.old_) == Image(c.new_)
    ensures written != [] ==>
      var e, o, n := written[0], Image(c.old_), Image(c.new_);
      && e.oldData.Some? && e.newData.Some?
      && (forall k :: k in e.oldData.value <==> k in o && o[k] != n[k])
      && e.newData.value.Keys == e.oldData.value.Keys
      && (forall k | k in e.oldData.value :: e.oldData.value[k] == o[k] && e.newData.value[k] == n[k])
      && o + e.newData.value == n && n + e.oldData.value == o
  {
    var o, n := Image(c.old_), Image(c.new_);
    assert o.Keys == n.Keys;
    if o == n {
      assert ListsDifferences([], o, n);
    } else {
      assert exists k :: k in n && o[k] != n[k];
      PartsExact(o, n, written[0].changed.value);
    }
  }

  /** The action label `delete` covers both removals; the entry's shape still tells the operations apart. */
  lemma ShapeTellsOperation(promote: bool, kind: string, c: Change, s: Session, written: seq<Entry>)
    requires Emits(promote, kind, c, s, written) && written != []
    ensures written[0].newData.None? <==> c.Delete?
    ensures written[0].oldData.None? <==> c.Insert?
    ensures written[0].changed.Some? <==> c.Update?
    ensures c.Delete? ==> written[0].action == "delete"
    ensures c.Update? && "deleted_at" in c.old_ && "deleted_at" in c.new_ && c.old_["deleted_at"].Null? && !c.new_["deleted_at"].Null?
            ==> written[0].action == "delete"
  {
    if c.Update? && "deleted_at" in c.old_ && "deleted_at" in c.new_ && c.old_["deleted_at"].Null? && !c.new_["deleted_at"].Null? {
      var o, n := Image(c.old_), Image(c.new_);
      assert "deleted_at" in o && "deleted_at" in n && Differs(o, n, "deleted_at");
    }
  }

  // ---- What an entry says, on the rows ----------------------------------------------------

  /** The column's value really changed: bookkeeping does not count. */
  predicate Moved(c: Change, k: string)
    requires c.Update?
  {
    k != "updated_at" && k != "updated_by" && k in c.new_ && (k !in c.old_ || c.old_[k] != c.new_[k])
  }

  /** An update of one table: both rows have its columns. */
  predicate SameColumns(c: Change)
  {
    c.Update? ==> c.old_.Keys == c.new_.Keys
  }

  /** One entry per change, except in bulk mode and for updates that move nothing but bookkeeping. */
  lemma WrittenExactly(promote: bool, kind: string, c: Change, s: Session, written: seq<Entry>)
    requires Emits(promote, kind, c, s, written) && SameColumns(c)
    ensures |written| <= 1
    ensures written == [] <==> s.auditBulk == Some("off") || (c.Update? && forall k | k in c.new_ :: !Moved(c, k))
  {
    if c.Update? {
      assert forall k | k in Image(c.new_) :: Differs(Image(c.old_), Image(c.new_), k) <==> Moved(c, k);
    }
  }

  /** The label that the changed columns call for. */
  ghost function Label(promote: bool, c: Change): string
    requires SameColumns(c)
  {
    if c.Insert? then "create"
    else if c.Delete? then "delete"
    else if Moved(c, "deleted_at") then if c.new_["deleted_at"] == Null then "restore" else "delete"
    else if promote && Moved(c, "design_id") && c.new_["design_id"] == Null then "promote"
    else if forall k | k in c.new_ && Moved(c, k) :: k == "geom" || k == "length_m" then "move"
    else if forall k | k in c.new_ && Moved(c, k) :: k == "lifecycle_status" then "lifecycle"
    else "update"
  }

  lemma ChangedAreMoved(c: Change, changed: seq<string>)
    requires c.Update? && SameColumns(c) && ListsDifferences(changed, Image(c.old_), Image(c.new_))
    ensures forall k :: k in changed <==> k in c.new_ && Moved(c, k)
    ensures forall k | k in changed :: Part(Image(c.old_), changed)[k] == c.old_[k] && Part(Image(c.new_), changed)[k] == c.new_[k]
  {
    var o, n := Image(c.old_), Image(c.new_);
    assert forall k | k in n :: Differs(o, n, k) <==> Moved(c, k);
  }

  /** Every entry carries the label that the change calls for, told from the rows alone. */
  lemma LabelExact(promote: bool, kind: string, c: Change, s: Session, written: seq<Entry>)
    requires Emits(promote, kind, c, s, written) && written != [] && SameColumns(c)
    ensures written[0].action == Label(promote, c)
  {
    if c.Update? {
      var changed := written[0].changed.value;
      ChangedAreMoved(c, changed);
      UpdateLabel(promote, c, changed, Part(Image(c.old_), changed), Part(Image(c.new_), changed));
    }
  }

  lemma WithinGeometry(c: Change, changed: seq<string>)
    requires c.Update? && forall k :: k in changed <==> k in c.new_ && Moved(c, k)
    ensures Within(changed, {"geom", "length_m"}) <==> forall k | k in c.new_ && Moved(c, k) :: k == "geom" || k == "length_m"
    ensures Within(changed, {"lifecycle_status"}) <==> forall k | k in c.new_ && Moved(c, k) :: k == "lifecycle_status"
  {
  }

  lemma UpdateLabel(promote: bool, c: Change, changed: seq<string>, dOld: Row, dNew: Row)
    requires c.Update? && SameColumns(c) && forall k :: k in changed <==> k in c.new_ && Moved(c, k)
    requires forall k | k in changed :: k in dOld && k in dNew && dOld[k] == c.old_[k] && dNew[k] == c.new_[k]
    requires forall k | k in dNew :: k in changed
    ensures UpdateAction(promote, changed, dOld, dNew) == Label(promote, c)
  {
    WithinGeometry(c, changed);
  }

  /** The value is the column's text: NULL for a missing column or a JSON null. */
  predicate Reads(row: Row, k: string, v: Maybe<string>)
  {
    && (k !in row || row[k] == Null ==> v == None)
    && (k in row && row[k].Str? ==> v == Some(row[k].s))
    && (k in row && row[k].Raw? ==> v == Some(row[k].text))
  }

  /** Who, what and where: each field of the entry against the changed row and the session. */
  lemma FieldsExact(promote: bool, kind: string, c: Change, s: Session, written: seq<Entry>)
    requires Emits(promote, kind, c, s, written) && written != []
    ensures var e := written[0]; var row := if c.Delete? then c.old_ else c.new_;
      && e.entityType == kind && Reads(row, "tenant_id", e.tenantId) && Reads(row, "id", e.entityId)
      && Reads(row, "asset_code", e.entityCode)
      && e.actorId == (if s.userId == Some("") then None else s.userId)
      && e.actorLabel == (if s.actorLabel.Some? && s.actorLabel.value != "" then s.actorLabel.value else "System")
    ensures var e := written[0];
      if c.Delete? then Reads(c.old_, "design_id", e.designId)
      else if promote && c.Update? && Reads(c.new_, "design_id", None) then Reads(c.old_, "design_id", e.designId)
      else Reads(c.new_, "design_id", e.designId)
  {
  }

  /** An insert's entry holds the new row and a delete's the old one, whole but for the bookkeeping. */
  lemma ImagesExact(promote: bool, kind: string, c: Change, s: Session, written: seq<Entry>)
    requires Emits(promote, kind, c, s, written) && written != [] && !c.Update?
    ensures written[0].changed.None?
    ensures c.Insert? ==> written[0].oldData.None? && written[0].newData.Some? && HoldsRow(written[0].newData.value, c.new_)
    ensures c.Delete? ==> written[0].newData.None? && written[0].oldData.Some? && HoldsRow(written[0].oldData.value, c.old_)
  {
  }

  ghost predicate HoldsRow(image: Row, row: Row)
  {
    && (forall k :: k in image <==> k in row && k != "updated_at" && k != "updated_by")
    && (forall k | k in image :: image[k] == row[k])
  }

  /** The row leaves its design: design_id goes from a design to NULL. */
  predicate LeavesDesign(c: Change)
  {
    c.Update? && AsText(Image(c.old_), "design_id").Some? && AsText(Image(c.new_), "design_id").None?
  }

  /**
   The trigger of 0094 is the trigger of 0092 on every change except one that takes a row out of its design;
   there, and only there, the entry differs, and it keeps the design's id.
   */
  lemma PromoteRuleConservative(kind: string, c: Change, s: Session, changed: Maybe<seq<string>>)
    requires c.Update? <==> changed.Some?
    requires c.Update? ==> ListsDifferences(changed.value, Image(c.old_), Image(c.new_)) && c.old_.Keys == c.new_.Keys
    ensures MakeEntry(true, kind, c, s, changed) == MakeEntry(false, kind, c, s, changed) <==> !LeavesDesign(c)
    ensures LeavesDesign(c) ==>
      var e := MakeEntry(true, kind, c, s, changed);
      && e.designId == AsText(Image(c.old_), "design_id")
      && e.action == (if "deleted_at" in changed.value
                      then MakeEntry(false, kind, c, s, changed).action else "promote")
  {
  }

  // ---- Replay -----------------------------------------------------------------------------

  /** A row's place: which audited table, and its id. */
  datatype Key = Key(kind: string, id: string)

  type Table = map<Key, Row>

  datatype Op = Add(kind: string, row: Row) | Change(key: Key, row: Row) | Remove(key: Key)

  /** One statement, the settings it ran under, and whether the 0094 trigger was in place. */
  datatype Step = Step(op: Op, session: Session, promote: bool)

  /** Rows of a table all have its columns, and each is stored under its own id. */
  ghost predicate Keyed(t: Table, columns: map<string, set<string>>)
  {
    forall key | key in t :: FitsTable(t[key], key, columns)
  }

  predicate FitsTable(row: Row, key: Key, columns: map<string, set<string>>)
  {
    && key.kind in columns && row.Keys == columns[key.kind]
    && "id" in row && row["id"] == Str(key.id)
  }

  function RowKey(kind: string, row: Row): Key
  {
    Key(kind, if "id" in row && row["id"].Str? then row["id"].s else "")
  }

  /** The statement respects the schema and the primary key. An update may even move the row to a new id. */
  predicate Applicable(op: Op, t: Table, columns: map<string, set<string>>)
  {
    match op
    case Add(kind, row) => FitsTable(row, RowKey(kind, row), columns) && RowKey(kind, row) !in t
    case Change(key, row) =>
      var to := RowKey(key.kind, row);
      key in t && FitsTable(row, to, columns) && (to == key || to !in t)
    case Remove(key) => key in t
  }

  function Apply(op: Op, t: Table): Table
  {
    match op
    case Add(kind, row) => t[RowKey(kind, row) := row]
    case Change(key, row) => (t - {key})[RowKey(key.kind, row) := row]
    case Remove(key) => t - {key}
  }

  function Kind(op: Op): string
  {
    if op.Add? then op.kind else op.key.kind
  }

  function ChangeOf(op: Op, t: Table): Change
    requires !op.Add? ==> op.key in t
  {
    match op
    case Add(_, row) => Insert(row)
    case Change(key, row) => Update(t[key], row)
    case Remove(key) => Delete(t[key])
  }

  /** What the log can show of the tables: everything but the bookkeeping columns. */
  function Images(t: Table): (r: Table)
  {
    map key | key in t :: Image(t[key])
  }

  /** The tables after each statement. */
  function After(t: Table, steps: seq<Step>): Table
    decreases |steps|
  {
    if steps == [] then t else After(Apply(steps[0].op, t), steps[1..])
  }

  /** A history: every statement applies, none runs in bulk mode, and the log is what the trigger wrote, in order. */
  ghost predicate History(t: Table, steps: seq<Step>, log: seq<seq<Entry>>, columns: map<string, set<string>>)
    decreases |steps|
  {
    && |log| == |steps|
    && (steps != [] ==>
          && Applicable(steps[0].op, t, columns)
          && !AuditOff(steps[0].session)
          && Emits(steps[0].promote, Kind(steps[0].op), ChangeOf(steps[0].op, t), steps[0].session, log[0])
          && History(Apply(steps[0].op, t), steps[1..], log[1..], columns))
  }

  function EntryKey(e: Entry): Key
  {
    Key(e.entityType, if e.entityId.Some? then e.entityId.value else "")
  }

  /** Where an updated row was before: its id is among the changed keys if it moved. */
  function OldKey(e: Entry): Key
    requires e.oldData.Some?
  {
    var old_ := e.oldData.value;
    if "id" in old_ then RowKey(e.entityType, old_) else EntryKey(e)
  }

  /** Reading an entry as a change to make. */
  function Redo(t: Table, e: Entry): Table
  {
    var key := EntryKey(e);
    if e.newData.None? then t - {key}
    else if e.oldData.None? then t[key := e.newData.value]
    else if OldKey(e) in t then (t - {OldKey(e)})[key := t[OldKey(e)] + e.newData.value]
    else t
  }

  /** Reading an entry as a change to take back. */
  function Undo(t: Table, e: Entry): Table
  {
    var key := EntryKey(e);
    if e.newData.None? then (if e.oldData.Some? then t[key := e.oldData.value] else t)
    else if e.oldData.None? then t - {key}
    else if key in t then (t - {key})[OldKey(e) := t[key] + e.oldData.value]
    else t
  }

  function RedoAll(t: Table, entries: seq<Entry>): Table
    decreases |entries|
  {
    if entries == [] then t else RedoAll(Redo(t, entries[0]), entries[1..])
  }

  /** Newest entry first. */
  function UndoAll(t: Table, entries: seq<Entry>): Table
  {
    if entries == [] then t else Undo(UndoAll(t, entries[1..]), entries[0])
  }

  function Flatten(log: seq<seq<Entry>>): seq<Entry>
  {
    if log == [] then [] else log[0] + Flatten(log[1..])
  }

  lemma KeyedAfter(t: Table, op: Op, columns: map<string, set<string>>)
    requires Keyed(t, columns) && Applicable(op, t, columns)
    ensures Keyed(Apply(op, t), columns)
  {
  }

  lemma IdInImage(row: Row, key: Key, columns: map<string, set<string>>)
    requires FitsTable(row, key, columns)
    ensures "id" in Image(row) && Image(row)["id"] == Str(key.id) && AsText(Image(row), "id") == Some(key.id)
  {
  }

  lemma UpdateEntry(o: Row, n: Row, key: Key, to: Key, e: Entry)
    requires "id" in o && "id" in n && o["id"] == Str(key.id) && n["id"] == Str(to.id)
    requires key.kind == to.kind == e.entityType && e.entityId == Some(to.id) && e.oldData.Some?
    requires forall k :: k in e.oldData.value <==> k in o && k in n && o[k] != n[k]
    requires forall k | k in e.oldData.value :: e.oldData.value[k] == o[k]
    ensures EntryKey(e) == to && OldKey(e) == key
  {
  }

  lemma ImagesChange(t: Table, key: Key, to: Key, row: Row)
    requires key in t && (to == key || to !in t)
    ensures Images((t - {key})[to := row]) == (Images(t) - {key})[to := Image(row)]
    ensures (Images((t - {key})[to := row]) - {to})[key := Image(t[key])] == Images(t)
  {
  }

  /** One update's entry, read forward and backward. */
  lemma UpdateReplays(t: Table, key: Key, row: Row, s: Session, promote: bool, e: Entry, columns: map<string, set<string>>)
    requires Keyed(t, columns) && Applicable(Op.Change(key, row), t, columns) && !AuditOff(s)
    requires Emits(promote, key.kind, Update(t[key], row), s, [e])
    ensures Redo(Images(t), e) == Images(Apply(Op.Change(key, row), t))
    ensures Undo(Images(Apply(Op.Change(key, row), t)), e) == Images(t)
  {
    var to, o, n := RowKey(key.kind, row), Image(t[key]), Image(row);
    assert FitsTable(t[key], key, columns);
    IdInImage(t[key], key, columns);
    IdInImage(row, to, columns);
    DeltaExact(promote, key.kind, Update(t[key], row), s, [e]);
    UpdateEntry(o, n, key, to, e);
    ImagesChange(t, key, to, row);
  }

  lemma AddReplays(t: Table, kind: string, row: Row, s: Session, promote: bool, e: Entry, columns: map<string, set<string>>)
    requires Applicable(Add(kind, row), t, columns) && !AuditOff(s)
    requires Emits(promote, kind, Insert(row), s, [e])
    ensures Redo(Images(t), e) == Images(Apply(Add(kind, row), t))
    ensures Undo(Images(Apply(Add(kind, row), t)), e) == Images(t)
  {
    var key := RowKey(kind, row);
    IdInImage(row, key, columns);
    assert EntryKey(e) == key && e.newData == Some(Image(row)) && e.oldData == None;
    assert Images(t[key := row]) == Images(t)[key := Image(row)];
    assert Images(t[key := row]) - {key} == Images(t);
  }

  lemma RemoveReplays(t: Table, key: Key, s: Session, promote: bool, e: Entry, columns: map<string, set<string>>)
    requires Keyed(t, columns) && key in t && !AuditOff(s)
    requires Emits(promote, key.kind, Delete(t[key]), s, [e])
    ensures Redo(Images(t), e) == Images(t - {key})
    ensures Undo(Images(t - {key}), e) == Images(t)
  {
    assert FitsTable(t[key], key, columns);
    IdInImage(t[key], key, columns);
    assert EntryKey(e) == key && e.oldData == Some(Image(t[key])) && e.newData == None;
    assert Images(t - {key}) == Images(t) - {key};
    assert Images(t - {key})[key := Image(t[key])] == Images(t);
  }

  lemma SilentUpdate(t: Table, key: Key, row: Row, s: Session, promote: bool, columns: map<string, set<string>>)
    requires Keyed(t, columns) && Applicable(Op.Change(key, row), t, columns) && !AuditOff(s)
    requires Emits(promote, key.kind, Update(t[key], row), s, [])
    ensures Images(Apply(Op.Change(key, row), t)) == Images(t)
  {
    var to := RowKey(key.kind, row);
    assert FitsTable(t[key], key, columns);
    IdInImage(t[key], key, columns);
    IdInImage(row, to, columns);
    DeltaExact(promote, key.kind, Update(t[key], row), s, []);
    assert to == key;
    ImagesChange(t, key, to, row);
  }

  lemma StepReplays(t: Table, step: Step, written: seq<Entry>, columns: map<string, set<string>>)
    requires Keyed(t, columns) && Applicable(step.op, t, columns) && !AuditOff(step.session)
    requires Emits(step.promote, Kind(step.op), ChangeOf(step.op, t), step.session, written)
    ensures RedoAll(Images(t), written) == Images(Apply(step.op, t))
    ensures UndoAll(Images(Apply(step.op, t)), written) == Images(t)
  {
    if written == [] {
      SilentUpdate(t, step.op.key, step.op.row, step.session, step.promote, columns);
    } else {
      var e := written[0];
      assert written == [e];
      match step.op {
        case Change(key, row) => UpdateReplays(t, key, row, step.session, step.promote, e, columns);
        case Add(kind, row) => AddReplays(t, kind, row, step.session, step.promote, e, columns);
        case Remove(key) => RemoveReplays(t, key, step.session, step.promote, e, columns);
      }
      OneEntry(Images(t), e);
      OneEntry(Images(Apply(step.op, t)), e);
    }
  }

  lemma OneEntry(t: Table, e: Entry)
    ensures RedoAll(t, [e]) == Redo(t, e) && UndoAll(t, [e]) == Undo(t, e)
  {
    assert [e][1..] == [];
  }

  lemma {:induction false} RedoAllConcat(t: Table, a: seq<Entry>, b: seq<Entry>)
    ensures RedoAll(t, a + b) == RedoAll(RedoAll(t, a), b)
    decreases |a|
  {
    if a == [] {
      assert a + b == b;
    } else {
      assert (a + b)[1..] == a[1..] + b;
      RedoAllConcat(Redo(t, a[0]), a[1..], b);
    }
  }

  lemma {:induction false} UndoAllConcat(t: Table, a: seq<Entry>, b: seq<Entry>)
    ensures UndoAll(t, a + b) == UndoAll(UndoAll(t, b), a)
  {
    if a == [] {
      assert a + b == b;
    } else {
      assert (a + b)[1..] == a[1..] + b;
      UndoAllConcat(t, a[1..], b);
    }
  }

  /** Main result. Over every history, from any tables, the log rebuilds the end from the start and the start from the end. */
  lemma {:induction false} LogReplaysHistory(t: Table, steps: seq<Step>, log: seq<seq<Entry>>, columns: map<string, set<string>>)
    requires Keyed(t, columns) && History(t, steps, log, columns)
    ensures RedoAll(Images(t), Flatten(log)) == Images(After(t, steps))
    ensures UndoAll(Images(After(t, steps)), Flatten(log)) == Images(t)
    decreases |steps|
  {
    if steps != [] {
      var t' := Apply(steps[0].op, t);
      KeyedAfter(t, steps[0].op, columns);
      StepReplays(t, steps[0], log[0], columns);
      LogReplaysHistory(t', steps[1..], log[1..], columns);
      RedoAllConcat(Images(t), log[0], Flatten(log[1..]));
      UndoAllConcat(Images(After(t, steps)), log[0], Flatten(log[1..]));
    }
  }

  lemma {:induction false} HistorySplits(t: Table, steps: seq<Step>, log: seq<seq<Entry>>, columns: map<string, set<string>>, k: nat)
    requires Keyed(t, columns) && History(t, steps, log, columns) && k <= |steps|
    ensures History(After(t, steps[..k]), steps[k..], log[k..], columns) && Keyed(After(t, steps[..k]), columns)
    ensures After(After(t, steps[..k]), steps[k..]) == After(t, steps)
    decreases k
  {
    if k == 0 {
      assert steps[0..] == steps && log[0..] == log;
    } else {
      KeyedAfter(t, steps[0].op, columns);
      HistorySplits(Apply(steps[0].op, t), steps[1..], log[1..], columns, k - 1);
      assert steps[..k][1..] == steps[1..][..k - 1];
      assert steps[1..][k - 1..] == steps[k..] && log[1..][k - 1..] == log[k..];
    }
  }

  /** From the current tables and the log alone, every earlier state can be recovered. */
  lemma EveryEarlierState(t: Table, steps: seq<Step>, log: seq<seq<Entry>>, columns: map<string, set<string>>, k: nat)
    requires Keyed(t, columns) && History(t, steps, log, columns) && k <= |steps|
    ensures UndoAll(Images(After(t, steps)), Flatten(log[k..])) == Images(After(t, steps[..k]))
  {
    HistorySplits(t, steps, log, columns, k);
    LogReplaysHistory(After(t, steps[..k]), steps[k..], log[k..], columns);
  }
}
