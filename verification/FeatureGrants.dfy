/**
 Feature permissions: the four-gate decision of `check_permission`, and migration 0087, which copies the
 grants of the infrastructure keys to the network keys.
 */
module FeatureGrants {
  import opened Optional

  /** The unique key of both tables; the holder is a department in one and a role in the other. */
  datatype Key = Key(tenant: string, holder: string, feature: string)

  /** department_feature_grants (minimum role level) and role_feature_overrides (is_granted). */
  datatype Tables = Tables(grants: map<Key, int>, overrides: map<Key, bool>)

  /** `level` is None for a user without a role, `department` for one without a staff profile or department. */
  datatype Caller = Caller(level: Maybe<int>, role: string, department: Maybe<string>)

  datatype Decision = Allowed | NoTenantContext | Denied

  function RoleLevel(c: Caller): int
  {
    if c.level.Some? then c.level.value else 1
  }

  /** Admins pass; then the department's grant, if the level reaches it; then an override that grants. */
  function CheckPermission(t: Tables, c: Caller, tenant: Maybe<string>, feature: string): Decision
  {
    if RoleLevel(c) >= 5 then Allowed
    else if tenant.None? then NoTenantContext
    else if c.department.Some? && GrantReached(t.grants, Key(tenant.value, c.department.value, feature), RoleLevel(c)) then Allowed
    else if Key(tenant.value, c.role, feature) in t.overrides && t.overrides[Key(tenant.value, c.role, feature)] then Allowed
    else Denied
  }

  predicate GrantReached(grants: map<Key, int>, key: Key, level: int)
  {
    key in grants && level >= grants[key]
  }

  /** Who is allowed: administrators, and within a tenant whoever a grant or an override lets in; no role counts as level 1. */
  lemma AllowedExactly(t: Tables, c: Caller, tenant: Maybe<string>, feature: string)
    ensures var level := if c.level.None? then 1 else c.level.value;
      && (CheckPermission(t, c, tenant, feature).Allowed? <==>
          || level >= 5
          || (exists k | k in t.grants :: tenant == Some(k.tenant) && c.department == Some(k.holder) && k.feature == feature
                                          && t.grants[k] <= level)
          || (exists k | k in t.overrides :: tenant == Some(k.tenant) && k.holder == c.role && k.feature == feature
                                             && t.overrides[k]))
      && (CheckPermission(t, c, tenant, feature).NoTenantContext? <==> level < 5 && tenant.None?)
  {
  }

  /** A caller allowed stays allowed at a higher level, and with more or lower grants and more granting overrides. */
  lemma AccessOnlyGrows(t: Tables, more: Tables, c: Caller, d: Caller, tenant: Maybe<string>, feature: string)
    requires c.role == d.role && c.department == d.department && RoleLevel(c) <= RoleLevel(d)
    requires forall k | k in t.grants :: k in more.grants && more.grants[k] <= t.grants[k]
    requires forall k | k in t.overrides && t.overrides[k] :: k in more.overrides && more.overrides[k]
    requires CheckPermission(t, c, tenant, feature).Allowed?
    ensures CheckPermission(more, d, tenant, feature).Allowed?
  {
  }

  // ---- The migration ----------------------------------------------------------------------

  const OLD_VIEW := "infrastructure.view"
  const OLD_EDIT := "infrastructure.edit"
  const NEW_VIEW := "network.view"
  const NEW_EDIT := "network.edit"

  /** INSERT ... SELECT with the other feature key, ON CONFLICT DO NOTHING: rows already there win. */
  function Copy<V>(rows: map<Key, V>, from: string, to: string): map<Key, V>
  {
    (map k | k in rows && k.feature == from :: k.(feature := to) := rows[k]) + rows
  }

  /** DELETE ... WHERE feature_key = feature. */
  function Drop<V>(rows: map<Key, V>, feature: string): map<Key, V>
  {
    map k | k in rows && k.feature != feature :: rows[k]
  }

  function UpgradedRows<V>(rows: map<Key, V>): map<Key, V>
  {
    Copy(Copy(rows, OLD_VIEW, NEW_VIEW), OLD_EDIT, NEW_EDIT)
  }

  function DowngradedRows<V>(rows: map<Key, V>): map<Key, V>
  {
    Drop(Drop(rows, NEW_VIEW), NEW_EDIT)
  }

  function Upgraded(t: Tables): Tables
  {
    Tables(UpgradedRows(t.grants), UpgradedRows(t.overrides))
  }

  function Downgraded(t: Tables): Tables
  {
    Tables(DowngradedRows(t.grants), DowngradedRows(t.overrides))
  }

  class PermissionTables {
    var grants: map<Key, int>
    var overrides: map<Key, bool>

    ghost function Now(): Tables
      reads this
    {
      Tables(grants, overrides)
    }

    method Upgrade()
      modifies this
      ensures Now() == Upgraded(old(Now()))
    {
      var pairs := [(OLD_VIEW, NEW_VIEW), (OLD_EDIT, NEW_EDIT)];
      var i := 0;
      while i < |pairs|
        invariant 0 <= i <= |pairs|
        invariant i == 0 ==> Now() == old(Now())
        invariant i == 1 ==> grants == Copy(old(grants), OLD_VIEW, NEW_VIEW) && overrides == Copy(old(overrides), OLD_VIEW, NEW_VIEW)
        invariant i == 2 ==> Now() == Upgraded(old(Now()))
      {
        var (from, to) := pairs[i];
        grants := Copy(grants, from, to);
        overrides := Copy(overrides, from, to);
        i := i + 1;
      }
    }

    method Downgrade()
      modifies this
      ensures Now() == Downgraded(old(Now()))
    {
      var keys := [NEW_VIEW, NEW_EDIT];
      var i := 0;
      while i < |keys|
        invariant 0 <= i <= |keys|
        invariant i == 0 ==> Now() == old(Now())
        invariant i == 1 ==> grants == Drop(old(grants), NEW_VIEW) && overrides == Drop(old(overrides), NEW_VIEW)
        invariant i == 2 ==> Now() == Downgraded(old(Now()))
      {
        grants := Drop(grants, keys[i]);
        overrides := Drop(overrides, keys[i]);
        i := i + 1;
      }
    }
  }

  // ---- Access is preserved ----------------------------------------------------------------

  /** No row of the table mentions the feature. */
  predicate Unused<V>(rows: map<Key, V>, feature: string)
  {
    forall k | k in rows :: k.feature != feature
  }

  /** Neither table has a row for a network key. */
  predicate NetworkUnused(t: Tables)
  {
    && Unused(t.grants, NEW_VIEW) && Unused(t.grants, NEW_EDIT)
    && Unused(t.overrides, NEW_VIEW) && Unused(t.overrides, NEW_EDIT)
  }

  lemma KeysDistinct()
    ensures NEW_VIEW != NEW_EDIT && NEW_VIEW != OLD_VIEW && NEW_VIEW != OLD_EDIT && NEW_EDIT != OLD_VIEW && NEW_EDIT != OLD_EDIT
  {
  }

  /** What one copy leaves under a key: the row that was there, else, for the new feature, the old feature's row. */
  lemma CopyAt<V>(rows: map<Key, V>, from: string, to: string, k: Key)
    requires from != to
    ensures k in Copy(rows, from, to) <==> k in rows || (k.feature == to && k.(feature := from) in rows)
    ensures k in Copy(rows, from, to) ==>
      Copy(rows, from, to)[k] == if k in rows then rows[k] else rows[k.(feature := from)]
  {
  }

  /** The infrastructure key a network key is copied from. */
  function CopiedFrom(feature: string): Maybe<string>
  {
    if feature == "network.view" then Some("infrastructure.view")
    else if feature == "network.edit" then Some("infrastructure.edit")
    else None
  }

  /** The rows of either table after the upgrade: those that were there, and for a network key without one its copy. */
  lemma UpgradedRowsExact<V>(rows: map<Key, V>, k: Key)
    ensures var from := CopiedFrom(k.feature);
      && (k in UpgradedRows(rows) <==> k in rows || (from.Some? && k.(feature := from.value) in rows))
      && (k in UpgradedRows(rows) ==> UpgradedRows(rows)[k] == if k in rows then rows[k] else rows[k.(feature := from.value)])
  {
    KeysDistinct();
    var once := Copy(rows, OLD_VIEW, NEW_VIEW);
    CopyAt(rows, OLD_VIEW, NEW_VIEW, k);
    CopyAt(once, OLD_EDIT, NEW_EDIT, k);
    CopyAt(rows, OLD_VIEW, NEW_VIEW, k.(feature := OLD_EDIT));
  }

  /** The rows after the downgrade: those of every other key. */
  lemma DowngradedRowsExact<V>(rows: map<Key, V>, k: Key)
    ensures k in DowngradedRows(rows) <==> k in rows && k.feature != "network.view" && k.feature != "network.edit"
    ensures k in DowngradedRows(rows) ==> DowngradedRows(rows)[k] == rows[k]
  {
  }

  /** One pair copied into an unused key: that key decides like the old one, every other key as before. */
  lemma CopyDecides(t: Tables, from: string, to: string, c: Caller, tenant: Maybe<string>, feature: string)
    requires from != to && Unused(t.grants, to) && Unused(t.overrides, to)
    ensures CheckPermission(Tables(Copy(t.grants, from, to), Copy(t.overrides, from, to)), c, tenant, feature)
         == CheckPermission(t, c, tenant, if feature == to then from else feature)
  {
    if tenant.Some? {
      if c.department.Some? {
        CopyAt(t.grants, from, to, Key(tenant.value, c.department.value, feature));
      }
      CopyAt(t.overrides, from, to, Key(tenant.value, c.role, feature));
    }
  }

  /**
   Main result. If the network keys had no rows, then after the upgrade every caller is allowed them exactly when
   allowed the infrastructure keys, and every other key is decided as before.
   */
  lemma UpgradePreservesAccess(t: Tables, c: Caller, tenant: Maybe<string>, feature: string)
    requires NetworkUnused(t)
    ensures CheckPermission(Upgraded(t), c, tenant, feature) ==
      CheckPermission(t, c, tenant, if feature == NEW_VIEW then OLD_VIEW else if feature == NEW_EDIT then OLD_EDIT else feature)
  {
    KeysDistinct();
    var once := Tables(Copy(t.grants, OLD_VIEW, NEW_VIEW), Copy(t.overrides, OLD_VIEW, NEW_VIEW));
    CopyDecides(once, OLD_EDIT, NEW_EDIT, c, tenant, feature);
    CopyDecides(t, OLD_VIEW, NEW_VIEW, c, tenant, if feature == NEW_EDIT then OLD_EDIT else feature);
  }

  // ---- The downgrade ----------------------------------------------------------------------

  lemma DropCopied<V>(rows: map<Key, V>, from: string, to: string)
    requires from != to
    ensures Drop(Copy(rows, from, to), to) == Drop(rows, to)
  {
  }

  lemma DropPastCopy<V>(rows: map<Key, V>, from: string, to: string, feature: string)
    requires from != to && feature != to && feature != from
    ensures Drop(Copy(rows, from, to), feature) == Copy(Drop(rows, feature), from, to)
  {
    var a, b := Drop(Copy(rows, from, to), feature), Copy(Drop(rows, feature), from, to);
    forall k: Key ensures k in a <==> k in b ensures k in a ==> a[k] == b[k] {
      CopyAt(rows, from, to, k);
      CopyAt(Drop(rows, feature), from, to, k);
    }
    assert a.Keys == b.Keys;
  }

  /** Downgrading removes the network keys' rows, copied or not, and nothing else. */
  lemma DowngradeAfterUpgrade<V>(rows: map<Key, V>)
    ensures DowngradedRows(UpgradedRows(rows)) == DowngradedRows(rows)
  {
    KeysDistinct();
    var once := Copy(rows, OLD_VIEW, NEW_VIEW);
    DropPastCopy(once, OLD_EDIT, NEW_EDIT, NEW_VIEW);
    DropCopied(Drop(once, NEW_VIEW), OLD_EDIT, NEW_EDIT);
    DropCopied(rows, OLD_VIEW, NEW_VIEW);
  }

  lemma DowngradeKeepsExactly<V>(rows: map<Key, V>)
    ensures DowngradedRows(rows) == rows <==> Unused(rows, NEW_VIEW) && Unused(rows, NEW_EDIT)
  {
  }

  /** The round trip restores both tables if and only if the network keys had no rows to begin with. */
  lemma RoundTripExact(t: Tables)
    ensures Downgraded(Upgraded(t)) == t <==> NetworkUnused(t)
  {
    DowngradeAfterUpgrade(t.grants);
    DowngradeAfterUpgrade(t.overrides);
    DowngradeKeepsExactly(t.grants);
    DowngradeKeepsExactly(t.overrides);
  }

  lemma DowngradeAt<V>(rows: map<Key, V>, k: Key)
    requires k.feature != NEW_VIEW && k.feature != NEW_EDIT
    ensures k in DowngradedRows(UpgradedRows(rows)) <==> k in rows
    ensures k in rows ==> DowngradedRows(UpgradedRows(rows))[k] == rows[k]
  {
    DowngradeAfterUpgrade(rows);
  }

  /** Whatever the tables held, every key but the two network keys is decided as before the round trip. */
  lemma RoundTripDecides(t: Tables, c: Caller, tenant: Maybe<string>, feature: string)
    requires feature != NEW_VIEW && feature != NEW_EDIT
    ensures CheckPermission(Downgraded(Upgraded(t)), c, tenant, feature) == CheckPermission(t, c, tenant, feature)
  {
    if tenant.Some? {
      if c.department.Some? {
        DowngradeAt(t.grants, Key(tenant.value, c.department.value, feature));
      }
      DowngradeAt(t.overrides, Key(tenant.value, c.role, feature));
    }
  }
}
