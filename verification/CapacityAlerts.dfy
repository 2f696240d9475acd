/**
 Capacity alerts: a periodic check of monitoring configurations against utilisation, deduplicated over each
 configuration's own interval while users resolve alerts. Times are microseconds; utilisation is already a percentage.
 */
module CapacityAlerts {
  import opened Optional

  datatype Severity = Warning | Critical

  datatype Entity = Node(id: nat) | Site(id: nat) | OtherEntity(id: nat)

  datatype Config = Config(tenant: nat, entity: Entity, warn: int, critical: int, interval: int)

  /** `raisedBy` is not a column: it names, for the statements below, the configuration whose check added the alert. */
  datatype Alert = Alert(
    tenant: nat, node: Maybe<nat>, site: Maybe<nat>, severity: Severity, threshold: int, pct: int,
    createdAt: int, resolved: bool, raisedBy: Config)

  /** Which severity, and which threshold, the utilisation has reached. */
  function Crossed(cfg: Config, pct: int): Maybe<(Severity, int)>
  {
    if pct >= cfg.critical then Some((Critical, cfg.critical))
    else if pct >= cfg.warn then Some((Warning, cfg.warn))
    else None
  }

  /** The entity part of the deduplication query: anything but a node is looked up as a site. */
  predicate NamesEntity(a: Alert, e: Entity)
  {
    if e.Node? then a.node == Some(e.id) else a.site == Some(e.id)
  }

  predicate Recent(a: Alert, cfg: Config, severity: Severity, now: int)
  {
    a.tenant == cfg.tenant && !a.resolved && a.severity == severity && a.createdAt >= now - cfg.interval
    && NamesEntity(a, cfg.entity)
  }

  predicate HasRecent(alerts: seq<Alert>, cfg: Config, severity: Severity, now: int)
  {
    exists i | 0 <= i < |alerts| :: Recent(alerts[i], cfg, severity, now)
  }

  /** A node's alert also names the node's site. */
  function NewAlert(cfg: Config, severity: Severity, threshold: int, pct: int, siteOf: map<nat, nat>, at: int): Alert
  {
    var node := if cfg.entity.Node? then Some(cfg.entity.id) else None;
    var site := match cfg.entity
                case Node(n) => if n in siteOf then Some(siteOf[n]) else None
                case Site(s) => Some(s)
                case OtherEntity(_) => None;
    Alert(cfg.tenant, node, site, severity, threshold, pct, at, false, cfg)
  }

  /** What happens to the alerts: a check (utilisation None when it cannot be computed) and a user resolving one. */
  datatype Event =
    | Check(cfg: Config, pct: Maybe<int>, siteOf: map<nat, nat>, now: int, at: int)
    | Resolve(index: nat)

  function Step(alerts: seq<Alert>, e: Event): seq<Alert>
  {
    match e
    case Check(cfg, pct, siteOf, now, at) =>
      if pct.None? || Crossed(cfg, pct.value).None? then alerts
      else
        var (severity, threshold) := Crossed(cfg, pct.value).value;
        if HasRecent(alerts, cfg, severity, now) then alerts
        else alerts + [NewAlert(cfg, severity, threshold, pct.value, siteOf, at)]
    case Resolve(i) =>
      if i < |alerts| then alerts[i := alerts[i].(resolved := true)] else alerts
  }

  function Run(alerts: seq<Alert>, events: seq<Event>): seq<Alert>
    decreases |events|
  {
    if events == [] then alerts else Step(Run(alerts, events[..|events| - 1]), events[|events| - 1])
  }

  class Monitor {
    var alerts: seq<Alert>

    method CheckConfig(cfg: Config, pct: Maybe<int>, siteOf: map<nat, nat>, now: int, at: int)
      modifies this
      ensures alerts == Step(old(alerts), Check(cfg, pct, siteOf, now, at))
    {
      if pct.None? {
        return;
      }
      var severity, threshold := Warning, 0;
      if pct.value >= cfg.critical {
        severity, threshold := Critical, cfg.critical;
      } else if pct.value >= cfg.warn {
        severity, threshold := Warning, cfg.warn;
      } else {
        return;
      }
      if HasRecent(alerts, cfg, severity, now) {
        return;
      }
      alerts := alerts + [NewAlert(cfg, severity, threshold, pct.value, siteOf, at)];
    }
  }

  // ---- Spacing ----------------------------------------------------------------------------

  /**
   An alert is stamped no earlier than its own check read the clock. It is stamped when it is flushed, which may be after
   the next check has read the clock; nothing is asked of the clocks of different checks.
   */
  predicate StampedAfterReading(e: Event)
  {
    e.Check? ==> e.now <= e.at
  }

  predicate AllStamped(events: seq<Event>)
  {
    forall i | 0 <= i < |events| :: StampedAfterReading(events[i])
  }

  /** The two alerts are far enough apart for the configuration that raised the later one. */
  predicate Apart(earlier: Alert, later: Alert)
  {
    (!earlier.resolved && earlier.tenant == later.tenant && earlier.severity == later.severity
     && NamesEntity(earlier, later.raisedBy.entity))
    ==> later.createdAt - earlier.createdAt > later.raisedBy.interval
  }

  /** Alerts that no check would have raised beside one another. */
  predicate Spaced(alerts: seq<Alert>)
  {
    && (forall i | 0 <= i < |alerts| :: alerts[i].tenant == alerts[i].raisedBy.tenant)
    && (forall i, j | 0 <= i < j < |alerts| :: Apart(alerts[i], alerts[j]))
  }

  lemma StepKeepsSpaced(alerts: seq<Alert>, e: Event)
    requires Spaced(alerts) && StampedAfterReading(e)
    ensures Spaced(Step(alerts, e))
  {
  }

  /** Over every run of checks and resolutions the alerts stay spaced. */
  lemma {:induction false} RunKeepsSpaced(alerts: seq<Alert>, events: seq<Event>)
    requires Spaced(alerts) && AllStamped(events)
    ensures Spaced(Run(alerts, events))
    decreases |events|
  {
    if events != [] {
      RunKeepsSpaced(alerts, events[..|events| - 1]);
      StepKeepsSpaced(Run(alerts, events[..|events| - 1]), events[|events| - 1]);
    }
  }

  /** An alert names the entity of the configuration that raised it, for configurations of nodes and sites. */
  predicate NamesOwn(a: Alert)
  {
    a.raisedBy.entity.OtherEntity? || NamesEntity(a, a.raisedBy.entity)
  }

  lemma {:induction false} RunNamesOwn(events: seq<Event>)
    ensures forall i | 0 <= i < |Run([], events)| :: NamesOwn(Run([], events)[i])
    decreases |events|
  {
    if events != [] {
      RunNamesOwn(events[..|events| - 1]);
    }
  }

  /**
   Main result. In every run, two unresolved alerts of one severity raised by one configuration of a node or a site are
   more than its interval apart.
   */
  lemma OwnAlertsApart(events: seq<Event>, i: nat, j: nat)
    requires AllStamped(events)
    requires i < j < |Run([], events)|
    requires var a, b := Run([], events)[i], Run([], events)[j];
      && a.raisedBy == b.raisedBy && !a.raisedBy.entity.OtherEntity?
      && a.severity == b.severity && !a.resolved
    ensures var a, b := Run([], events)[i], Run([], events)[j]; b.createdAt - a.createdAt > b.raisedBy.interval
  {
    RunKeepsSpaced([], events);
    RunNamesOwn(events);
    assert Apart(Run([], events)[i], Run([], events)[j]);
  }

  // ---- One check --------------------------------------------------------------------------

  /** An unresolved alert of this tenant and severity, no older than the interval, that names the entity. */
  predicate Standing(a: Alert, cfg: Config, severity: Severity, now: int)
  {
    && !a.resolved && a.tenant == cfg.tenant && a.severity == severity && now - a.createdAt <= cfg.interval
    && match cfg.entity
       case Node(n) => a.node == Some(n)
       case Site(s) => a.site == Some(s)
       case OtherEntity(x) => a.site == Some(x)
  }

  /** What an alert says: a node's names the node and, if it has one, the node's site. */
  predicate Tells(a: Alert, cfg: Config, severity: Severity, pct: int, siteOf: map<nat, nat>, at: int)
  {
    && a.tenant == cfg.tenant && a.severity == severity && a.pct == pct && a.createdAt == at && !a.resolved
    && a.threshold == (if severity == Critical then cfg.critical else cfg.warn)
    && match cfg.entity
       case Node(n) => a.node == Some(n) && a.site == if n in siteOf then Some(siteOf[n]) else None
       case Site(s) => a.node == None && a.site == Some(s)
       case OtherEntity(_) => a.node == None && a.site == None
  }

  /**
   What a check does: an alert is added exactly when a threshold is reached and no alert of that severity stands, where
   the critical threshold comes first; it is added last, says what it should, and no other alert changes.
   */
  lemma CheckExact(alerts: seq<Alert>, cfg: Config, pct: int, siteOf: map<nat, nat>, now: int, at: int)
    ensures Step(alerts, Check(cfg, None, siteOf, now, at)) == alerts
    ensures var after := Step(alerts, Check(cfg, Some(pct), siteOf, now, at));
      var severity := if cfg.critical <= pct then Critical else Warning;
      if (pct < cfg.warn && pct < cfg.critical) || (exists i | 0 <= i < |alerts| :: Standing(alerts[i], cfg, severity, now))
      then after == alerts
      else |after| == |alerts| + 1 && after[..|alerts|] == alerts && Tells(after[|alerts|], cfg, severity, pct, siteOf, at)
  {
    var severity := if cfg.critical <= pct then Critical else Warning;
    assert forall i | 0 <= i < |alerts| :: Standing(alerts[i], cfg, severity, now) <==> Recent(alerts[i], cfg, severity, now);
  }

  // ---- Coverage ---------------------------------------------------------------------------

  /** A check that finds a threshold reached leaves a recent unresolved alert naming the entity. */
  lemma CheckCovers(alerts: seq<Alert>, cfg: Config, pct: int, siteOf: map<nat, nat>, now: int, at: int)
    requires Crossed(cfg, pct).Some? && !cfg.entity.OtherEntity? && now <= at && cfg.interval >= 0
    ensures HasRecent(Step(alerts, Check(cfg, Some(pct), siteOf, now, at)), cfg, Crossed(cfg, pct).value.0, now)
  {
    var severity := Crossed(cfg, pct).value.0;
    if !HasRecent(alerts, cfg, severity, now) {
      var after := Step(alerts, Check(cfg, Some(pct), siteOf, now, at));
      assert Recent(after[|alerts|], cfg, severity, now);
    }
  }

  /** Crossing the critical threshold raises a critical alert however many warnings are open. */
  lemma WarningsDoNotSilence(alerts: seq<Alert>, cfg: Config, pct: int, siteOf: map<nat, nat>, now: int, at: int)
    requires pct >= cfg.critical
    requires forall i | 0 <= i < |alerts| && !alerts[i].resolved :: alerts[i].severity == Warning
    ensures var after := Step(alerts, Check(cfg, Some(pct), siteOf, now, at));
      && after[..|after| - 1] == alerts
      && var a := after[|after| - 1];
         a.severity == Critical && a.threshold == cfg.critical && a.pct == pct && a.createdAt == at && !a.resolved
  {
  }

  // ---- Whose alert it is ------------------------------------------------------------------

  /** A recent unresolved alert that a check of the site itself raised. */
  predicate HasOwn(alerts: seq<Alert>, cfg: Config, severity: Severity, now: int)
  {
    exists i | 0 <= i < |alerts| :: Recent(alerts[i], cfg, severity, now) && alerts[i].node.None?
  }

  /** A recent unresolved alert of a node, which names the node's site as well. */
  predicate HasNodes(alerts: seq<Alert>, cfg: Config, severity: Severity, now: int)
  {
    exists i | 0 <= i < |alerts| :: Recent(alerts[i], cfg, severity, now) && alerts[i].node.Some?
  }

  /**
   The promise that a site over its threshold has an alert of its own, and exactly when a check keeps it: if it had one,
   or no recent alert of a node at the same severity names the site.
   */
  lemma OwnAlertExactly(alerts: seq<Alert>, cfg: Config, pct: int, siteOf: map<nat, nat>, now: int, at: int)
    requires cfg.entity.Site? && Crossed(cfg, pct).Some? && now <= at && cfg.interval >= 0
    ensures var severity := Crossed(cfg, pct).value.0;
      HasOwn(Step(alerts, Check(cfg, Some(pct), siteOf, now, at)), cfg, severity, now)
      <==> HasOwn(alerts, cfg, severity, now) || !HasNodes(alerts, cfg, severity, now)
  {
    var severity := Crossed(cfg, pct).value.0;
    if !HasRecent(alerts, cfg, severity, now) {
      var after := Step(alerts, Check(cfg, Some(pct), siteOf, now, at));
      assert Recent(after[|alerts|], cfg, severity, now) && after[|alerts|].node.None?;
    }
  }

  /** Where an alert comes from shows in its columns. */
  predicate Labelled(a: Alert)
  {
    && (a.node.Some? <==> a.raisedBy.entity.Node?)
    && (a.raisedBy.entity.Node? ==> a.node == Some(a.raisedBy.entity.id))
    && (a.raisedBy.entity.Site? ==> a.site == Some(a.raisedBy.entity.id))
    && (a.raisedBy.entity.OtherEntity? ==> a.site.None?)
  }

  lemma {:induction false} RunLabels(events: seq<Event>)
    ensures forall i | 0 <= i < |Run([], events)| :: Labelled(Run([], events)[i])
    decreases |events|
  {
    if events != [] { RunLabels(events[..|events| - 1]); }
  }

  /** A recent unresolved alert raised by a check of exactly this entity. */
  predicate RaisedFor(alerts: seq<Alert>, e: Entity, cfg: Config, severity: Severity, now: int)
  {
    exists i | 0 <= i < |alerts| :: Recent(alerts[i], cfg, severity, now) && alerts[i].raisedBy.entity == e
  }

  /** A recent unresolved alert naming the site that a check of some node raised. */
  predicate RaisedForNode(alerts: seq<Alert>, cfg: Config, severity: Severity, now: int)
  {
    exists i | 0 <= i < |alerts| :: Recent(alerts[i], cfg, severity, now) && alerts[i].raisedBy.entity.Node?
  }

  lemma LabelsTell(alerts: seq<Alert>, cfg: Config, severity: Severity, now: int)
    requires cfg.entity.Site? && forall i | 0 <= i < |alerts| :: Labelled(alerts[i])
    ensures HasOwn(alerts, cfg, severity, now) <==> RaisedFor(alerts, cfg.entity, cfg, severity, now)
    ensures HasNodes(alerts, cfg, severity, now) <==> RaisedForNode(alerts, cfg, severity, now)
  {
    forall i | 0 <= i < |alerts| && Recent(alerts[i], cfg, severity, now)
      ensures alerts[i].node.None? <==> alerts[i].raisedBy.entity == cfg.entity
    {
      assert Labelled(alerts[i]);
    }
  }

  /**
   Main result. After any run, a check of a site over its threshold leaves the site with a recent alert raised by a check
   of the site if and only if there was one already or no recent alert raised by a check of a node names the site.
   */
  lemma OwnAlertExactlyInRuns(events: seq<Event>, cfg: Config, pct: int, siteOf: map<nat, nat>, now: int, at: int)
    requires cfg.entity.Site? && Crossed(cfg, pct).Some? && now <= at && cfg.interval >= 0
    ensures var alerts, severity := Run([], events), Crossed(cfg, pct).value.0;
      RaisedFor(Run([], events + [Check(cfg, Some(pct), siteOf, now, at)]), cfg.entity, cfg, severity, now)
      <==> RaisedFor(alerts, cfg.entity, cfg, severity, now) || !RaisedForNode(alerts, cfg, severity, now)
  {
    var longer := events + [Check(cfg, Some(pct), siteOf, now, at)];
    assert longer[..|events|] == events;
    RunLabels(events);
    RunLabels(longer);
    LabelsTell(Run([], events), cfg, Crossed(cfg, pct).value.0, now);
    LabelsTell(Run([], longer), cfg, Crossed(cfg, pct).value.0, now);
    OwnAlertExactly(Run([], events), cfg, pct, siteOf, now, at);
  }

  /** The smallest case; a site's alert, in turn, never silences a node's. */
  lemma NodeSilencesSite(node: Config, site: Config, siteOf: map<nat, nat>, pct: int, sitePct: int, now: int, at: int)
    requires node.entity.Node? && node.entity.id in siteOf && site.entity == Site(siteOf[node.entity.id])
    requires node.tenant == site.tenant && site.interval >= 0 && now <= at
    requires Crossed(node, pct).Some? && Crossed(site, sitePct).Some?
    requires Crossed(node, pct).value.0 == Crossed(site, sitePct).value.0
    ensures var one := Step([], Check(node, Some(pct), siteOf, now, at));
      |one| == 1 && Step(one, Check(site, Some(sitePct), siteOf, at, at)) == one
    ensures var one := Step([], Check(site, Some(sitePct), siteOf, now, at));
      |one| == 1 && |Step(one, Check(node, Some(pct), siteOf, at, at))| == 2
  {
    var one := Step([], Check(node, Some(pct), siteOf, now, at));
    assert Recent(one[0], site, Crossed(site, sitePct).value.0, at);
  }
}
