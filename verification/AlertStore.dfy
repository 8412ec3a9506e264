/** The alerting tables and one SQLite connection writing them, with src/engine/alerting.py's
    create_alert, which commits in the middle of its caller's transaction. */
module AlertStore {
  import opened Common

  /** MAC addresses in their fixed-width lower-case text form compare like these numbers. */
  type Mac = nat

  datatype Status = New | Online | Offline

  /** A device_state row. `lastSeenTick` is None for the SQL NULL. */
  datatype Row = Row(status: Status, lastSeenTick: Option<int>)

  /** A device_state_transitions row. Pruning deletes rows: they stay here as history, not `stored`
      any more, and no query sees them. */
  datatype Transition = Transition(mac: Mac, from: Option<Status>, to: Status, at: int, stored: bool)

  datatype FindingType = DefaultCommunity | PublicSecondary | V3Unused | Flapping

  /** The alert_type strings; `Opened(t)` is the type's own name and `Cleared(t)` adds "_resolved". */
  datatype AlertKind = NewDevice | DeviceOnline | DeviceOffline | Opened(finding: FindingType)
    | Cleared(finding: FindingType)

  /** An alerts row, or one that pruning has deleted. */
  datatype Alert = Alert(kind: AlertKind, mac: Mac, isResolution: bool, stored: bool)

  /** `log` and `alerts` are all rows ever inserted, in order; `active` maps a device_findings row to
      whether its resolved_at is NULL. */
  datatype Tables = Tables(
    states: map<Mac, Row>,
    log: seq<Transition>,
    active: map<(Mac, FindingType), bool>,
    alerts: seq<Alert>)

  const TRANSITION_RETENTION_SECONDS := 24 * 3600
  const SEVERITY_LEVELS := {"info", "low", "medium", "high", "critical"}

  // ----- what a committed database satisfies ------------------------------------------

  /** Where the log says a device ended up. */
  function Last(log: seq<Transition>, mac: Mac): Option<Status> {
    if log == [] then None
    else if log[|log| - 1].mac == mac then Some(log[|log| - 1].to)
    else Last(log[..|log| - 1], mac)
  }

  predicate Edge(from: Option<Status>, to: Status) {
    match to
    case New => from == None
    case Online => from == Some(New) || from == Some(Offline)
    case Offline => from == Some(New) || from == Some(Online)
  }

  /** Every entry continues its device's path; a path begins from nothing, to New. */
  predicate Connected(log: seq<Transition>) {
    log == [] ||
    (var e, before := log[|log| - 1], log[..|log| - 1];
     Connected(before) && e.from == Last(before, e.mac) && Edge(e.from, e.to))
  }

  ghost predicate LogMatches(t: Tables) {
    && Connected(t.log)
    && (forall mac :: (if mac in t.states then Some(t.states[mac].status) else None) == Last(t.log, mac))
  }

  function Count(alerts: seq<Alert>, kind: AlertKind, mac: Mac): nat {
    if alerts == [] then 0
    else
      var a := alerts[|alerts| - 1];
      (if a.kind == kind && a.mac == mac then 1 else 0) + Count(alerts[..|alerts| - 1], kind, mac)
  }

  predicate IsActive(t: Tables, mac: Mac, f: FindingType) { (mac, f) in t.active && t.active[(mac, f)] }

  /** Opened minus resolved alerts is 1 for an active finding and 0 for any other. */
  ghost predicate AlertsMatch(t: Tables) {
    forall mac: Mac, f: FindingType | f != Flapping ::
      Count(t.alerts, Opened(f), mac) - Count(t.alerts, Cleared(f), mac) == if IsActive(t, mac, f) then 1 else 0
  }

  ghost predicate Sound(t: Tables) { LogMatches(t) && AlertsMatch(t) }

  lemma LastAppend(log: seq<Transition>, e: Transition, mac: Mac)
    ensures Last(log + [e], mac) == if e.mac == mac then Some(e.to) else Last(log, mac)
  {
    assert (log + [e])[..|log|] == log;
  }

  lemma CountAppend(alerts: seq<Alert>, a: Alert, kind: AlertKind, mac: Mac)
    ensures Count([], kind, mac) == 0
    ensures Count(alerts + [a], kind, mac) == Count(alerts, kind, mac) + if a.kind == kind && a.mac == mac then 1 else 0
  {
    assert (alerts + [a])[..|alerts|] == alerts;
  }

  /** Moving one device along an edge and logging it. */
  lemma MoveKeepsSound(t: Tables, mac: Mac, row: Row, at: int)
    requires Sound(t)
    requires var from := if mac in t.states then Some(t.states[mac].status) else None; Edge(from, row.status)
    ensures var from := if mac in t.states then Some(t.states[mac].status) else None;
            Sound(t.(states := t.states[mac := row], log := t.log + [Transition(mac, from, row.status, at, true)]))
  {
    var from := if mac in t.states then Some(t.states[mac].status) else None;
    var e := Transition(mac, from, row.status, at, true);
    var u := t.(states := t.states[mac := row], log := t.log + [e]);
    assert (t.log + [e])[..|t.log|] == t.log;
    forall m ensures (if m in u.states then Some(u.states[m].status) else None) == Last(u.log, m) {
      LastAppend(t.log, e, m);
    }
    assert AlertsMatch(u) by { SameFindings(t, u); }
  }

  lemma SameFindings(t: Tables, u: Tables)
    requires AlertsMatch(t) && u.active == t.active && u.alerts == t.alerts
    ensures AlertsMatch(u)
  {
    forall mac: Mac, f: FindingType | f != Flapping
      ensures Count(u.alerts, Opened(f), mac) - Count(u.alerts, Cleared(f), mac) == if IsActive(u, mac, f) then 1 else 0
    {
      assert IsActive(u, mac, f) == IsActive(t, mac, f);
    }
  }

  /** An alert that neither opens nor resolves a finding. */
  lemma PlainAlertKeepsSound(t: Tables, a: Alert)
    requires Sound(t) && !a.kind.Opened? && !a.kind.Cleared?
    ensures Sound(t.(alerts := t.alerts + [a]))
  {
    var u := t.(alerts := t.alerts + [a]);
    forall mac: Mac, f: FindingType | f != Flapping
      ensures Count(u.alerts, Opened(f), mac) - Count(u.alerts, Cleared(f), mac) == if IsActive(u, mac, f) then 1 else 0
    {
      CountAppend(t.alerts, a, Opened(f), mac);
      CountAppend(t.alerts, a, Cleared(f), mac);
      assert IsActive(u, mac, f) == IsActive(t, mac, f);
    }
  }

  // ----- offline episodes -------------------------------------------------------------

  function Outages(log: seq<Transition>, mac: Mac): nat {
    if log == [] then 0
    else
      var e := log[|log| - 1];
      (if e.mac == mac && e.to == Offline then 1 else 0) + Outages(log[..|log| - 1], mac)
  }

  function Recoveries(log: seq<Transition>, mac: Mac): nat {
    if log == [] then 0
    else
      var e := log[|log| - 1];
      (if e.mac == mac && e.from == Some(Offline) && e.to == Online then 1 else 0) + Recoveries(log[..|log| - 1], mac)
  }

  /** Outages outnumber recoveries by one exactly while the device is offline. */
  lemma {:induction false} OutagesBalance(log: seq<Transition>, mac: Mac)
    requires Connected(log)
    ensures Outages(log, mac) - Recoveries(log, mac) == if Last(log, mac) == Some(Offline) then 1 else 0
  {
    if log != [] {
      OutagesBalance(log[..|log| - 1], mac);
    }
  }

  // ----- prune_alerting_history -------------------------------------------------------

  function PruneLog(log: seq<Transition>, cutoff: int): seq<Transition> {
    seq(|log|, i requires 0 <= i < |log| => log[i].(stored := log[i].stored && log[i].at >= cutoff))
  }

  function PruneAlerts(alerts: seq<Alert>, expired: set<nat>): seq<Alert> {
    seq(|alerts|, i requires 0 <= i < |alerts| => alerts[i].(stored := alerts[i].stored && i !in expired))
  }

  /** Unresolved findings are never deleted. */
  function PruneFindings(active: map<(Mac, FindingType), bool>, expired: set<(Mac, FindingType)>)
    : map<(Mac, FindingType), bool>
  {
    map key | key in active && (active[key] || key !in expired) :: active[key]
  }

  /** The three DELETEs. Which alerts and which resolved findings are more than a year old are inputs. */
  function Pruned(t: Tables, now: int, oldAlerts: set<nat>, oldFindings: set<(Mac, FindingType)>): Tables {
    t.(log := PruneLog(t.log, now - TRANSITION_RETENTION_SECONDS), alerts := PruneAlerts(t.alerts, oldAlerts),
       active := PruneFindings(t.active, oldFindings))
  }

  lemma PruneLogStep(log: seq<Transition>, cutoff: int)
    requires log != []
    ensures PruneLog(log, cutoff)[..|log| - 1] == PruneLog(log[..|log| - 1], cutoff)
  {
  }

  lemma {:induction false} PruneKeepsPaths(log: seq<Transition>, cutoff: int)
    ensures Connected(PruneLog(log, cutoff)) <==> Connected(log)
    ensures forall mac :: Last(PruneLog(log, cutoff), mac) == Last(log, mac)
  {
    if log != [] {
      PruneLogStep(log, cutoff);
      PruneKeepsPaths(log[..|log| - 1], cutoff);
    }
  }

  lemma {:induction false} PruneKeepsCounts(alerts: seq<Alert>, expired: set<nat>, kind: AlertKind, mac: Mac)
    ensures Count(PruneAlerts(alerts, expired), kind, mac) == Count(alerts, kind, mac)
  {
    if alerts != [] {
      var n := |alerts| - 1;
      assert PruneAlerts(alerts, expired)[..n] == PruneAlerts(alerts[..n], expired);
      PruneKeepsCounts(alerts[..n], expired, kind, mac);
    }
  }

  /** Whatever has been pruned and whatever is pruned now, every log with its history stays a connected
      path that ends in the stored status, and the alerts stay accounted for. */
  lemma PruneKeepsSound(t: Tables, now: int, oldAlerts: set<nat>, oldFindings: set<(Mac, FindingType)>)
    requires Sound(t)
    ensures Sound(Pruned(t, now, oldAlerts, oldFindings))
  {
    var u := Pruned(t, now, oldAlerts, oldFindings);
    PruneKeepsPaths(t.log, now - TRANSITION_RETENTION_SECONDS);
    forall mac: Mac, f: FindingType | f != Flapping
      ensures Count(u.alerts, Opened(f), mac) - Count(u.alerts, Cleared(f), mac) == if IsActive(u, mac, f) then 1 else 0
    {
      PruneKeepsCounts(t.alerts, oldAlerts, Opened(f), mac);
      PruneKeepsCounts(t.alerts, oldAlerts, Cleared(f), mac);
      assert IsActive(u, mac, f) == IsActive(t, mac, f);
    }
  }

  /** SELECT COUNT(*) ... WHERE to_status = 'offline' AND transitioned_at >= since: stored rows only. */
  function RecentOutages(log: seq<Transition>, mac: Mac, since: int): nat {
    if log == [] then 0
    else
      var e := log[|log| - 1];
      (if e.stored && e.mac == mac && e.to == Offline && e.at >= since then 1 else 0)
      + RecentOutages(log[..|log| - 1], mac, since)
  }

  /** How often the device went offline since then, whether the rows are still stored or not. */
  function OutagesSince(log: seq<Transition>, mac: Mac, since: int): nat {
    if log == [] then 0
    else
      var e := log[|log| - 1];
      (if e.mac == mac && e.to == Offline && e.at >= since then 1 else 0) + OutagesSince(log[..|log| - 1], mac, since)
  }

  /** The positions of the rows the query counts. */
  function Counted(log: seq<Transition>, mac: Mac, since: int): set<nat> {
    set i: nat | i < |log| && log[i].stored && log[i].mac == mac && log[i].to == Offline && log[i].at >= since
  }

  lemma {:induction false} QueryCounts(log: seq<Transition>, mac: Mac, since: int)
    ensures RecentOutages(log, mac, since) == |Counted(log, mac, since)|
  {
    if log != [] {
      var n := |log| - 1;
      QueryCounts(log[..n], mac, since);
      var before, e := Counted(log[..n], mac, since), log[n];
      if e.stored && e.mac == mac && e.to == Offline && e.at >= since {
        assert Counted(log, mac, since) == before + {n};
      } else {
        assert Counted(log, mac, since) == before;
      }
    }
  }

  /** Pruning makes a query see exactly what it would see had it asked since the cutoff. */
  lemma {:induction false} PrunedQuery(log: seq<Transition>, cutoff: int, mac: Mac, since: int)
    ensures RecentOutages(PruneLog(log, cutoff), mac, since)
            == RecentOutages(log, mac, if since < cutoff then cutoff else since)
  {
    if log != [] {
      PruneLogStep(log, cutoff);
      PrunedQuery(log[..|log| - 1], cutoff, mac, since);
    }
  }

  /** An outage of the device since then whose row is deleted. */
  predicate Hidden(e: Transition, mac: Mac, since: int) {
    !e.stored && e.mac == mac && e.to == Offline && e.at >= since
  }

  /** The query counts every outage exactly when none of them is deleted. */
  lemma {:induction false} QueryIsExactIff(log: seq<Transition>, mac: Mac, since: int)
    ensures RecentOutages(log, mac, since) <= OutagesSince(log, mac, since)
    ensures RecentOutages(log, mac, since) == OutagesSince(log, mac, since) <==>
      forall i :: 0 <= i < |log| ==> !Hidden(log[i], mac, since)
  {
    if log != [] {
      var n := |log| - 1;
      QueryIsExactIff(log[..n], mac, since);
      assert forall i :: 0 <= i < n ==> log[..n][i] == log[i];
    }
  }

  /** What happens to the log: an entry is added, or it is pruned at some time. */
  datatype LogEvent = Logs(mac: Mac, from: Option<Status>, to: Status, at: int) | Prunes(now: int)

  function LogAfter(events: seq<LogEvent>): seq<Transition> {
    if events == [] then []
    else
      var before := LogAfter(events[..|events| - 1]);
      match events[|events| - 1]
      case Logs(mac, from, to, at) => before + [Transition(mac, from, to, at, true)]
      case Prunes(now) => PruneLog(before, now - TRANSITION_RETENTION_SECONDS)
  }

  /** Over every history of entries and prunings, however the clock moved: no deleted entry is as
      young as `since` if every pruning came less than a day after it. */
  lemma {:induction false} NoneHidden(events: seq<LogEvent>, since: int)
    requires forall k :: 0 <= k < |events| && events[k].Prunes? ==>
      events[k].now - TRANSITION_RETENTION_SECONDS <= since
    ensures forall i :: 0 <= i < |LogAfter(events)| && !LogAfter(events)[i].stored ==> LogAfter(events)[i].at < since
  {
    if events != [] {
      var before := events[..|events| - 1];
      assert forall k :: 0 <= k < |before| ==> before[k] == events[k];
      NoneHidden(before, since);
    }
  }

  /** So the query over such a window counts every outage there was. */
  lemma PruningHidesNoOutage(events: seq<LogEvent>, mac: Mac, since: int)
    requires forall k :: 0 <= k < |events| && events[k].Prunes? ==>
      events[k].now - TRANSITION_RETENTION_SECONDS <= since
    ensures RecentOutages(LogAfter(events), mac, since) == OutagesSince(LogAfter(events), mac, since)
  {
    NoneHidden(events, since);
    QueryIsExactIff(LogAfter(events), mac, since);
  }

  // ----- the stored part of a path ----------------------------------------------------

  function Stored(log: seq<Transition>): seq<Transition> {
    if log == [] then []
    else Stored(log[..|log| - 1]) + if log[|log| - 1].stored then [log[|log| - 1]] else []
  }

  predicate InTimeOrder(log: seq<Transition>) { forall i, j :: 0 <= i < j < |log| ==> log[i].at <= log[j].at }

  predicate StoredIsTail(log: seq<Transition>) {
    forall i, j :: 0 <= i < j < |log| && log[i].stored ==> log[j].stored
  }

  /** With a clock that never runs backwards pruning takes the oldest entries. */
  lemma PruneTakesOldest(log: seq<Transition>, cutoff: int)
    requires InTimeOrder(log) && StoredIsTail(log)
    ensures InTimeOrder(PruneLog(log, cutoff)) && StoredIsTail(PruneLog(log, cutoff))
  {
    var after := PruneLog(log, cutoff);
    forall i, j | 0 <= i < j < |after| && after[i].stored ensures after[j].stored {
      assert log[i].at <= log[j].at;
    }
  }

  lemma {:induction false} StoredEnds(log: seq<Transition>, mac: Mac)
    requires StoredIsTail(log)
    ensures Last(Stored(log), mac).Some? ==> Last(Stored(log), mac) == Last(log, mac)
    ensures log != [] && !log[|log| - 1].stored ==> Stored(log) == []
  {
    if log != [] {
      var n := |log| - 1;
      var before := log[..n];
      StoredEnds(before, mac);
      if log[n].stored {
        LastAppend(Stored(before), log[n], mac);
      } else if before != [] {
        assert !log[n - 1].stored;
      }
    }
  }

  /** Then what is stored of a device's path, if anything, ends where the device is, and every stored
      entry of it continues the stored one before. */
  lemma PruneKeepsTail(t: Tables, mac: Mac, i: nat)
    requires Sound(t) && StoredIsTail(t.log) && i < |t.log|
    ensures Last(Stored(t.log), mac).Some? ==> mac in t.states && Last(Stored(t.log), mac) == Some(t.states[mac].status)
    ensures t.log[i].mac == mac && Last(Stored(t.log[..i]), mac).Some? ==>
      t.log[i].from == Last(Stored(t.log[..i]), mac)
  {
    StoredEnds(t.log, mac);
    StoredEnds(t.log[..i], mac);
    ConnectedAt(t.log, i);
  }

  lemma {:induction false} ConnectedAt(log: seq<Transition>, i: nat)
    requires Connected(log) && i < |log|
    ensures log[i].from == Last(log[..i], log[i].mac)
  {
    var n := |log| - 1;
    if i < n {
      ConnectedAt(log[..n], i);
      assert log[..n][..i] == log[..i];
    }
  }

  // ----- the connection ---------------------------------------------------------------

  /** `work` is what the connection sees, `saved` what is on disk. `statementsLeft` is how many
      more statements succeed before one raises, so a caller meets an exception anywhere. Only a
      sound `work` may be committed, so every commit point is covered. */
  class Connection {
    var work: Tables
    var saved: Tables
    var statementsLeft: nat

    ghost predicate Valid()
      reads this
    {
      Sound(saved)
    }

    method Execute(t: Tables) returns (ok: bool)
      modifies this`work, this`statementsLeft
      ensures work == (if ok then t else old(work))
      ensures ok <==> old(statementsLeft) > 0
      ensures statementsLeft == if ok then old(statementsLeft) - 1 else 0
    {
      ok := statementsLeft > 0;
      if ok {
        work := t;
        statementsLeft := statementsLeft - 1;
      }
    }

    method Commit() returns (ok: bool)
      requires Sound(work)
      modifies this`saved, this`statementsLeft
      ensures saved == (if ok then work else old(saved))
      ensures ok <==> old(statementsLeft) > 0
      ensures statementsLeft == if ok then old(statementsLeft) - 1 else 0
    {
      ok := statementsLeft > 0;
      if ok {
        saved := work;
        statementsLeft := statementsLeft - 1;
      }
    }

    method Rollback()
      modifies this`work
      ensures work == saved
    {
      work := saved;
    }

    /** prune_alerting_history: an exception is logged and swallowed. */
    method PruneAlertingHistory(now: int, oldAlerts: set<nat>, oldFindings: set<(Mac, FindingType)>)
      returns (ok: bool)
      requires Valid() && work == saved
      modifies this
      ensures Valid() && work == saved
      ensures !ok ==> statementsLeft == 0
      ensures saved == if ok then Pruned(old(saved), now, oldAlerts, oldFindings) else old(saved)
      ensures saved.states == old(saved).states && |saved.log| == |old(saved).log|
      ensures ok ==> forall i :: 0 <= i < |saved.log| ==> saved.log[i] == old(saved).log[i].(stored :=
        old(saved).log[i].stored && old(saved).log[i].at >= now - 24 * 3600)
      ensures |saved.alerts| == |old(saved).alerts|
      ensures ok ==> forall i :: 0 <= i < |saved.alerts| ==>
        saved.alerts[i] == old(saved).alerts[i].(stored := old(saved).alerts[i].stored && i !in oldAlerts)
      ensures ok ==> forall key :: key in saved.active <==>
        key in old(saved).active && (old(saved).active[key] || key !in oldFindings)
      ensures forall key :: key in saved.active ==> saved.active[key] == old(saved).active[key]
    {
      var t := work;
      PruneKeepsSound(t, now, oldAlerts, oldFindings);
      ok := Execute(work.(log := PruneLog(work.log, now - TRANSITION_RETENTION_SECONDS)));
      if ok {
        ok := Execute(work.(alerts := PruneAlerts(work.alerts, oldAlerts)));
      }
      if ok {
        ok := Execute(work.(active := PruneFindings(work.active, oldFindings)));
      }
      if ok {
        ok := Commit();
      }
      if !ok {
        Rollback();
      }
    }

    /** create_alert: insert, commit, then flag the unread badge, which can still raise. */
    method CreateAlert(severity: string, a: Alert) returns (ok: bool)
      requires Valid() && Sound(work.(alerts := work.alerts + [a]))
      modifies this
      ensures Valid()
      ensures ok ==> work == old(work).(alerts := old(work).alerts + [a]) && saved == work
      ensures saved == old(saved) || saved == old(work).(alerts := old(work).alerts + [a])
      ensures severity !in SEVERITY_LEVELS ==> !ok && saved == old(saved)
      ensures !ok ==> severity !in SEVERITY_LEVELS || statementsLeft == 0
    {
      if severity !in SEVERITY_LEVELS {
        return false;
      }
      ok := Execute(work.(alerts := work.alerts + [a]));
      if ok {
        ok := Commit();
      }
      if ok {
        ok := Execute(work);
      }
    }
  }
}
