/** run_device_state_tracker of src/pollers/device_state_tracker.py: new / online / offline with a
    grace period counted in ticks, over a connection on which any statement may raise. */
module DeviceState {
  import opened Common
  import opened AlertStore

  const OFFLINE_GRACE_TICKS := 3
  const FLAP_WINDOW_SECONDS := 1800
  const FLAP_THRESHOLD := 4
  const INITIAL_POPULATION_TICK_WINDOW := 3

  type States = map<Mac, Row>

  function Get(states: States, mac: Mac): Option<Row> { if mac in states then Some(states[mac]) else None }

  /** COALESCE(last_seen_tick, tick) */
  function SeenTick(row: Row, tick: int): int { if row.lastSeenTick.Some? then row.lastSeenTick.value else tick }

  /** _reset_tick_baseline_if_needed, for one row */
  function Rebaselined(row: Row, tick: int): Row { if tick <= 1 then row.(lastSeenTick := Some(tick)) else row }

  predicate Stale(row: Row, tick: int) { row.status != Offline && tick - SeenTick(row, tick) >= OFFLINE_GRACE_TICKS }

  /** One device through one cycle. */
  function After(row: Option<Row>, tick: int, present: bool): Option<Row> {
    match row
    case None => if present then Some(Row(New, Some(tick))) else None
    case Some(r) =>
      if present then Some(Row(Online, Some(tick)))
      else
        var b := Rebaselined(r, tick);
        if Stale(b, tick) then Some(b.(status := Offline)) else Some(b)
  }

  /** The whole table through one cycle. */
  ghost predicate Tracked(before: States, after: States, tick: int, present: set<Mac>) {
    forall mac :: Get(after, mac) == After(Get(before, mac), tick, mac in present)
  }

  /** The alert one device raises in one cycle. */
  function Raised(row: Option<Row>, tick: int, present: bool, quietNew: bool, quiet: bool): Option<AlertKind> {
    if row.None? then (if present && !quietNew then Some(NewDevice) else None)
    else if present then (if row.value.status == Offline && !quiet then Some(DeviceOnline) else None)
    else if Stale(Rebaselined(row.value, tick), tick) && !quiet then Some(DeviceOffline)
    else None
  }

  /** What one device's turn may do to the tables besides its own row and log entry. */
  ghost predicate TurnTaken(before: Tables, after: Tables, mac: Mac, row: Row, alert: Option<AlertKind>) {
    && after.states == before.states[mac := row]
    && (match alert
        case None => after.alerts == before.alerts
        case Some(k) => exists fine: bool :: after.alerts == before.alerts + [Alert(k, mac, fine, true)])
    && (forall key :: key != (mac, Flapping) && key in before.active ==>
      key in after.active && after.active[key] == before.active[key])
    && (forall key :: key != (mac, Flapping) && key in after.active ==> key in before.active)
  }

  /** The log entry of a device that comes to a status. */
  function Logged(states: States, mac: Mac, to: Status, now: int): seq<Transition> {
    [Transition(mac, if mac in states then Some(states[mac].status) else None, to, now, true)]
  }

  /** The finding rows after a check: at 4 outages in the last 1800 seconds the device has a flapping row,
      a new one unresolved and an existing one as it was. */
  function FlapChecked(t: Tables, mac: Mac, now: int): map<(Mac, FindingType), bool> {
    if RecentOutages(t.log, mac, now - 1800) < 4 || (mac, Flapping) in t.active then t.active
    else t.active[(mac, Flapping) := true]
  }

  /** One present device's turn, table by table: it is new if it had no row and online otherwise, seen at
      this tick; a change of status is logged; a new device and one that was offline are
      announced unless that is suppressed; and one that was offline is checked for flapping. */
  ghost predicate SeenTurn(before: Tables, after: Tables, mac: Mac, tick: int, now: int, quietNew: bool, quiet: bool) {
    var known := mac in before.states;
    var back := known && before.states[mac].status == Offline;
    && after.states == before.states[mac := Row(if known then Online else New, Some(tick))]
    && after.log == before.log +
       (if !known then [Transition(mac, None, New, now, true)]
        else if before.states[mac].status == Online then []
        else [Transition(mac, Some(before.states[mac].status), Online, now, true)])
    && after.alerts == before.alerts +
       (if !known && !quietNew then [Alert(NewDevice, mac, false, true)]
        else if back && !quiet then [Alert(DeviceOnline, mac, true, true)]
        else [])
    && after.active == if back then FlapChecked(after.(active := before.active), mac, now) else before.active
  }

  /** One stale device's turn, table by table. */
  ghost predicate OfflineTurn(before: Tables, after: Tables, mac: Mac, now: int, quiet: bool)
    requires mac in before.states
  {
    && after.states == before.states[mac := Row(Offline, before.states[mac].lastSeenTick)]
    && after.log == before.log + [Transition(mac, Some(before.states[mac].status), Offline, now, true)]
    && after.alerts == before.alerts + (if quiet then [] else [Alert(DeviceOffline, mac, false, true)])
    && after.active == FlapChecked(after.(active := before.active), mac, now)
  }

  class DeviceStateTracker {
    const conn: Connection
    var previousTickStartedAt: Option<int>
    var initialPopulation: Option<bool>

    constructor (conn: Connection)
      ensures this.conn == conn && previousTickStartedAt == None && initialPopulation == None
    {
      this.conn := conn;
      previousTickStartedAt, initialPopulation := None, None;
    }

    /** The UPDATE of a status and its log entry: two statements, no commit between them. */
    method Move(mac: Mac, row: Row, now: int) returns (ok: bool)
      requires conn.Valid() && Sound(conn.work)
      requires Edge(if mac in conn.work.states then Some(conn.work.states[mac].status) else None, row.status)
      modifies conn
      ensures conn.Valid() && conn.saved == old(conn.saved)
      ensures !ok ==> conn.statementsLeft == 0
      ensures ok ==> Sound(conn.work) && TurnTaken(old(conn.work), conn.work, mac, row, None)
      ensures ok ==> conn.work == old(conn.work).(states := old(conn.work).states[mac := row],
        log := old(conn.work).log + Logged(old(conn.work).states, mac, row.status, now))
    {
      var t := conn.work;
      var from := if mac in t.states then Some(t.states[mac].status) else None;
      MoveKeepsSound(t, mac, row, now);
      ok := conn.Execute(t.(states := t.states[mac := row]));
      if ok {
        ok := conn.Execute(conn.work.(log := t.log + [Transition(mac, from, row.status, now, true)]));
      }
    }

    method CheckFlapping(mac: Mac, now: int) returns (ok: bool)
      requires conn.Valid() && Sound(conn.work)
      modifies conn
      ensures conn.Valid() && conn.saved == old(conn.saved)
      ensures !ok ==> conn.statementsLeft == 0
      ensures ok ==> Sound(conn.work)
      ensures ok ==> conn.work == old(conn.work).(active := FlapChecked(old(conn.work), mac, now))
      ensures ok ==> ((mac, Flapping) in conn.work.active <==>
        (mac, Flapping) in old(conn.work).active || RecentOutages(old(conn.work).log, mac, now - 1800) >= 4)
      ensures ok ==> forall key :: key in old(conn.work).active ==>
        key in conn.work.active && conn.work.active[key] == old(conn.work).active[key]
      ensures ok ==> forall key :: key in conn.work.active && key !in old(conn.work).active ==>
        key == (mac, Flapping) && conn.work.active[key]
    {
      var t := conn.work;
      ok := conn.Execute(t);
      if ok && RecentOutages(t.log, mac, now - FLAP_WINDOW_SECONDS) >= FLAP_THRESHOLD {
        // the upsert leaves resolved_at of an existing row alone
        var u := t.(active := t.active[(mac, Flapping) := (mac, Flapping) in t.active ==> t.active[(mac, Flapping)]]);
        assert AlertsMatch(u) by {
          forall m: Mac, f: FindingType | f != Flapping
            ensures Count(u.alerts, Opened(f), m) - Count(u.alerts, Cleared(f), m) == if IsActive(u, m, f) then 1 else 0
          {
            assert IsActive(u, m, f) == IsActive(t, m, f);
          }
        }
        ok := conn.Execute(u);
      }
    }

    /** UPDATE device_state SET last_seen_tick */
    method Touch(mac: Mac, tick: int) returns (ok: bool)
      requires conn.Valid() && Sound(conn.work) && mac in conn.work.states
      modifies conn
      ensures conn.Valid() && conn.saved == old(conn.saved)
      ensures !ok ==> conn.statementsLeft == 0
      ensures ok ==> Sound(conn.work)
      ensures ok ==> conn.work == old(conn.work).(states :=
                old(conn.work).states[mac := old(conn.work).states[mac].(lastSeenTick := Some(tick))])
    {
      var t := conn.work;
      var u := t.(states := t.states[mac := t.states[mac].(lastSeenTick := Some(tick))]);
      SameFindings(t, u);
      ok := conn.Execute(u);
    }

    /** A MAC without a row. */
    method SeeNew(mac: Mac, tick: int, now: int, quietNew: bool, quiet: bool) returns (ok: bool)
      requires conn.Valid() && Sound(conn.work) && mac !in conn.work.states
      modifies conn
      ensures conn.Valid()
      ensures !ok ==> conn.statementsLeft == 0
      ensures ok ==> Sound(conn.work) && SeenTurn(old(conn.work), conn.work, mac, tick, now, quietNew, quiet)
      ensures SavedTurn(old(conn.saved), old(conn.work), conn.saved, mac, Row(New, Some(tick)))
    {
      hide Sound;
      ok := Move(mac, Row(New, Some(tick)), now);
      if ok && !quietNew {
        PlainAlertKeepsSound(conn.work, Alert(NewDevice, mac, false, true));
        ok := conn.CreateAlert("info", Alert(NewDevice, mac, false, true));
      }
    }

    /** A MAC whose row says offline. */
    method SeeBack(mac: Mac, tick: int, now: int, quietNew: bool, quiet: bool) returns (ok: bool)
      requires conn.Valid() && Sound(conn.work)
      requires mac in conn.work.states && conn.work.states[mac].status == Offline
      modifies conn
      ensures conn.Valid()
      ensures !ok ==> conn.statementsLeft == 0
      ensures ok ==> Sound(conn.work) && SeenTurn(old(conn.work), conn.work, mac, tick, now, quietNew, quiet)
      ensures SavedTurn(old(conn.saved), old(conn.work), conn.saved, mac, Row(Online, Some(tick)))
    {
      hide Sound, FlapChecked;
      ghost var before := conn.work;
      ok := Touch(mac, tick);
      if !ok {
        return;
      }
      assert conn.work.states[mac := Row(Online, Some(tick))] == before.states[mac := Row(Online, Some(tick))];
      ok := Move(mac, Row(Online, Some(tick)), now);
      if ok && !quiet {
        PlainAlertKeepsSound(conn.work, Alert(DeviceOnline, mac, true, true));
        ok := conn.CreateAlert("info", Alert(DeviceOnline, mac, true, true));
      }
      if ok {
        SameCheck(conn.work, mac, now);
        ok := CheckFlapping(mac, now);
      }
    }

    /** A MAC whose row says new or online. */
    method SeeAgain(mac: Mac, tick: int, now: int, quietNew: bool, quiet: bool) returns (ok: bool)
      requires conn.Valid() && Sound(conn.work)
      requires mac in conn.work.states && conn.work.states[mac].status != Offline
      modifies conn
      ensures conn.Valid() && conn.saved == old(conn.saved)
      ensures !ok ==> conn.statementsLeft == 0
      ensures ok ==> Sound(conn.work) && SeenTurn(old(conn.work), conn.work, mac, tick, now, quietNew, quiet)
    {
      hide Sound, FlapChecked;
      ghost var before := conn.work;
      ok := Touch(mac, tick);
      assert before.states[mac := Row(before.states[mac].status, Some(tick))][mac := Row(Online, Some(tick))]
        == before.states[mac := Row(Online, Some(tick))];
      if ok && conn.work.states[mac].status == New {
        ok := Move(mac, Row(Online, Some(tick)), now);
      }
    }

    /** One turn of the loop over present MACs. */
    method SeePresent(mac: Mac, tick: int, now: int, quietNew: bool, quiet: bool) returns (ok: bool)
      requires conn.Valid() && Sound(conn.work)
      modifies conn
      ensures conn.Valid()
      ensures !ok ==> conn.statementsLeft == 0
      ensures var row := Get(old(conn.work).states, mac);
              ok ==> Sound(conn.work) && TurnTaken(old(conn.work), conn.work, mac, After(row, tick, true).value,
                                                   Raised(row, tick, true, quietNew, quiet))
      ensures SavedTurn(old(conn.saved), old(conn.work), conn.saved, mac,
        After(Get(old(conn.work).states, mac), tick, true).value)
      ensures ok ==> SeenTurn(old(conn.work), conn.work, mac, tick, now, quietNew, quiet)
    {
      hide Sound, SeenTurn, TurnTaken, SavedTurn;
      ghost var before, saved := conn.work, conn.saved;
      if mac !in conn.work.states {
        ok := SeeNew(mac, tick, now, quietNew, quiet);
      } else if conn.work.states[mac].status == Offline {
        ok := SeeBack(mac, tick, now, quietNew, quiet);
      } else {
        ok := SeeAgain(mac, tick, now, quietNew, quiet);
        NothingSaved(saved, before, mac, Row(Online, Some(tick)));
      }
      if ok {
        SeenTurnTaken(before, conn.work, mac, tick, now, quietNew, quiet);
      }
    }

    /** One turn of the loop over stale MACs. */
    method DeclareOffline(mac: Mac, tick: int, now: int, quiet: bool, severity: string) returns (ok: bool)
      requires conn.Valid() && Sound(conn.work) && mac in conn.work.states && Stale(conn.work.states[mac], tick)
      modifies conn
      ensures conn.Valid()
      ensures !ok ==> conn.statementsLeft == 0 || severity !in SEVERITY_LEVELS
      ensures ok ==> Sound(conn.work)
      ensures ok ==> TurnTaken(old(conn.work), conn.work, mac, old(conn.work).states[mac].(status := Offline),
        if quiet then None else Some(DeviceOffline))
      ensures SavedTurn(old(conn.saved), old(conn.work), conn.saved, mac,
        old(conn.work).states[mac].(status := Offline))
      ensures ok ==> OfflineTurn(old(conn.work), conn.work, mac, now, quiet)
    {
      hide Sound, FlapChecked, TurnTaken;
      ghost var before := conn.work;
      ok := Move(mac, conn.work.states[mac].(status := Offline), now);
      if ok && !quiet {
        PlainAlertKeepsSound(conn.work, Alert(DeviceOffline, mac, false, true));
        ok := conn.CreateAlert(severity, Alert(DeviceOffline, mac, false, true));
      }
      if ok {
        SameCheck(conn.work, mac, now);
        ok := CheckFlapping(mac, now);
      }
      if ok {
        OfflineTurnTaken(before, conn.work, mac, now, quiet);
      }
    }

    /** _reset_tick_baseline_if_needed */
    method ResetTickBaselineIfNeeded(tick: int) returns (ok: bool)
      requires conn.Valid() && Sound(conn.work)
      modifies conn
      ensures conn.Valid() && conn.saved == old(conn.saved)
      ensures !ok ==> conn.statementsLeft == 0
      ensures ok ==> Sound(conn.work) && conn.work == old(conn.work).(states := conn.work.states)
      ensures ok ==> AllRebaselined(old(conn.work).states, conn.work.states, tick)
    {
      ok := true;
      if tick <= 1 {
        var t := conn.work;
        var u := t.(states := map mac | mac in t.states :: Rebaselined(t.states[mac], tick));
        SameFindings(t, u);
        ok := conn.Execute(u);
      }
    }

    /** The loop over every MAC seen this cycle, in whatever order the set yields them. `committed` is
        which of them a commit in the loop has saved, None if there was no commit. */
    method SeeAllPresent(present: set<Mac>, tick: int, now: int, quietNew: bool, quiet: bool)
      returns (ok: bool, ghost committed: Option<set<Mac>>)
      requires conn.Valid() && Sound(conn.work)
      modifies conn
      ensures conn.Valid()
      ensures !ok ==> conn.statementsLeft == 0
      ensures ok ==> Sound(conn.work) && SeenAll(old(conn.work), conn.work, tick, present, quietNew, quiet)
      ensures SavedSeen(old(conn.saved), old(conn.work), conn.saved, tick, present, committed)
    {
      ghost var before, saved0 := conn.work, conn.saved;
      var todo := present;
      ok, committed := true, None;
      while todo != {}
        invariant conn.Valid() && Sound(conn.work) && todo <= present && ok
        invariant SeenAll(before, conn.work, tick, present - todo, quietNew, quiet)
        invariant SavedSeen(saved0, before, conn.saved, tick, present - todo, committed)
        decreases todo
      {
        var mac :| mac in todo;
        ghost var mid, saved := conn.work, conn.saved;
        ok := SeePresent(mac, tick, now, quietNew, quiet);
        committed := SavedSeenOneMore(saved0, before, mid, saved, conn.saved, tick, present - todo, mac, committed,
          quietNew, quiet);
        assert present - (todo - {mac}) == (present - todo) + {mac};
        if !ok {
          return;
        }
        SeenOneMore(before, mid, conn.work, tick, present - todo, mac, quietNew, quiet);
        todo := todo - {mac};
      }
      assert present - todo == present;
    }

    /** The SELECT of stale candidates and the loop over them. */
    method DeclareAllOffline(present: set<Mac>, tick: int, now: int, quiet: bool, severity: Mac -> string)
      returns (ok: bool, ghost committed: Option<set<Mac>>)
      requires conn.Valid() && Sound(conn.work)
      requires forall mac :: mac in present ==>
        mac in conn.work.states && conn.work.states[mac].lastSeenTick == Some(tick)
      modifies conn
      ensures conn.Valid()
      ensures !ok ==> conn.statementsLeft == 0 || exists mac :: severity(mac) !in SEVERITY_LEVELS
      ensures ok ==> Sound(conn.work)
      ensures ok ==> AgedAll(old(conn.work), conn.work, tick, StaleMacs(old(conn.work).states, tick), quiet)
      ensures SavedAged(old(conn.saved), old(conn.work), conn.saved, StaleMacs(old(conn.work).states, tick), committed)
    {
      hide Sound, AgedAll, AgedStates, SavedTurn, TurnTaken;
      ghost var before, saved0 := conn.work, conn.saved;
      var stale := StaleMacs(conn.work.states, tick);
      NoneAged(before, saved0, tick, quiet);
      var todo := stale;
      assert stale - todo == {};
      ok, committed := true, None;
      while todo != {}
        invariant conn.Valid() && Sound(conn.work) && todo <= stale && ok
        invariant AgedAll(before, conn.work, tick, stale - todo, quiet)
        invariant SavedAged(saved0, before, conn.saved, stale - todo, committed)
        decreases todo
      {
        var mac :| mac in todo;
        // devices present this tick are never stale candidates, so the source's guard never fires
        assert mac !in present;
        StillStale(before, conn.work, tick, stale - todo, mac, quiet);
        ghost var mid, saved := conn.work, conn.saved;
        ok := DeclareOffline(mac, tick, now, quiet, severity(mac));
        committed := SavedAgedOneMore(saved0, before, mid, saved, conn.saved, tick, stale - todo, mac, committed,
          quiet);
        assert stale - (todo - {mac}) == (stale - todo) + {mac};
        if !ok {
          return;
        }
        AgedOneMore(before, mid, conn.work, tick, stale - todo, mac, quiet);
        todo := todo - {mac};
      }
      assert stale - todo == stale;
    }

    /** Who is present: every MAC with a location, or with a binding seen since the previous tick began. */
    method PresentNow(tickStartedAt: int, endpoints: set<Mac>, bindings: set<(Mac, int)>) returns (present: set<Mac>)
      modifies this`previousTickStartedAt
      ensures previousTickStartedAt == Some(tickStartedAt)
      ensures forall mac :: mac in present <==>
                || mac in endpoints
                || exists b :: b in bindings && b.0 == mac && b.1 >= old(previousTickStartedAt).GetOr(tickStartedAt)
    {
      var cutoff := previousTickStartedAt.GetOr(tickStartedAt);
      present := endpoints + (set b | b in bindings && b.1 >= cutoff :: b.0);
      previousTickStartedAt := Some(tickStartedAt);
    }

    /** The two loops and the final commit, from the re-baselined tables `conn.work`. */
    method TrackAll(present: set<Mac>, tick: int, now: int, quietNew: bool, quiet: bool, severity: Mac -> string,
        ghost before: Tables)
      returns (ok: bool, ghost done: set<Mac>, ghost based: bool)
      requires conn.Valid() && Sound(conn.work) && conn.saved == before
      requires AllRebaselined(before.states, conn.work.states, tick) && conn.work.alerts == before.alerts
      modifies conn
      ensures conn.Valid() && (ok ==> conn.work == conn.saved)
      ensures !ok ==> conn.statementsLeft == 0 || exists mac :: severity(mac) !in SEVERITY_LEVELS
      ensures ok ==> Tracked(before.states, conn.saved.states, tick, present)
                     && Alerted(before, conn.saved, tick, present, quietNew, quiet)
      ensures !ok ==> PartlyTracked(before.states, conn.saved.states, tick, present, done, based)
    {
      ghost var start := conn.work;
      ghost var first, second;
      ok, first := SeeAllPresent(present, tick, now, quietNew, quiet);
      done, based := first.GetOr({}), first.Some?;
      SeenIsPart(before, start, conn.saved, tick, present, first);
      if !ok {
        return;
      }
      ghost var seen, saved := conn.work, conn.saved;
      PresentAreFresh(start, seen, tick, present, quietNew, quiet);
      ok, second := DeclareAllOffline(present, tick, now, quiet, severity);
      if second.Some? {
        AgedIsPart(before, start, seen, conn.saved, tick, present, second.value, quietNew, quiet);
        done, based := present + second.value, true;
      }
      if ok {
        CycleTracked(before, start, seen, conn.work, tick, present, quietNew, quiet);
        ok := conn.Commit();
      }
    }

    /** `endpoints` and `bindings` are this tick's endpoint_locations and l3_bindings rows, the
        latter as (MAC, last_seen). On success the whole table moved one cycle on and exactly the
        due alerts were raised. On any exception the work since the last commit is undone: the
        devices in `done` moved one cycle on, and the others are at most re-baselined. */
    method RunDeviceStateTracker(tick: int, tickStartedAt: int, now: int, inStartupGrace: bool,
                                 endpoints: set<Mac>, bindings: set<(Mac, int)>, severity: Mac -> string)
      returns (ok: bool, present: set<Mac>, ghost done: set<Mac>, ghost based: bool)
      requires conn.Valid() && conn.work == conn.saved
      modifies this, conn
      ensures conn.Valid() && conn.work == conn.saved
      ensures !ok ==> conn.statementsLeft == 0 || exists mac :: severity(mac) !in SEVERITY_LEVELS
      ensures ok ==> forall mac :: mac in present <==>
                || mac in endpoints
                || exists b :: b in bindings && b.0 == mac && b.1 >= old(previousTickStartedAt).GetOr(tickStartedAt)
      ensures ok ==> Tracked(old(conn.saved).states, conn.saved.states, tick, present)
      ensures ok ==> forall mac :: CycleOn(old(conn.saved).states, conn.saved.states, tick, mac, mac in present)
      ensures ok ==> forall mac :: CycleAlerts(old(conn.saved), conn.saved, tick, mac, mac in present,
        initialPopulation == Some(true) && tick <= 3, inStartupGrace)
      ensures ok ==> Alerted(old(conn.saved), conn.saved, tick, present,
                             initialPopulation == Some(true) && tick <= INITIAL_POPULATION_TICK_WINDOW, inStartupGrace)
      ensures ok ==> initialPopulation == Some(old(initialPopulation).GetOr(old(conn.saved).states == map[]))
                     && previousTickStartedAt == Some(tickStartedAt)
      ensures !ok ==> PartlyTracked(old(conn.saved).states, conn.saved.states, tick, present, done, based)
      ensures !ok ==> forall mac ::
        if mac in done then CycleOn(old(conn.saved).states, conn.saved.states, tick, mac, mac in present)
        else CycleMissed(old(conn.saved).states, conn.saved.states, tick, mac, based)
    {
      hide Sound, Tracked, Alerted, Stale, PartlyTracked, CycleOn, CycleMissed, CycleAlerts;
      ghost var before := conn.work;
      present, done, based := {}, {}, false;
      ok := ResetTickBaselineIfNeeded(tick);
      if !ok {
        NothingTracked(before.states, tick);
        PartlyMeans(before.states, before.states, tick, {}, {}, false);
        conn.Rollback();
        return;
      }
      assert conn.work.states == map[] <==> before.states == map[]
        by { EmptyStaysEmpty(before.states, conn.work.states, tick); }
      initialPopulation := Some(initialPopulation.GetOr(conn.work.states == map[]));
      var quietNew := initialPopulation.value && tick <= INITIAL_POPULATION_TICK_WINDOW;
      present := PresentNow(tickStartedAt, endpoints, bindings);
      ok, done, based := TrackAll(present, tick, now, quietNew, inStartupGrace, severity, before);
      if ok {
        CompleteMeans(before, conn.saved, tick, present, quietNew, inStartupGrace);
      } else {
        PartlyMeans(before.states, conn.saved.states, tick, present, done, based);
        conn.Rollback();
      }
    }
  }

  // ----- what a cycle that raised leaves saved ----------------------------------------

  /** A device's turn may commit it. */
  ghost predicate SavedTurn(saved0: Tables, before: Tables, saved: Tables, mac: Mac, row: Row) {
    saved == saved0 || saved.states == before.states[mac := row]
  }

  ghost predicate SavedSeen(saved0: Tables, before: Tables, saved: Tables, tick: int, turns: set<Mac>,
      committed: Option<set<Mac>>)
  {
    match committed
    case None => saved == saved0
    case Some(done) => done <= turns && SeenStates(before.states, saved.states, tick, done)
  }

  ghost predicate SeenStates(before: States, after: States, tick: int, done: set<Mac>) {
    forall mac :: Get(after, mac) == if mac in done then After(Get(before, mac), tick, true) else Get(before, mac)
  }

  ghost predicate SavedAged(saved0: Tables, before: Tables, saved: Tables, turns: set<Mac>,
      committed: Option<set<Mac>>)
  {
    match committed
    case None => saved == saved0
    case Some(done) => done <= turns && AgedStates(before.states, saved.states, done)
  }

  ghost predicate AgedStates(before: States, after: States, done: set<Mac>) {
    forall mac :: Get(after, mac) ==
      if mac in done && mac in before then Some(before[mac].(status := Offline)) else Get(before, mac)
  }

  lemma SavedSeenOneMore(saved0: Tables, before: Tables, mid: Tables, saved: Tables, saved': Tables, tick: int,
      turns: set<Mac>, mac: Mac, committed: Option<set<Mac>>, quietNew: bool, quiet: bool)
    returns (now: Option<set<Mac>>)
    requires SeenAll(before, mid, tick, turns, quietNew, quiet) && mac !in turns
    requires SavedSeen(saved0, before, saved, tick, turns, committed)
    requires SavedTurn(saved, mid, saved', mac, After(Get(mid.states, mac), tick, true).value)
    ensures SavedSeen(saved0, before, saved', tick, turns + {mac}, now)
  {
    now := if saved' == saved then committed else Some(turns + {mac});
  }

  lemma SavedAgedOneMore(saved0: Tables, before: Tables, mid: Tables, saved: Tables, saved': Tables, tick: int,
      turns: set<Mac>, mac: Mac, committed: Option<set<Mac>>, quiet: bool)
    returns (now: Option<set<Mac>>)
    requires AgedAll(before, mid, tick, turns, quiet) && mac !in turns && mac in before.states && mac in mid.states
    requires SavedAged(saved0, before, saved, turns, committed)
    requires SavedTurn(saved, mid, saved', mac, mid.states[mac].(status := Offline))
    ensures SavedAged(saved0, before, saved', turns + {mac}, now)
  {
    assert Get(mid.states, mac) == Get(before.states, mac);
    now := if saved' == saved then committed else Some(turns + {mac});
  }

  lemma NoneAged(t: Tables, saved: Tables, tick: int, quiet: bool)
    ensures AgedAll(t, t, tick, {}, quiet) && SavedAged(saved, t, saved, {}, None)
  {
  }

  lemma StillStale(before: Tables, mid: Tables, tick: int, done: set<Mac>, mac: Mac, quiet: bool)
    requires AgedAll(before, mid, tick, done, quiet) && mac !in done && mac in before.states
    ensures mac in mid.states && mid.states[mac] == before.states[mac]
  {
    assert Get(mid.states, mac) == Get(before.states, mac);
  }

  /** One device in a cycle that may not have reached it. */
  function Turn(row: Option<Row>, tick: int, present: bool, reached: bool, based: bool): Option<Row> {
    if reached then After(row, tick, present)
    else if based && row.Some? then Some(Rebaselined(row.value, tick))
    else row
  }

  /** The whole table after a cycle that raised: `done` moved one cycle on, and if anything was
      committed the others were re-baselined with it. */
  ghost predicate PartlyTracked(before: States, after: States, tick: int, present: set<Mac>, done: set<Mac>,
      based: bool)
  {
    forall mac :: Get(after, mac) == Turn(Get(before, mac), tick, mac in present, mac in done, based)
  }

  lemma SeenIsPart(before: Tables, start: Tables, saved: Tables, tick: int, present: set<Mac>,
      committed: Option<set<Mac>>)
    requires AllRebaselined(before.states, start.states, tick)
    requires SavedSeen(before, start, saved, tick, present, committed)
    ensures PartlyTracked(before.states, saved.states, tick, present, committed.GetOr({}), committed.Some?)
  {
    var done := committed.GetOr({});
    forall mac
      ensures Get(saved.states, mac) ==
        Turn(Get(before.states, mac), tick, mac in present, mac in done, committed.Some?)
    {
      assert Get(start.states, mac) == if mac in before.states
        then Some(Rebaselined(before.states[mac], tick)) else None;
    }
  }

  lemma AgedIsPart(before: Tables, start: Tables, seen: Tables, saved: Tables, tick: int, present: set<Mac>,
      done: set<Mac>, quietNew: bool, quiet: bool)
    requires AllRebaselined(before.states, start.states, tick) && SeenAll(start, seen, tick, present, quietNew, quiet)
    requires done <= StaleMacs(seen.states, tick) && AgedStates(seen.states, saved.states, done)
    ensures PartlyTracked(before.states, saved.states, tick, present, present + done, true)
  {
    forall mac
      ensures Get(saved.states, mac) == Turn(Get(before.states, mac), tick, mac in present, mac in present + done, true)
    {
      assert Get(start.states, mac) == if mac in before.states
        then Some(Rebaselined(before.states[mac], tick)) else None;
      assert Get(seen.states, mac) == if mac in present
        then After(Get(start.states, mac), tick, true) else Get(start.states, mac);
    }
  }

  lemma EmptyStaysEmpty(before: States, after: States, tick: int)
    requires AllRebaselined(before, after, tick)
    ensures after == map[] <==> before == map[]
  {
    assert forall mac :: Get(after, mac).Some? <==> mac in before;
    if after == map[] {
      assert forall mac :: Get(after, mac) == None;
      assert before.Keys == {};
    }
    if before == map[] {
      assert forall mac :: mac in after ==> Get(after, mac).Some?;
      assert after.Keys == {};
    }
  }

  function StaleMacs(states: States, tick: int): set<Mac> {
    set mac | mac in states && Stale(states[mac], tick)
  }

  ghost predicate AllRebaselined(before: States, after: States, tick: int) {
    forall mac :: Get(after, mac) == if mac in before then Some(Rebaselined(before[mac], tick)) else None
  }

  /** The tables after the MACs in `done` had their turn in the presence loop. */
  ghost predicate SeenAll(before: Tables, after: Tables, tick: int, done: set<Mac>, quietNew: bool, quiet: bool) {
    && (forall mac :: Get(after.states, mac) ==
          if mac in done then After(Get(before.states, mac), tick, true) else Get(before.states, mac))
    && (forall mac, kind :: Count(after.alerts, kind, mac) == Count(before.alerts, kind, mac) +
          if mac in done && Raised(Get(before.states, mac), tick, true, quietNew, quiet) == Some(kind) then 1 else 0)
  }

  /** The tables after the stale MACs in `done` were declared offline. */
  ghost predicate AgedAll(before: Tables, after: Tables, tick: int, done: set<Mac>, quiet: bool) {
    && (forall mac :: Get(after.states, mac) ==
          if mac in done && mac in before.states
            then Some(before.states[mac].(status := Offline)) else Get(before.states, mac))
    && (forall mac, kind :: Count(after.alerts, kind, mac) == Count(before.alerts, kind, mac) +
          if mac in done && !quiet && kind == DeviceOffline then 1 else 0)
  }

  lemma TurnAlerts(before: Tables, after: Tables, mac: Mac, row: Row, alert: Option<AlertKind>, m: Mac, kind: AlertKind)
    requires TurnTaken(before, after, mac, row, alert)
    ensures Count(after.alerts, kind, m) == Count(before.alerts, kind, m) + if alert == Some(kind) && m == mac
      then 1 else 0
  {
    if alert.Some? {
      var fine: bool :| after.alerts == before.alerts + [Alert(alert.value, mac, fine, true)];
      CountAppend(before.alerts, Alert(alert.value, mac, fine, true), kind, m);
    }
  }

  lemma SeenOneMore(before: Tables, mid: Tables, after: Tables, tick: int, done: set<Mac>, mac: Mac, quietNew: bool,
      quiet: bool)
    requires SeenAll(before, mid, tick, done, quietNew, quiet) && mac !in done
    requires TurnTaken(mid, after, mac, After(Get(mid.states, mac), tick, true).value,
      Raised(Get(mid.states, mac), tick, true, quietNew, quiet))
    ensures SeenAll(before, after, tick, done + {mac}, quietNew, quiet)
  {
    var row, alert := After(Get(mid.states, mac), tick, true).value,
      Raised(Get(mid.states, mac), tick, true, quietNew, quiet);
    forall m, kind ensures Count(after.alerts, kind, m) == Count(before.alerts, kind, m) +
          if m in done + {mac} && Raised(Get(before.states, m), tick, true, quietNew, quiet) == Some(kind) then 1 else 0
    {
      TurnAlerts(mid, after, mac, row, alert, m, kind);
    }
  }

  lemma AgedOneMore(before: Tables, mid: Tables, after: Tables, tick: int, done: set<Mac>, mac: Mac, quiet: bool)
    requires AgedAll(before, mid, tick, done, quiet) && mac !in done && mac in before.states && mac in mid.states
    requires TurnTaken(mid, after, mac, mid.states[mac].(status := Offline),
      if quiet then None else Some(DeviceOffline))
    ensures AgedAll(before, after, tick, done + {mac}, quiet)
  {
    assert Get(mid.states, mac) == Get(before.states, mac);
    forall m, kind ensures Count(after.alerts, kind, m) == Count(before.alerts, kind, m) +
          if m in done + {mac} && !quiet && kind == DeviceOffline then 1 else 0
    {
      TurnAlerts(mid, after, mac, mid.states[mac].(status := Offline),
        if quiet then None else Some(DeviceOffline), m, kind);
    }
  }

  lemma PresentAreFresh(based: Tables, seen: Tables, tick: int, present: set<Mac>, quietNew: bool, quiet: bool)
    requires SeenAll(based, seen, tick, present, quietNew, quiet)
    ensures forall mac :: mac in present ==> mac in seen.states && seen.states[mac].lastSeenTick == Some(tick)
  {
    forall mac | mac in present ensures mac in seen.states && seen.states[mac].lastSeenTick == Some(tick) {
      assert Get(seen.states, mac) == After(Get(based.states, mac), tick, true);
    }
  }

  lemma CycleTracked(before: Tables, based: Tables, seen: Tables, after: Tables, tick: int, present: set<Mac>,
      quietNew: bool, quiet: bool)
    requires AllRebaselined(before.states, based.states, tick) && based.alerts == before.alerts
    requires SeenAll(based, seen, tick, present, quietNew, quiet)
    requires AgedAll(seen, after, tick, StaleMacs(seen.states, tick), quiet)
    ensures Tracked(before.states, after.states, tick, present)
    ensures Alerted(before, after, tick, present, quietNew, quiet)
  {
    forall mac ensures Get(after.states, mac) == After(Get(before.states, mac), tick, mac in present) {
      assert Get(based.states, mac) == if mac in before.states
        then Some(Rebaselined(before.states[mac], tick)) else None;
      assert Get(seen.states, mac) == if mac in present
        then After(Get(based.states, mac), tick, true) else Get(based.states, mac);
    }
    forall mac, kind ensures Count(after.alerts, kind, mac) == Count(before.alerts, kind, mac) +
      if Raised(Get(before.states, mac), tick, mac in present, quietNew, quiet) == Some(kind) then 1 else 0
    {
      assert Get(based.states, mac) == if mac in before.states
        then Some(Rebaselined(before.states[mac], tick)) else None;
      assert Get(seen.states, mac) == if mac in present
        then After(Get(based.states, mac), tick, true) else Get(based.states, mac);
      assert Count(seen.alerts, kind, mac) == Count(before.alerts, kind, mac) +
          if mac in present && Raised(Get(based.states, mac), tick, true, quietNew, quiet) == Some(kind) then 1 else 0;
    }
  }

  /** The alerts a whole cycle adds, device by device. */
  ghost predicate Alerted(before: Tables, after: Tables, tick: int, present: set<Mac>, quietNew: bool, quiet: bool) {
    forall mac, kind :: Count(after.alerts, kind, mac) == Count(before.alerts, kind, mac) +
      if Raised(Get(before.states, mac), tick, mac in present, quietNew, quiet) == Some(kind) then 1 else 0
  }

  lemma OfflineTurnTaken(before: Tables, after: Tables, mac: Mac, now: int, quiet: bool)
    requires mac in before.states && OfflineTurn(before, after, mac, now, quiet)
    ensures TurnTaken(before, after, mac, before.states[mac].(status := Offline),
      if quiet then None else Some(DeviceOffline))
  {
  }

  lemma SameCheck(t: Tables, mac: Mac, now: int)
    ensures var u := t.(active := FlapChecked(t, mac, now));
            FlapChecked(u.(active := t.active), mac, now) == FlapChecked(t, mac, now)
  {
    assert t.(active := FlapChecked(t, mac, now)).(active := t.active) == t;
  }

  lemma NothingSaved(saved: Tables, before: Tables, mac: Mac, row: Row)
    ensures SavedTurn(saved, before, saved, mac, row)
  {
  }

  lemma SeenTurnTaken(before: Tables, after: Tables, mac: Mac, tick: int, now: int, quietNew: bool, quiet: bool)
    requires SeenTurn(before, after, mac, tick, now, quietNew, quiet)
    ensures var row := Get(before.states, mac);
            TurnTaken(before, after, mac, After(row, tick, true).value, Raised(row, tick, true, quietNew, quiet))
  {
  }

  // ----- what a cycle does to one device, said outright -------------------------------

  /** A device that is present is new if it had no row and online if it had one, whatever its status was,
      and was seen at this tick. One that is absent keeps its row; on the first two ticks its last
      sighting counts as now, and else it turns offline if that is 3 or more ticks back. */
  ghost predicate CycleOn(before: States, after: States, tick: int, mac: Mac, present: bool) {
    && (present ==> mac in after && after[mac] == Row(if mac in before then Online else New, Some(tick)))
    && (!present ==> (mac in after <==> mac in before))
    && (!present && mac in before ==>
          var seen := if tick <= 1 then Some(tick) else before[mac].lastSeenTick;
          var gone := before[mac].status != Offline && seen.Some? && tick - seen.value >= 3;
          after[mac] == Row(if gone then Offline else before[mac].status, seen))
  }

  /** A device the cycle did not reach keeps its row, but for the reset on the first two ticks. */
  ghost predicate CycleMissed(before: States, after: States, tick: int, mac: Mac, based: bool) {
    && (mac in after <==> mac in before)
    && (mac in before ==>
          after[mac] == Row(before[mac].status, if based && tick <= 1 then Some(tick) else before[mac].lastSeenTick))
  }

  /** The alerts about one device: it is new, it is back, or it is gone, unless that is suppressed. */
  ghost predicate CycleAlerts(before: Tables, after: Tables, tick: int, mac: Mac, present: bool,
                              quietNew: bool, quiet: bool)
  {
    var known := mac in before.states;
    var new_ := present && !known && !quietNew;
    var back := present && known && before.states[mac].status == Offline && !quiet;
    var gone := !present && known && before.states[mac].status != Offline && !quiet && tick > 1
                && before.states[mac].lastSeenTick.Some? && tick - before.states[mac].lastSeenTick.value >= 3;
    && Count(after.alerts, NewDevice, mac) == Count(before.alerts, NewDevice, mac) + (if new_ then 1 else 0)
    && Count(after.alerts, DeviceOnline, mac) == Count(before.alerts, DeviceOnline, mac) + (if back then 1 else 0)
    && Count(after.alerts, DeviceOffline, mac) == Count(before.alerts, DeviceOffline, mac) + (if gone then 1 else 0)
    && forall f :: Count(after.alerts, Opened(f), mac) == Count(before.alerts, Opened(f), mac)
                   && Count(after.alerts, Cleared(f), mac) == Count(before.alerts, Cleared(f), mac)
  }

  lemma TrackedMeans(before: States, after: States, tick: int, present: set<Mac>, mac: Mac)
    requires Tracked(before, after, tick, present)
    ensures CycleOn(before, after, tick, mac, mac in present)
  {
    assert Get(after, mac) == After(Get(before, mac), tick, mac in present);
  }

  lemma PartlyTrackedMeans(before: States, after: States, tick: int, present: set<Mac>, done: set<Mac>, based: bool,
      mac: Mac)
    requires PartlyTracked(before, after, tick, present, done, based)
    ensures mac in done ==> CycleOn(before, after, tick, mac, mac in present)
    ensures mac !in done ==> CycleMissed(before, after, tick, mac, based)
  {
    assert Get(after, mac) == Turn(Get(before, mac), tick, mac in present, mac in done, based);
  }

  lemma NothingTracked(t: States, tick: int)
    ensures PartlyTracked(t, t, tick, {}, {}, false)
  {
  }

  lemma CompleteMeans(before: Tables, after: Tables, tick: int, present: set<Mac>, quietNew: bool, quiet: bool)
    requires Tracked(before.states, after.states, tick, present)
    requires Alerted(before, after, tick, present, quietNew, quiet)
    ensures forall mac :: CycleOn(before.states, after.states, tick, mac, mac in present)
    ensures forall mac :: CycleAlerts(before, after, tick, mac, mac in present, quietNew, quiet)
  {
    hide Tracked, Alerted, CycleOn, CycleAlerts;
    forall mac
      ensures CycleOn(before.states, after.states, tick, mac, mac in present)
      ensures CycleAlerts(before, after, tick, mac, mac in present, quietNew, quiet)
    {
      TrackedMeans(before.states, after.states, tick, present, mac);
      AlertedMeans(before, after, tick, present, quietNew, quiet, mac);
    }
  }

  lemma PartlyMeans(before: States, after: States, tick: int, present: set<Mac>, done: set<Mac>, based: bool)
    requires PartlyTracked(before, after, tick, present, done, based)
    ensures forall mac :: if mac in done then CycleOn(before, after, tick, mac, mac in present)
                          else CycleMissed(before, after, tick, mac, based)
  {
    hide PartlyTracked, CycleOn, CycleMissed;
    forall mac
      ensures if mac in done then CycleOn(before, after, tick, mac, mac in present)
              else CycleMissed(before, after, tick, mac, based)
    {
      PartlyTrackedMeans(before, after, tick, present, done, based, mac);
    }
  }

  lemma AlertedMeans(before: Tables, after: Tables, tick: int, present: set<Mac>, quietNew: bool, quiet: bool, mac: Mac)
    requires Alerted(before, after, tick, present, quietNew, quiet)
    ensures CycleAlerts(before, after, tick, mac, mac in present, quietNew, quiet)
  {
  }

  // ----- whole runs -------------------------------------------------------------------

  /** How a cycle ended: completed, or with an exception after reaching some devices. */
  datatype End = Completed | Broken(done: set<Mac>, based: bool)

  datatype Cycle = Cycle(tick: int, present: set<Mac>, end: End)

  /** The cycle had the device's turn, and its effect is saved. */
  predicate Reached(c: Cycle, mac: Mac) { c.end.Completed? || mac in c.end.done }

  predicate Based(c: Cycle) { c.end.Completed? || c.end.based }

  /** A device's row after a history that began with an empty table. Ticks may be any numbers. */
  function RowOf(h: seq<Cycle>, mac: Mac): Option<Row> {
    if h == [] then None
    else
      var c := h[|h| - 1];
      Turn(RowOf(h[..|h| - 1], mac), c.tick, mac in c.present, Reached(c, mac), Based(c))
  }

  function StateAfter(h: seq<Cycle>): States {
    map mac | mac in Seen(h) :: RowOf(h, mac).GetOr(Row(New, None))
  }

  /** The MACs present in a cycle that reached them. */
  function Seen(h: seq<Cycle>): set<Mac> {
    if h == [] then {}
    else
      var c := h[|h| - 1];
      Seen(h[..|h| - 1]) + if c.end.Completed? then c.present else c.present * c.end.done
  }

  predicate Sighted(c: Cycle, mac: Mac) { Reached(c, mac) && mac in c.present }

  /** The last cycle that saw the device or re-baselined its row. */
  function Mark(h: seq<Cycle>, mac: Mac): Option<nat> {
    if h == [] then None
    else
      var c := h[|h| - 1];
      if Sighted(c, mac) || (c.tick <= 1 && mac in Seen(h) && (Reached(c, mac) || Based(c))) then Some(|h| - 1)
      else Mark(h[..|h| - 1], mac)
  }

  lemma {:induction false} RowIsSeen(h: seq<Cycle>, mac: Mac)
    ensures RowOf(h, mac).Some? <==> mac in Seen(h)
  {
    if h != [] {
      RowIsSeen(h[..|h| - 1], mac);
    }
  }

  /** The cycle method computes this history: one more cycle, completed or not, extends it. */
  lemma TrackedExtends(h: seq<Cycle>, after: States, c: Cycle)
    requires c.end.Completed? ==> Tracked(StateAfter(h), after, c.tick, c.present)
    requires c.end.Broken? ==> PartlyTracked(StateAfter(h), after, c.tick, c.present, c.end.done, c.end.based)
    ensures after == StateAfter(h + [c])
  {
    assert (h + [c])[..|h|] == h;
    forall mac ensures Get(after, mac) == Get(StateAfter(h + [c]), mac) {
      RowIsSeen(h, mac);
      RowIsSeen(h + [c], mac);
      assert Get(StateAfter(h), mac) == RowOf(h, mac);
    }
    SameTable(after, StateAfter(h + [c]));
  }

  lemma SameTable(a: States, b: States)
    requires forall mac :: Get(a, mac) == Get(b, mac)
    ensures a == b
  {
    assert forall mac :: mac in a <==> Get(a, mac).Some?;
    assert forall mac :: mac in b <==> Get(b, mac).Some?;
    assert a.Keys == b.Keys;
    forall mac | mac in a ensures a[mac] == b[mac] {
      assert Get(a, mac) == Get(b, mac);
    }
  }

  /** The stored tick is the tick of the mark; no cycle since has seen the device; and while it is not
      offline every cycle since that reached it was less than 3 ticks past the mark. */
  lemma {:induction false} MarkIsLastSeen(h: seq<Cycle>, mac: Mac)
    requires mac in Seen(h)
    ensures RowOf(h, mac).Some? && Mark(h, mac).Some? && Mark(h, mac).value < |h|
    ensures var m := Mark(h, mac).value;
            && RowOf(h, mac).value.lastSeenTick == Some(h[m].tick)
            && (forall i :: m < i < |h| ==> !Sighted(h[i], mac))
            && (RowOf(h, mac).value.status != Offline ==>
                  forall i :: m < i < |h| && Reached(h[i], mac) ==> h[i].tick - h[m].tick < 3)
  {
    var n := |h| - 1;
    var g := h[..n];
    RowIsSeen(h, mac);
    RowIsSeen(g, mac);
    if mac in Seen(g) {
      MarkIsLastSeen(g, mac);
      assert forall i :: 0 <= i < n ==> g[i] == h[i];
    }
  }

  /** The device turns offline in the last cycle of the history. */
  predicate TurnsOffline(h: seq<Cycle>, mac: Mac) {
    && h != []
    && RowOf(h[..|h| - 1], mac).Some? && RowOf(h[..|h| - 1], mac).value.status != Offline
    && RowOf(h, mac).Some? && RowOf(h, mac).value.status == Offline
  }

  /** Offline is declared exactly, for ticks that move in any way and cycles that raise anywhere: a
      device that is not offline turns offline in a cycle if and only if the cycle reaches it, it is
      absent, and the tick is at least 3 past its last sighting or re-baseline. No cycle since that
      reached it was so far past, so it is the first that could. */
  lemma OfflineExactly(h: seq<Cycle>, mac: Mac)
    requires h != [] && RowOf(h[..|h| - 1], mac).Some? && RowOf(h[..|h| - 1], mac).value.status != Offline
    ensures Mark(h[..|h| - 1], mac).Some? && Mark(h[..|h| - 1], mac).value < |h| - 1
    ensures var m, c := Mark(h[..|h| - 1], mac).value, h[|h| - 1];
            && (TurnsOffline(h, mac) <==>
                  Reached(c, mac) && mac !in c.present && c.tick > 1 && c.tick - h[m].tick >= 3)
            && (forall i :: m < i < |h| - 1 && Reached(h[i], mac) ==>
                  mac !in h[i].present && h[i].tick - h[m].tick < 3)
  {
    var g := h[..|h| - 1];
    RowIsSeen(g, mac);
    MarkIsLastSeen(g, mac);
    var m := Mark(g, mac).value;
    assert forall i :: 0 <= i < |g| ==> g[i] == h[i];
    forall i | m < i < |g| && Reached(h[i], mac) ensures mac !in h[i].present {
      assert !Sighted(g[i], mac);
    }
  }

  lemma {:induction false} SeenMeans(h: seq<Cycle>, mac: Mac)
    ensures mac in Seen(h) <==> exists i :: 0 <= i < |h| && Reached(h[i], mac) && mac in h[i].present
  {
    if h != [] {
      var n := |h| - 1;
      SeenMeans(h[..n], mac);
      assert forall i :: 0 <= i < n ==> h[..n][i] == h[i];
      if i :| 0 <= i < |h| && Reached(h[i], mac) && mac in h[i].present {
        assert i == n || (Reached(h[..n][i], mac) && mac in h[..n][i].present);
      }
      if i :| 0 <= i < n && Reached(h[..n][i], mac) && mac in h[..n][i].present {
        assert Reached(h[i], mac) && mac in h[i].present;
      }
    }
  }

  /** A device's row after any history, cycle by cycle. A cycle that reaches it while it is present makes it
      new if no cycle saw it before and online otherwise, however long it was offline; any other
      cycle changes its status at most to offline, by the rule of OfflineExactly, and its last
      sighting at most by the reset on the first two ticks. */
  lemma RowExactly(h: seq<Cycle>, mac: Mac)
    requires h != []
    ensures var was, row, c := RowOf(h[..|h| - 1], mac), RowOf(h, mac), h[|h| - 1];
            var sees := Reached(c, mac) && mac in c.present;
            && (was.None? <==> forall i :: 0 <= i < |h| - 1 ==> !(Reached(h[i], mac) && mac in h[i].present))
            && (sees ==> row == Some(Row(if was.None? then New else Online, Some(c.tick))))
            && (!sees && was.None? ==> row.None?)
            && (!sees && was.Some? ==>
                  var reset := c.tick <= 1 && (Reached(c, mac) || c.end.Completed? || c.end.based);
                  row == Some(Row(if TurnsOffline(h, mac) then Offline else was.value.status,
                                  if reset then Some(c.tick) else was.value.lastSeenTick)))
  {
    var g := h[..|h| - 1];
    RowIsSeen(g, mac);
    SeenMeans(g, mac);
    assert forall i :: 0 <= i < |g| ==> g[i] == h[i];
  }

  // ----- cycles that all complete, with ticks that grow by 0 or 1 or are reset --------

  ghost predicate AllCompleted(h: seq<Cycle>) { forall i :: 0 <= i < |h| ==> h[i].end.Completed? }

  /** Ticks grow by 0 or 1, or are reset to 0 or 1. */
  predicate Legit(h: seq<Cycle>) { forall i :: 0 < i < |h| ==> LegitStep(h, i) }

  predicate LegitStep(h: seq<Cycle>, i: int)
    requires 0 < i < |h|
  {
    Creeps(h, i) || h[i].tick in {0, 1}
  }

  predicate Creeps(h: seq<Cycle>, i: int)
    requires 0 < i < |h|
  {
    h[i].tick - h[i - 1].tick in {0, 1}
  }

  lemma LegitPrefix(h: seq<Cycle>)
    requires Legit(h) && h != []
    ensures Legit(h[..|h| - 1])
    ensures forall i :: 0 < i < |h| - 1 ==> Creeps(h[..|h| - 1], i) == Creeps(h, i)
    ensures forall i :: 0 <= i < |h| - 1 ==> h[..|h| - 1][i] == h[i]
  {
    var g := h[..|h| - 1];
    forall i | 0 < i < |g| ensures LegitStep(g, i) && Creeps(g, i) == Creeps(h, i) {
      assert LegitStep(h, i) && g[i] == h[i] && g[i - 1] == h[i - 1];
    }
  }

  /** Since the mark ticks only crept up. */
  lemma {:induction false} CreepsSinceMark(h: seq<Cycle>, mac: Mac)
    requires AllCompleted(h) && Legit(h) && mac in Seen(h)
    ensures Mark(h, mac).Some? && Mark(h, mac).value < |h|
    ensures forall i :: Mark(h, mac).value < i < |h| ==> Creeps(h, i)
  {
    var n := |h| - 1;
    var g := h[..n];
    MarkIsLastSeen(h, mac);
    LegitPrefix(h);
    if Mark(h, mac).value != n {
      CreepsSinceMark(g, mac);
      assert LegitStep(h, n);
    }
  }

  /** Between two cycles some cycle has every tick in between. */
  lemma {:induction false} TickBetween(h: seq<Cycle>, lo: nat, hi: nat, t: int) returns (i: nat)
    requires lo <= hi < |h| && h[lo].tick <= t <= h[hi].tick
    requires forall j :: lo < j <= hi ==> Creeps(h, j)
    ensures lo <= i <= hi && h[i].tick == t
    decreases hi
  {
    if h[hi].tick == t {
      i := hi;
    } else {
      assert Creeps(h, hi);
      i := TickBetween(h, lo, hi - 1, t);
    }
  }

  /** Then a device declared offline was absent in three cycles with distinct consecutive ticks, the
      last of them exactly 3 past its mark, and in every cycle since that mark. */
  lemma ThreeMissedTicks(h: seq<Cycle>, mac: Mac) returns (a: nat, b: nat)
    requires AllCompleted(h) && Legit(h) && TurnsOffline(h, mac)
    ensures Mark(h[..|h| - 1], mac).Some?
    ensures var m, n := Mark(h[..|h| - 1], mac).value, |h| - 1;
            && m < a < b < n
            && h[a].tick == h[m].tick + 1 && h[b].tick == h[m].tick + 2 && h[n].tick == h[m].tick + 3
            && (forall i :: m < i <= n ==> mac !in h[i].present)
  {
    var n := |h| - 1;
    var g := h[..n];
    OfflineExactly(h, mac);
    RowIsSeen(g, mac);
    LegitPrefix(h);
    CreepsSinceMark(g, mac);
    var m := Mark(g, mac).value;
    assert LegitStep(h, n);
    assert forall j :: m < j < n ==> Creeps(g, j);
    PreviousIsNear(h, mac, m);
    a := TickBetween(h, m, n, h[m].tick + 1);
    b := TickBetween(h, a, n, h[m].tick + 2);
  }

  lemma PreviousIsNear(h: seq<Cycle>, mac: Mac, m: nat)
    requires AllCompleted(h) && TurnsOffline(h, mac) && Mark(h[..|h| - 1], mac) == Some(m)
    ensures m <= |h| - 2 && h[|h| - 2].tick - h[m].tick < 3
    ensures h[|h| - 1].tick > 1
  {
    OfflineExactly(h, mac);
    if m < |h| - 2 {
      assert Reached(h[|h| - 2], mac);
    }
  }
}
