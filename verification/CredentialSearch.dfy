/** adaptive_snmp_query and get_working_credential of src/engine/snmp_adapter.py, for one IP.

    Concurrent calls for the IP share its cache entry, failure streak and probe lock, and the
    background probe and v3 upgrade tasks write the same entry. A step is the code between two
    awaits of one task. All state kept per IP is independent between IPs except for the sibling
    credential a call may try first, which is therefore a parameter of its step. */
module CredentialSearch {
  import opened Common
  import opened SnmpCredential

  const UNRESPONSIVE_RETRY_TICKS := 5
  const CACHE_RETRY_THRESHOLD := 3
  const MIN_SECONDS_BETWEEN_STREAK_INCREMENTS := 30.0

  datatype Streak = Streak(count: nat, last: real)

  /** Where a call is suspended. A call that will search carries the value of
      was_previously_cached and, as history, the counted failures that sent it there. */
  datatype Pc =
    | VerifySibling(cred: Cred)
    | AskCached(cred: Cred)
    | Follow
    | AskReused(cred: Cred)
    | AwaitSearch(wasCached: bool, evidence: seq<real>)
    | Search(wasCached: bool, evidence: seq<real>, todo: seq<Cred>)

  /** `failures` is history: the times of the failures counted since the last recorded success.
      `sawHeld` and `searched` are history: the calls that found the lock held, and the calls
      that entered the full search. */
  datatype State = State(
    entry: Option<Entry>,
    streak: Option<Streak>,
    lock: Lock,
    tick: int,
    now: real,
    calls: map<nat, Pc>,
    nextId: nat,
    probes: nat,
    scheduled: bool,
    upgrading: bool,
    failures: seq<real>,
    sawHeld: set<nat>,
    searched: set<nat>)

  function Init(now: real): State {
    State(None, None, FREE, 0, now, map[], 0, 0, false, false, [], {}, {})
  }

  predicate Working(e: Option<Entry>) { e.Some? && e.value.Works? }

  predicate Marked(e: Option<Entry>) { e.Some? && e.value.Unresponsive? }

  predicate RetryDue(s: State) { Marked(s.entry) && s.tick - s.entry.value.atTick >= UNRESPONSIVE_RETRY_TICKS }

  // ----- the code between awaits ------------------------------------------------------

  function Park(s: State, id: nat, pc: Pc): State { s.(calls := s.calls[id := pc]) }

  function Return(s: State, id: nat): State { s.(calls := s.calls - {id}) }

  /** Every credential was tried without an answer. */
  function Exhaust(s: State, id: nat, wasCached: bool): State {
    Return(s.(lock := s.lock.(holder := None),
              entry := if wasCached then s.entry else Some(Unresponsive(s.tick))), id)
  }

  /** The probe lock is granted: the full search begins. */
  function StartSearch(s: State, id: nat, wasCached: bool, evidence: seq<real>, creds: seq<Cred>): State {
    var began := s.(searched := s.searched + {id});
    if creds == [] then Exhaust(began, id, wasCached)
    else Park(began.(lock := began.lock.(holder := Some(id))), id, Search(wasCached, evidence, creds))
  }

  /** The lock is held: wait for the running search to finish. */
  function Followed(s: State, id: nat): State {
    Park(s.(lock := s.lock.(waiters := s.lock.waiters + [id]), sawHeld := s.sawHeld + {id}), id, Follow)
  }

  /** From the look at lock.locked() on. */
  function ReachLock(s: State, id: nat, wasCached: bool, evidence: seq<real>, creds: seq<Cred>): State {
    if s.lock.holder.Some? then Followed(s, id)
    else if s.lock.waiters == [] then StartSearch(s, id, wasCached, evidence, creds)
    else Park(s.(lock := s.lock.(waiters := s.lock.waiters + [id])), id, AwaitSearch(wasCached, evidence))
  }

  /** adaptive_snmp_query from its first line to its first await. */
  function StartQuery(s: State, id: nat, creds: seq<Cred>): State {
    if Working(s.entry) then Park(s, id, AskCached(s.entry.value.cred))
    else if Marked(s.entry) && !RetryDue(s) then Return(s, id)
    else ReachLock(s, id, false, [], creds)
  }

  /** get_working_credential, with the sibling credential its query found. */
  function StartGet(s: State, id: nat, sibling: Option<Cred>, creds: seq<Cred>): State {
    if Working(s.entry) || (Marked(s.entry) && !RetryDue(s)) then Return(s, id)
    else if sibling.Some? then Park(s, id, VerifySibling(sibling.value))
    else StartQuery(s, id, creds)
  }

  /** One failure of the cached credential, counted unless the last count is too recent. */
  function CountFailure(s: State): State {
    var Streak(count, last) := if s.streak.Some? then s.streak.value else Streak(0, 0.0);
    if s.now - last >= MIN_SECONDS_BETWEEN_STREAK_INCREMENTS
    then s.(streak := Some(Streak(count + 1, s.now)), failures := s.failures + [s.now])
    else s
  }

  function RecordSuccess(s: State): State { s.(streak := None, failures := []) }

  function AfterCachedFailure(s: State, id: nat, creds: seq<Cred>): State {
    var counted := CountFailure(s);
    if counted.streak.None? || counted.streak.value.count < CACHE_RETRY_THRESHOLD then Return(counted, id)
    else ReachLock(counted, id, true, counted.failures, creds)
  }

  /** The search's current credential answered or not. */
  function AfterTrial(s: State, id: nat, ok: bool): State
    requires id in s.calls && s.calls[id].Search? && s.calls[id].todo != []
  {
    var Search(wasCached, evidence, todo) := s.calls[id];
    if ok then
      var found := RecordSuccess(s.(entry := Some(Works(todo[0])), lock := s.lock.(holder := None)));
      Return(if todo[0].V2c? then found.(probes := s.probes + 1) else found, id)
    else if |todo| == 1 then Exhaust(s, id, wasCached)
    else Park(s, id, Search(wasCached, evidence, todo[1..]))
  }

  // ----- the machine ------------------------------------------------------------------

  /** `creds` is the configured list read when a search starts: v2c first, then the v3 pairings. */
  datatype Step =
    | SetTick(tick: int)
    | Clock(now: real)
    | Query(creds: seq<Cred>)
    | Get(sibling: Option<Cred>, creds: seq<Cred>)
    | Verified(id: nat, ok: bool, creds: seq<Cred>)
    | CachedAnswer(id: nat, ok: bool, creds: seq<Cred>)
    | Wake(id: nat, creds: seq<Cred>)
    | Trial(id: nat, ok: bool)
    | ReusedAnswer(id: nat)
    | ProbeDone(hasEngine: bool)
    | UpgradeStarts
    | UpgradeEnds(found: Option<Cred>, byCascade: bool)

  function Next(s: State, step: Step): State {
    match step
    case SetTick(t) => s.(tick := t)
    case Clock(t) => if t >= s.now then s.(now := t) else s
    case Query(creds) => StartQuery(s.(nextId := s.nextId + 1), s.nextId, creds)
    case Get(sibling, creds) => StartGet(s.(nextId := s.nextId + 1), s.nextId, sibling, creds)
    case Verified(id, ok, creds) =>
      if id !in s.calls || !s.calls[id].VerifySibling? then s
      else if ok then Return(s.(entry := Some(Works(s.calls[id].cred))), id)
      else StartQuery(s, id, creds)
    case CachedAnswer(id, ok, creds) =>
      if id !in s.calls || !s.calls[id].AskCached? then s
      else if ok then Return(RecordSuccess(s), id)
      else AfterCachedFailure(s, id, creds)
    case Wake(id, creds) =>
      if id !in s.calls || !MayResume(s.lock, id) then s
      else
        var woken := s.(lock := Lock(None, s.lock.waiters[1..]));
        (match s.calls[id]
         case Follow => if Working(s.entry) then Park(woken, id, AskReused(s.entry.value.cred)) else Return(woken, id)
         case AwaitSearch(wasCached, evidence) => StartSearch(woken, id, wasCached, evidence, creds)
         case _ => s)
    case Trial(id, ok) =>
      if id !in s.calls || !s.calls[id].Search? || s.calls[id].todo == [] then s else AfterTrial(s, id, ok)
    case ReusedAnswer(id) =>
      if id !in s.calls || !s.calls[id].AskReused? then s else Return(s, id)
    case ProbeDone(hasEngine) =>
      if s.probes == 0 then s else s.(probes := s.probes - 1, scheduled := s.scheduled || hasEngine)
    case UpgradeStarts =>
      if s.scheduled && !s.upgrading then s.(upgrading := true) else s
    case UpgradeEnds(found, byCascade) =>
      if !s.upgrading then s
      else
        var over := s.(upgrading := false, scheduled := false);
        if found.None? then over
        else
          var written := over.(entry := Some(Works(found.value)));
          if byCascade then RecordSuccess(written) else written
  }

  function Run(s: State, steps: seq<Step>): State
    decreases |steps|
  {
    if steps == [] then s else Run(Next(s, steps[0]), steps[1..])
  }

  // ----- what holds under any overlap -------------------------------------------------

  /** At least three failures, each at least 30 s after the one before. */
  ghost predicate Evidence(ev: seq<real>, now: real) {
    |ev| >= 3 && Spaced(ev, now)
  }

  ghost predicate Spaced(ev: seq<real>, now: real) {
    && (forall i, j :: 0 <= i < j < |ev| ==> ev[j] - ev[i] >= 30.0)
    && (ev != [] ==> ev[|ev| - 1] <= now)
  }

  /** The lock is held exactly by the searching call. */
  ghost predicate HeldBySearch(calls: map<nat, Pc>, lock: Lock) {
    && (forall id :: id in calls && calls[id].Search? ==> lock.holder == Some(id) && calls[id].todo != [])
    && (lock.holder.Some? ==> lock.holder.value in calls && calls[lock.holder.value].Search?)
  }

  predicate Waits(pc: Pc) { pc.Follow? || pc.AwaitSearch? }

  ghost predicate QueueIsWaiting(calls: map<nat, Pc>, lock: Lock) {
    && (forall id :: id in calls && Waits(calls[id]) ==> id in lock.waiters)
    && (forall id :: id in lock.waiters ==> id in calls && Waits(calls[id]))
    && NoDuplicates(lock.waiters)
  }

  ghost predicate Roles(s: State) {
    && (forall id :: id in s.calls ==> id < s.nextId)
    && (forall id :: id in s.sawHeld ==>
      id < s.nextId && (id in s.calls ==> s.calls[id].Follow? || s.calls[id].AskReused?))
    && (forall id :: id in s.searched ==> id < s.nextId && (id in s.calls ==> s.calls[id].Search?))
    && (forall id :: id in s.sawHeld ==> id !in s.searched)
  }

  ghost predicate StreakIsHistory(s: State) {
    && s.streak == (if s.failures == [] then None else Some(Streak(|s.failures|, s.failures[|s.failures| - 1])))
    && Spaced(s.failures, s.now)
  }

  ghost predicate ReprobesHaveEvidence(calls: map<nat, Pc>, now: real) {
    forall id :: id in calls && (calls[id].AwaitSearch? || calls[id].Search?) && calls[id].wasCached ==>
      Evidence(calls[id].evidence, now)
  }

  ghost predicate Inv(s: State) {
    && HeldBySearch(s.calls, s.lock)
    && QueueIsWaiting(s.calls, s.lock)
    && Roles(s)
    && StreakIsHistory(s)
    && ReprobesHaveEvidence(s.calls, s.now)
  }

  /** Inv, with call `id` between awaits: out of the queue, not holding the lock, not a follower. */
  ghost predicate Between(s: State, id: nat) {
    && id < s.nextId && id !in s.sawHeld
    && HeldBySearch(s.calls - {id}, s.lock)
    && QueueIsWaiting(s.calls - {id}, s.lock)
    && Roles(s.(calls := s.calls - {id}))
    && StreakIsHistory(s)
    && ReprobesHaveEvidence(s.calls - {id}, s.now)
  }

  lemma ReturnKeeps(s: State, id: nat)
    requires Between(s, id)
    ensures Inv(Return(s, id))
  {
  }

  lemma ParkKeeps(s: State, id: nat, pc: Pc)
    requires Between(s, id) && !Waits(pc) && !pc.Search? && id !in s.searched
    ensures Inv(Park(s, id, pc))
  {
    var t := Park(s, id, pc);
    assert t.calls - {id} == s.calls - {id};
    assert id !in s.lock.waiters;
    assert forall i :: i in t.calls && i != id ==> i in s.calls - {id} && t.calls[i] == (s.calls - {id})[i];
  }

  lemma JoinQueue(calls: map<nat, Pc>, lock: Lock, id: nat, pc: Pc)
    requires HeldBySearch(calls - {id}, lock) && QueueIsWaiting(calls - {id}, lock) && Waits(pc)
    ensures HeldBySearch(calls[id := pc], lock.(waiters := lock.waiters + [id]))
    ensures QueueIsWaiting(calls[id := pc], lock.(waiters := lock.waiters + [id]))
  {
    var ws := lock.waiters;
    var t := calls[id := pc];
    assert id !in ws;
    assert forall i :: i in ws + [id] <==> i in ws || i == id;
    assert forall i :: i in t && i != id ==> i in calls - {id} && t[i] == (calls - {id})[i];
  }

  lemma FollowKeeps(s: State, id: nat)
    requires Between(s, id) && id !in s.searched
    ensures Inv(Followed(s, id))
  {
    JoinQueue(s.calls, s.lock, id, Follow);
    var calls := s.calls[id := Follow];
    assert forall i :: i in calls && i != id ==> i in s.calls - {id} && calls[i] == (s.calls - {id})[i];
  }

  lemma AwaitKeeps(s: State, id: nat, wasCached: bool, evidence: seq<real>)
    requires Between(s, id) && id !in s.searched && (wasCached ==> Evidence(evidence, s.now))
    ensures Inv(Park(s.(lock := s.lock.(waiters := s.lock.waiters + [id])), id, AwaitSearch(wasCached, evidence)))
  {
    JoinQueue(s.calls, s.lock, id, AwaitSearch(wasCached, evidence));
    var calls := s.calls[id := AwaitSearch(wasCached, evidence)];
    assert forall i :: i in calls && i != id ==> i in s.calls - {id} && calls[i] == (s.calls - {id})[i];
  }

  lemma StartSearchKeeps(s: State, id: nat, wasCached: bool, evidence: seq<real>, creds: seq<Cred>)
    requires Between(s, id) && s.lock.holder.None?
    requires wasCached ==> Evidence(evidence, s.now)
    ensures Inv(StartSearch(s, id, wasCached, evidence, creds))
  {
    var began := s.(searched := s.searched + {id});
    if creds == [] {
      var t := Exhaust(began, id, wasCached);
      assert t.calls == s.calls - {id} && t.lock == s.lock;
    } else {
      var t := StartSearch(s, id, wasCached, evidence, creds);
      assert id !in s.lock.waiters;
      assert forall i :: i in t.calls && i != id ==> i in s.calls - {id} && t.calls[i] == (s.calls - {id})[i];
    }
  }

  lemma ReachLockKeeps(s: State, id: nat, wasCached: bool, evidence: seq<real>, creds: seq<Cred>)
    requires Between(s, id) && id !in s.searched
    requires wasCached ==> Evidence(evidence, s.now)
    ensures Inv(ReachLock(s, id, wasCached, evidence, creds))
  {
    if s.lock.holder.Some? {
      FollowKeeps(s, id);
    } else if s.lock.waiters == [] {
      StartSearchKeeps(s, id, wasCached, evidence, creds);
    } else {
      AwaitKeeps(s, id, wasCached, evidence);
    }
  }

  lemma StartQueryKeeps(s: State, id: nat, creds: seq<Cred>)
    requires Between(s, id) && id !in s.searched
    ensures Inv(StartQuery(s, id, creds))
  {
    if Working(s.entry) {
      ParkKeeps(s, id, AskCached(s.entry.value.cred));
    } else if Marked(s.entry) && !RetryDue(s) {
      ReturnKeeps(s, id);
    } else {
      ReachLockKeeps(s, id, false, [], creds);
    }
  }

  lemma StartGetKeeps(s: State, id: nat, sibling: Option<Cred>, creds: seq<Cred>)
    requires Between(s, id) && id !in s.searched
    ensures Inv(StartGet(s, id, sibling, creds))
  {
    if Working(s.entry) || (Marked(s.entry) && !RetryDue(s)) {
      ReturnKeeps(s, id);
    } else if sibling.Some? {
      ParkKeeps(s, id, VerifySibling(sibling.value));
    } else {
      StartQueryKeeps(s, id, creds);
    }
  }

  /** A suspended call that neither waits nor searches may run on. */
  lemma IdleIsBetween(s: State, id: nat)
    requires Inv(s) && id in s.calls && (s.calls[id].VerifySibling? || s.calls[id].AskCached?)
    ensures Between(s, id) && id !in s.searched
  {
    assert id !in s.lock.waiters;
  }

  lemma FreshIsBetween(s: State)
    requires Inv(s)
    ensures var t := s.(nextId := s.nextId + 1); Between(t, s.nextId) && s.nextId !in t.searched
  {
    assert s.calls - {s.nextId} == s.calls;
  }

  lemma CountFailureKeeps(s: State, id: nat)
    requires Between(s, id)
    ensures Between(CountFailure(s), id) && CountFailure(s).searched == s.searched
    ensures var t := CountFailure(s);
            t.streak.Some? && t.streak.value.count >= CACHE_RETRY_THRESHOLD ==> Evidence(t.failures, s.now)
  {
  }

  lemma SuccessKeeps(s: State, id: nat)
    requires Between(s, id)
    ensures Inv(Return(RecordSuccess(s), id))
  {
    ReturnKeeps(RecordSuccess(s), id);
  }

  lemma FailureKeeps(s: State, id: nat, creds: seq<Cred>)
    requires Between(s, id) && id !in s.searched
    ensures Inv(AfterCachedFailure(s, id, creds))
  {
    hide Between, Inv, Evidence, ReachLock;
    CountFailureKeeps(s, id);
    var t := CountFailure(s);
    if t.streak.None? || t.streak.value.count < CACHE_RETRY_THRESHOLD {
      ReturnKeeps(t, id);
    } else {
      ReachLockKeeps(t, id, true, t.failures, creds);
    }
  }

  lemma CachedAnswerKeeps(s: State, id: nat, ok: bool, creds: seq<Cred>)
    requires Inv(s)
    ensures Inv(Next(s, CachedAnswer(id, ok, creds)))
  {
    hide Between, Inv, AfterCachedFailure;
    if id in s.calls && s.calls[id].AskCached? {
      IdleIsBetween(s, id);
      if ok {
        SuccessKeeps(s, id);
      } else {
        FailureKeeps(s, id, creds);
      }
    }
  }

  lemma WokenIsBetween(s: State, id: nat)
    requires Inv(s) && id in s.calls && MayResume(s.lock, id)
    ensures var woken := s.(lock := Lock(None, s.lock.waiters[1..]));
            if s.calls[id].Follow?
            then QueueIsWaiting(s.calls - {id}, woken.lock) && HeldBySearch(s.calls - {id}, woken.lock)
            else Between(woken, id) && id !in s.searched
  {
    var ws := s.lock.waiters;
    assert id !in ws[1..];
    assert forall i :: i in ws <==> i == id || i in ws[1..];
    assert NoDuplicates(ws[1..]);
  }

  lemma FollowerKeeps(s: State, id: nat)
    requires Inv(s) && id in s.calls && MayResume(s.lock, id) && s.calls[id].Follow?
    ensures Inv(Next(s, Wake(id, [])))
  {
    var woken := s.(lock := Lock(None, s.lock.waiters[1..]));
    WokenIsBetween(s, id);
    FollowerRuns(s, woken, id);
    if Working(s.entry) {
      FollowerAsks(woken, id, s.entry.value.cred);
    }
  }

  /** A follower that has been woken, out of the queue. */
  ghost predicate FollowerWoken(s: State, id: nat) {
    && id in s.calls && s.calls[id].Follow?
    && HeldBySearch(s.calls - {id}, s.lock) && QueueIsWaiting(s.calls - {id}, s.lock)
    && Roles(s) && StreakIsHistory(s) && ReprobesHaveEvidence(s.calls, s.now)
  }

  lemma FollowerRuns(s: State, woken: State, id: nat)
    requires Inv(s) && id in s.calls && s.calls[id].Follow? && woken == s.(lock := Lock(None, s.lock.waiters[1..]))
    requires HeldBySearch(s.calls - {id}, woken.lock) && QueueIsWaiting(s.calls - {id}, woken.lock)
    ensures FollowerWoken(woken, id) && Inv(Return(woken, id))
  {
    hide HeldBySearch, QueueIsWaiting;
  }

  lemma FollowerAsks(s: State, id: nat, cred: Cred)
    requires FollowerWoken(s, id)
    ensures Inv(Park(s, id, AskReused(cred)))
  {
    var calls := s.calls[id := AskReused(cred)];
    assert calls - {id} == s.calls - {id};
    assert forall i :: i in calls && i != id ==> i in s.calls - {id} && calls[i] == (s.calls - {id})[i];
    assert id !in s.lock.waiters;
  }

  lemma WakeKeeps(s: State, id: nat, creds: seq<Cred>)
    requires Inv(s)
    ensures Inv(Next(s, Wake(id, creds)))
  {
    if id in s.calls && MayResume(s.lock, id) {
      match s.calls[id]
      case Follow => FollowerKeeps(s, id);
      case AwaitSearch(wasCached, evidence) =>
        WokenIsBetween(s, id);
        StartSearchKeeps(s.(lock := Lock(None, s.lock.waiters[1..])), id, wasCached, evidence, creds);
      case _ =>
    }
  }

  lemma SearchIsBetween(s: State, id: nat)
    requires Inv(s) && id in s.calls && s.calls[id].Search?
    ensures Between(s.(lock := s.lock.(holder := None)), id)
  {
    assert id !in s.lock.waiters;
  }

  lemma StaysBetween(s: State, t: State, id: nat)
    requires Between(s, id) && t.calls == s.calls && t.lock == s.lock && t.nextId == s.nextId && t.now == s.now
    requires t.sawHeld == s.sawHeld && t.searched == s.searched
    requires (t.streak == s.streak && t.failures == s.failures) || (t.streak.None? && t.failures == [])
    ensures Between(t, id)
  {
    hide HeldBySearch, QueueIsWaiting, ReprobesHaveEvidence;
  }

  lemma TrialKeeps(s: State, id: nat, ok: bool)
    requires Inv(s)
    ensures Inv(Next(s, Trial(id, ok)))
  {
    hide Inv, Between;
    if id in s.calls && s.calls[id].Search? && s.calls[id].todo != [] {
      var Search(wasCached, evidence, todo) := s.calls[id];
      var freed := s.(lock := s.lock.(holder := None));
      SearchIsBetween(s, id);
      if ok {
        var found := RecordSuccess(freed.(entry := Some(Works(todo[0]))));
        var probing := if todo[0].V2c? then found.(probes := s.probes + 1) else found;
        StaysBetween(freed, probing, id);
        ReturnKeeps(probing, id);
      } else if |todo| == 1 {
        var over := freed.(entry := if wasCached then s.entry else Some(Unresponsive(s.tick)));
        StaysBetween(freed, over, id);
        ReturnKeeps(over, id);
      } else {
        NextTrialKeeps(s, id);
      }
    }
  }

  lemma NextTrialKeeps(s: State, id: nat)
    requires Inv(s) && id in s.calls && s.calls[id].Search? && |s.calls[id].todo| > 1
    ensures Inv(Park(s, id, s.calls[id].(todo := s.calls[id].todo[1..])))
  {
    hide Evidence;
    var t := s.calls[id := s.calls[id].(todo := s.calls[id].todo[1..])];
    assert forall i :: i in t && i != id ==> i in s.calls && t[i] == s.calls[i];
    assert forall i :: i in t <==> i in s.calls;
  }

  lemma ReusedKeeps(s: State, id: nat)
    requires Inv(s)
    ensures Inv(Next(s, ReusedAnswer(id)))
  {
    if id in s.calls && s.calls[id].AskReused? {
      ReturnKeepsIdle(s, id);
    }
  }

  lemma ReturnKeepsIdle(s: State, id: nat)
    requires Inv(s) && id in s.calls && !Waits(s.calls[id]) && !s.calls[id].Search?
    ensures Inv(Return(s, id))
  {
    assert id !in s.lock.waiters;
  }

  lemma QueryKeeps(s: State, creds: seq<Cred>)
    requires Inv(s)
    ensures Inv(Next(s, Query(creds)))
  {
    hide Inv, Between, StartQuery;
    var t, id := s.(nextId := s.nextId + 1), s.nextId;
    assert Between(t, id) && id !in t.searched by { FreshIsBetween(s); }
    var r := StartQuery(t, id, creds);
    assert Inv(r) by { StartQueryKeeps(t, id, creds); }
    assert r == Next(s, Query(creds));
  }

  lemma GetKeeps(s: State, sibling: Option<Cred>, creds: seq<Cred>)
    requires Inv(s)
    ensures Inv(Next(s, Get(sibling, creds)))
  {
    hide Inv, Between, StartGet;
    var t, id := s.(nextId := s.nextId + 1), s.nextId;
    assert Between(t, id) && id !in t.searched by { FreshIsBetween(s); }
    var r := StartGet(t, id, sibling, creds);
    assert Inv(r) by { StartGetKeeps(t, id, sibling, creds); }
    assert r == Next(s, Get(sibling, creds));
  }

  lemma VerifiedKeeps(s: State, id: nat, ok: bool, creds: seq<Cred>)
    requires Inv(s)
    ensures Inv(Next(s, Verified(id, ok, creds)))
  {
    if id in s.calls && s.calls[id].VerifySibling? {
      IdleIsBetween(s, id);
      if ok {
        ReturnKeeps(s.(entry := Some(Works(s.calls[id].cred))), id);
      } else {
        StartQueryKeeps(s, id, creds);
      }
    }
  }

  /** The clock and the background tasks leave the calls and the lock alone. */
  predicate Background(step: Step) {
    step.SetTick? || step.Clock? || step.ProbeDone? || step.UpgradeStarts? || step.UpgradeEnds?
  }

  lemma BackgroundKeeps(s: State, step: Step)
    requires Inv(s) && Background(step)
    ensures Inv(Next(s, step))
  {
    hide Inv;
    SameCallsKeep(s, Next(s, step));
  }

  lemma SameCallsKeep(s: State, t: State)
    requires Inv(s) && t.calls == s.calls && t.lock == s.lock && t.nextId == s.nextId
    requires t.sawHeld == s.sawHeld && t.searched == s.searched && t.now >= s.now
    requires (t.streak == s.streak && t.failures == s.failures) || (t.streak.None? && t.failures == [])
    ensures Inv(t)
  {
  }

  lemma StepKeeps(s: State, step: Step)
    requires Inv(s)
    ensures Inv(Next(s, step))
  {
    match step
    case Query(creds) => QueryKeeps(s, creds);
    case Get(sibling, creds) => GetKeeps(s, sibling, creds);
    case Verified(id, ok, creds) => VerifiedKeeps(s, id, ok, creds);
    case CachedAnswer(id, ok, creds) => CachedAnswerKeeps(s, id, ok, creds);
    case Wake(id, creds) => WakeKeeps(s, id, creds);
    case Trial(id, ok) => TrialKeeps(s, id, ok);
    case ReusedAnswer(id) => ReusedKeeps(s, id);
    case _ => BackgroundKeeps(s, step);
  }

  lemma {:induction false} RunKeeps(s: State, steps: seq<Step>)
    requires Inv(s)
    ensures Inv(Run(s, steps))
    decreases |steps|
  {
    if steps != [] {
      StepKeeps(s, steps[0]);
      RunKeeps(Next(s, steps[0]), steps[1..]);
    }
  }

  /** Single flight, over every interleaving: at most one call is inside the full search, and a
      call that found the lock held never searches. */
  lemma SingleFlight(now: real, steps: seq<Step>)
    ensures var s := Run(Init(now), steps);
            && (forall i, j | i in s.calls && j in s.calls && s.calls[i].Search? && s.calls[j].Search? :: i == j)
            && s.sawHeld !! s.searched
            && (forall id | id in s.calls && s.calls[id].Search? :: s.lock.holder == Some(id))
  {
    RunKeeps(Init(now), steps);
  }

  // ----- what a re-search rests on ----------------------------------------------------

  /** The step is a query with the cached credential that went unanswered. */
  predicate Failed(s: State, step: Step) {
    step.CachedAnswer? && !step.ok && step.id in s.calls && s.calls[step.id].AskCached?
  }

  /** The step records a success: it clears the streak. */
  predicate Recorded(s: State, step: Step) {
    match step
    case CachedAnswer(id, ok, _) => ok && id in s.calls && s.calls[id].AskCached?
    case Trial(id, ok) => ok && id in s.calls && s.calls[id].Search? && s.calls[id].todo != []
    case UpgradeEnds(found, byCascade) => s.upgrading && found.Some? && byCascade
    case _ => false
  }

  predicate Kept(s: State, t: State) { t.failures == s.failures }

  lemma ReachKeepsFailures(s: State, id: nat, wasCached: bool, evidence: seq<real>, creds: seq<Cred>)
    ensures Kept(s, ReachLock(s, id, wasCached, evidence, creds))
  {
  }

  lemma StartKeepsFailures(s: State, id: nat, creds: seq<Cred>)
    ensures Kept(s, StartQuery(s, id, creds))
  {
    hide ReachLock;
    ReachKeepsFailures(s, id, false, [], creds);
  }

  lemma CallKeepsFailures(s: State, step: Step)
    requires step.Query? || step.Get? || step.Verified? || step.Wake? || step.ReusedAnswer?
    ensures Kept(s, Next(s, step))
  {
    hide StartQuery;
    match step
    case Query(creds) => StartKeepsFailures(s.(nextId := s.nextId + 1), s.nextId, creds);
    case Get(sibling, creds) => StartKeepsFailures(s.(nextId := s.nextId + 1), s.nextId, creds);
    case Verified(id, ok, creds) => StartKeepsFailures(s, id, creds);
    case _ =>
  }

  lemma CachedFailures(s: State, step: Step)
    requires step.CachedAnswer?
    ensures var t := Next(s, step);
            if Recorded(s, step) then t.failures == []
            else t.failures == s.failures || (Failed(s, step) && t.failures == s.failures + [s.now])
  {
    hide ReachLock;
    if Failed(s, step) {
      var counted := CountFailure(s);
      ReachKeepsFailures(counted, step.id, true, counted.failures, step.creds);
    }
  }

  /** A step adds its own time to the counted failures only if it failed, and empties them exactly if
      it records a success. */
  lemma FailuresStep(s: State, step: Step)
    ensures var t := Next(s, step);
            if Recorded(s, step) then t.failures == []
            else t.failures == s.failures || (Failed(s, step) && t.failures == s.failures + [s.now])
  {
    hide StartQuery, StartGet, ReachLock, AfterCachedFailure;
    if step.CachedAnswer? {
      CachedFailures(s, step);
    } else if step.Query? || step.Get? || step.Verified? || step.Wake? || step.ReusedAnswer? {
      CallKeepsFailures(s, step);
    }
  }

  /** The state in which step `k` of a run is taken. */
  function At(now: real, steps: seq<Step>, k: nat): State
    requires k <= |steps|
  {
    Run(Init(now), steps[..k])
  }

  lemma LastStep(now: real, steps: seq<Step>)
    requires steps != []
    ensures var g := steps[..|steps| - 1];
            && Run(Init(now), steps) == Next(Run(Init(now), g), steps[|steps| - 1])
            && At(now, steps, |steps| - 1) == Run(Init(now), g)
            && forall k :: 0 <= k <= |g| ==> At(now, steps, k) == At(now, g, k)
  {
    hide Next;
    var g, last := steps[..|steps| - 1], steps[|steps| - 1];
    RunSplit(Init(now), g, [last]);
    assert g + [last] == steps && Run(Run(Init(now), g), [last]) == Run(Next(Run(Init(now), g), last), []);
    assert forall k :: 0 <= k <= |g| ==> steps[..k] == g[..k];
  }

  /** The counted failures are steps of the run, at those clock values, with no success since. */
  ghost predicate Traced(now: real, steps: seq<Step>, times: seq<real>, at: seq<nat>) {
    && |at| == |times|
    && (forall i, j :: 0 <= i < j < |at| ==> at[i] < at[j])
    && (forall i :: 0 <= i < |at| ==> IsFailure(now, steps, at[i], times[i]))
    && (at != [] ==> NoSuccess(now, steps, at[0], |steps|))
  }

  ghost predicate IsFailure(now: real, steps: seq<Step>, k: nat, time: real) {
    k < |steps| && Failed(At(now, steps, k), steps[k]) && At(now, steps, k).now == time
  }

  ghost predicate NoSuccess(now: real, steps: seq<Step>, from: nat, to: nat) {
    to <= |steps| && forall k :: from <= k < to ==> !Recorded(At(now, steps, k), steps[k])
  }

  lemma {:induction false} FailuresTraced(now: real, steps: seq<Step>) returns (at: seq<nat>)
    ensures Traced(now, steps, Run(Init(now), steps).failures, at)
  {
    if steps == [] {
      at := [];
    } else {
      var g := steps[..|steps| - 1];
      LastStep(now, steps);
      FailuresStep(Run(Init(now), g), steps[|steps| - 1]);
      at := FailuresTraced(now, g);
      at := TracedOneMore(now, steps, at);
    }
  }

  lemma TracedOneMore(now: real, steps: seq<Step>, before: seq<nat>) returns (at: seq<nat>)
    requires steps != [] && Traced(now, steps[..|steps| - 1], Run(Init(now), steps[..|steps| - 1]).failures, before)
    ensures Traced(now, steps, Run(Init(now), steps).failures, at)
  {
    hide Run, Next, Failed, Recorded, At;
    var n := |steps| - 1;
    var g, last := steps[..n], steps[n];
    LastStep(now, steps);
    FailuresStep(Run(Init(now), g), last);
    var s, t := Run(Init(now), g), Run(Init(now), steps);
    if Recorded(s, last) {
      at := [];
    } else if t.failures == s.failures {
      at := before;
    } else {
      at := before + [n];
    }
    forall i | 0 <= i < |at| ensures IsFailure(now, steps, at[i], t.failures[i]) {
      if i < |before| {
        assert IsFailure(now, g, before[i], s.failures[i]) && steps[at[i]] == g[at[i]];
      }
    }
    if at != [] {
      forall k | at[0] <= k < |steps| ensures !Recorded(At(now, steps, k), steps[k]) {
        if k < n {
          assert before != [] && NoSuccess(now, g, before[0], n) && steps[k] == g[k];
        }
      }
    }
  }

  /** The call waits for the lock or searches although a credential was cached. */
  predicate Researching(calls: map<nat, Pc>, id: nat) {
    id in calls && (calls[id].AwaitSearch? || calls[id].Search?) && calls[id].wasCached
  }

  lemma ReachEvidence(s: State, caller: nat, wasCached: bool, evidence: seq<real>, creds: seq<Cred>, id: nat)
    requires Researching(ReachLock(s, caller, wasCached, evidence, creds).calls, id)
    ensures if id == caller
      then ReachLock(s, caller, wasCached, evidence, creds).calls[id].evidence == evidence && wasCached
            else id in s.calls && ReachLock(s, caller, wasCached, evidence, creds).calls[id] == s.calls[id]
  {
  }

  lemma StartEvidence(s: State, caller: nat, creds: seq<Cred>, id: nat)
    requires Researching(StartQuery(s, caller, creds).calls, id)
    ensures id in s.calls && id != caller && StartQuery(s, caller, creds).calls[id] == s.calls[id]
  {
    hide ReachLock;
    if !Working(s.entry) && !(Marked(s.entry) && !RetryDue(s)) {
      ReachEvidence(s, caller, false, [], creds, id);
    }
  }

  /** Where a call's evidence comes from, whether it waits for the lock or holds it: it had it before
      the step, or the step is its own failed query and the evidence is the streak at that moment. */
  lemma EvidenceIsTheStreak(s: State, step: Step, id: nat)
    requires Researching(Next(s, step).calls, id)
    ensures var t := Next(s, step);
            || (Researching(s.calls, id) && t.calls[id].evidence == s.calls[id].evidence)
            || (Failed(s, step) && step.id == id && t.calls[id].evidence == t.failures)
  {
    hide StartQuery, StartGet, ReachLock, StartSearch, AfterTrial, AfterCachedFailure;
    match step
    case Query(creds) => StartEvidence(s.(nextId := s.nextId + 1), s.nextId, creds, id);
    case Get(sibling, creds) => GetEvidence(s.(nextId := s.nextId + 1), s.nextId, sibling, creds, id);
    case Verified(caller, ok, creds) =>
      if caller in s.calls && s.calls[caller].VerifySibling? && !ok {
        StartEvidence(s, caller, creds, id);
      }
    case CachedAnswer(caller, ok, creds) => CachedEvidence(s, step, id);
    case Wake(_, _) => WokenEvidence(s, step, id);
    case Trial(_, _) => WokenEvidence(s, step, id);
    case _ =>
  }

  lemma WokenEvidence(s: State, step: Step, id: nat)
    requires (step.Wake? || step.Trial?) && Researching(Next(s, step).calls, id)
    ensures Researching(s.calls, id) && Next(s, step).calls[id].evidence == s.calls[id].evidence
  {
    if step.Wake? {
      WakeEvidence(s, step, id);
    }
  }

  lemma WakeEvidence(s: State, step: Step, id: nat)
    requires step.Wake? && Researching(Next(s, step).calls, id)
    ensures Researching(s.calls, id) && Next(s, step).calls[id].evidence == s.calls[id].evidence
  {
    hide AfterTrial, ReachLock, StartQuery, StartGet, AfterCachedFailure;
  }

  lemma GetEvidence(s: State, caller: nat, sibling: Option<Cred>, creds: seq<Cred>, id: nat)
    requires Researching(StartGet(s, caller, sibling, creds).calls, id)
    ensures id in s.calls && id != caller && StartGet(s, caller, sibling, creds).calls[id] == s.calls[id]
  {
    hide StartQuery;
    if !(Working(s.entry) || (Marked(s.entry) && !RetryDue(s))) && sibling.None? {
      StartEvidence(s, caller, creds, id);
    }
  }

  lemma CachedEvidence(s: State, step: Step, id: nat)
    requires step.CachedAnswer? && Researching(Next(s, step).calls, id)
    ensures var t := Next(s, step);
            || (Researching(s.calls, id) && t.calls[id].evidence == s.calls[id].evidence)
            || (Failed(s, step) && step.id == id && t.calls[id].evidence == t.failures)
  {
    hide ReachLock;
    if Failed(s, step) {
      var counted := CountFailure(s);
      if counted.streak.Some? && counted.streak.value.count >= CACHE_RETRY_THRESHOLD {
        ReachEvidence(counted, step.id, true, counted.failures, step.creds, id);
        ReachKeepsFailures(counted, step.id, true, counted.failures, step.creds);
      }
    }
  }

  /** The step of the run at which a re-searching call gave up on the cached credential. */
  lemma {:induction false} EvidenceOrigin(now: real, steps: seq<Step>, id: nat) returns (e: nat)
    requires Researching(Run(Init(now), steps).calls, id)
    ensures e < |steps| && Failed(At(now, steps, e), steps[e]) && steps[e].id == id
    ensures At(now, steps, e + 1).failures == Run(Init(now), steps).calls[id].evidence
    decreases |steps|
  {
    hide Next;
    assert steps != [];
    var n := |steps| - 1;
    var g, last := steps[..n], steps[n];
    LastStep(now, steps);
    EvidenceIsTheStreak(Run(Init(now), g), last, id);
    assert steps[..n + 1] == steps;
    if Failed(Run(Init(now), g), last) && last.id == id
      && Run(Init(now), steps).calls[id].evidence == Run(Init(now), steps).failures {
      e := n;
    } else {
      e := EvidenceOrigin(now, g, id);
      assert g[e] == steps[e] && At(now, g, e) == At(now, steps, e) && At(now, g, e + 1) == At(now, steps, e + 1);
    }
  }

  /** Over every interleaving with a monotone clock: a call that re-searches, or waits to, although a
      credential was cached was sent there by three steps of the run, each an unanswered query with
      the cached credential, the last of them no later than its own; they are at least 30 s apart by
      the clock, and from the first of them on no success is recorded until the call gives up. So at
      least 60 s have passed since the first. */
  lemma ResearchNeedsThreeFailures(now: real, steps: seq<Step>, id: nat) returns (a: nat, b: nat, c: nat, gaveUp: nat)
    requires Researching(Run(Init(now), steps).calls, id)
    ensures a < b < c <= gaveUp < |steps| && Failed(At(now, steps, gaveUp), steps[gaveUp]) && steps[gaveUp].id == id
    ensures Failed(At(now, steps, a), steps[a]) && Failed(At(now, steps, b), steps[b])
    ensures Failed(At(now, steps, c), steps[c])
    ensures At(now, steps, b).now - At(now, steps, a).now >= 30.0
    ensures At(now, steps, c).now - At(now, steps, b).now >= 30.0
    ensures NoSuccess(now, steps, a, gaveUp + 1)
    ensures Run(Init(now), steps).now - At(now, steps, a).now >= 60.0
  {
    hide Run, Next, Failed, Recorded, Inv;
    InitHolds(now);
    RunKeeps(Init(now), steps);
    var ev := Run(Init(now), steps).calls[id].evidence;
    EvidenceSpaced(Run(Init(now), steps), id);
    gaveUp := EvidenceOrigin(now, steps, id);
    var g := steps[..gaveUp + 1];
    var at := FailuresTraced(now, g);
    assert At(now, steps, gaveUp + 1) == Run(Init(now), g);
    var n := |ev| - 3;
    a, b, c := at[n], at[n + 1], at[n + 2];
    SameAt(now, steps, gaveUp + 1);
    assert IsFailure(now, g, a, ev[n]) && IsFailure(now, g, b, ev[n + 1]) && IsFailure(now, g, c, ev[n + 2]);
    forall k | a <= k < gaveUp + 1 ensures !Recorded(At(now, steps, k), steps[k]) {
      assert !Recorded(At(now, g, k), g[k]);
    }
  }

  lemma InitHolds(now: real)
    ensures Inv(Init(now))
  {
  }

  lemma EvidenceSpaced(s: State, id: nat)
    requires Inv(s) && Researching(s.calls, id)
    ensures Evidence(s.calls[id].evidence, s.now)
  {
    hide HeldBySearch, QueueIsWaiting, Roles, StreakIsHistory, Evidence;
  }

  lemma SameAt(now: real, steps: seq<Step>, n: nat)
    requires n <= |steps|
    ensures forall k :: 0 <= k < n ==> At(now, steps[..n], k) == At(now, steps, k) && steps[..n][k] == steps[k]
  {
    assert forall k :: 0 <= k < n ==> steps[..n][..k] == steps[..k];
  }

  // ----- calls that do not overlap ----------------------------------------------------

  /** A new call starts only when no other call for the IP is suspended; the background probe
      and upgrade tasks may still interleave freely. */
  predicate OneAtATime(s: State, step: Step) { step.Query? || step.Get? ==> s.calls == map[] }

  predicate OneAtATimeRun(s: State, steps: seq<Step>)
    decreases |steps|
  {
    steps == [] || (OneAtATime(s, steps[0]) && OneAtATimeRun(Next(s, steps[0]), steps[1..]))
  }

  /** What the suspended call knows of the entry stays true; it never has to wait for the lock. */
  predicate KnowsEntry(pc: Pc, e: Option<Entry>) {
    match pc
    case VerifySibling(_) => !Working(e)
    case AskCached(_) => Working(e)
    case Search(wasCached, _, _) => wasCached == Working(e)
    case _ => false
  }

  ghost predicate Solo(s: State) {
    && (forall i, j :: i in s.calls && j in s.calls ==> i == j)
    && (forall i :: i in s.calls ==> KnowsEntry(s.calls[i], s.entry))
    && (s.probes > 0 || s.scheduled || s.upgrading ==> Working(s.entry))
  }

  /** The one call there is finds the probe lock free and nobody queued. */
  lemma SoloLockFree(s: State, id: nat)
    requires HeldBySearch(s.calls, s.lock) && QueueIsWaiting(s.calls, s.lock)
    requires forall i :: i in s.calls ==> i == id && !Waits(s.calls[i]) && !s.calls[i].Search?
    ensures s.lock == FREE
  {
    if s.lock.waiters != [] {
      var first := FirstWaiter(s.lock);
    }
  }

  lemma FirstWaiter(l: Lock) returns (id: nat)
    requires l.waiters != []
    ensures id in l.waiters
  {
    id := l.waiters[0];
  }

  /** Why a call enters the full search when calls do not overlap. */
  ghost predicate Reason(before: State, after: State) {
    || before.entry.None?
    || (before.entry.value.Unresponsive? && before.tick - before.entry.value.atTick >= 5)
    || (Working(before.entry) && Evidence(after.failures, after.now))
  }

  ghost predicate SoloStepOk(s: State, t: State) {
    && Solo(t)
    && (Working(s.entry) ==> Working(t.entry))
    && (forall id :: id in t.searched && id !in s.searched ==> Reason(s, t))
  }

  lemma SoloQuery(s: State, t: State, id: nat, creds: seq<Cred>)
    requires Solo(s) && t.lock == FREE && t.entry == s.entry && t.searched == s.searched
    requires (forall i :: i in t.calls ==> i == id)
    requires t.tick == s.tick && t.now == s.now && t.failures == s.failures
    requires t.probes == s.probes && t.scheduled == s.scheduled && t.upgrading == s.upgrading
    ensures SoloStepOk(s, StartQuery(t, id, creds))
  {
  }

  lemma SoloResearch(s: State, t: State, id: nat, creds: seq<Cred>)
    requires Solo(s) && t == s.(streak := t.streak, failures := t.failures) && t.lock == FREE
    requires id in s.calls && s.calls[id].AskCached? && Evidence(t.failures, t.now)
    ensures SoloStepOk(s, ReachLock(t, id, true, t.failures, creds))
  {
    assert forall i :: i in s.calls ==> i == id;
  }

  lemma SoloCached(s: State, id: nat, ok: bool, creds: seq<Cred>)
    requires Inv(s) && Solo(s)
    ensures SoloStepOk(s, Next(s, CachedAnswer(id, ok, creds)))
  {
    if id in s.calls && s.calls[id].AskCached? && !ok {
      assert s.lock == FREE by { SoloLockFree(s, id); }
      var t := CountFailure(s);
      if t.streak.Some? && t.streak.value.count >= CACHE_RETRY_THRESHOLD {
        assert Evidence(t.failures, t.now) by {
          IdleIsBetween(s, id);
          CountFailureKeeps(s, id);
        }
        SoloResearch(s, t, id, creds);
      }
    }
  }

  lemma SoloStart(s: State, sibling: Option<Cred>, creds: seq<Cred>)
    requires Inv(s) && Solo(s) && s.calls == map[]
    ensures SoloStepOk(s, Next(s, Query(creds)))
    ensures SoloStepOk(s, Next(s, Get(sibling, creds)))
  {
    hide Reason;
    SoloLockFree(s, 0);
    SoloQuery(s, s.(nextId := s.nextId + 1), s.nextId, creds);
  }

  lemma SoloVerified(s: State, id: nat, ok: bool, creds: seq<Cred>)
    requires Inv(s) && Solo(s)
    ensures SoloStepOk(s, Next(s, Verified(id, ok, creds)))
  {
    if id in s.calls && s.calls[id].VerifySibling? && !ok {
      SoloLockFree(s, id);
      SoloQuery(s, s, id, creds);
    }
  }

  lemma SoloTrial(s: State, id: nat, ok: bool)
    requires Inv(s) && Solo(s)
    ensures SoloStepOk(s, Next(s, Trial(id, ok)))
  {
    hide Inv, Reason;
  }

  lemma SoloQuiet(s: State, step: Step)
    requires Inv(s) && Solo(s) && (step.Wake? || step.ReusedAnswer? || Background(step))
    ensures SoloStepOk(s, Next(s, step))
  {
  }

  lemma SoloStep(s: State, step: Step)
    requires Inv(s) && Solo(s) && OneAtATime(s, step)
    ensures SoloStepOk(s, Next(s, step))
  {
    match step
    case Query(creds) => SoloStart(s, None, creds);
    case Get(sibling, creds) => SoloStart(s, sibling, creds);
    case Verified(id, ok, creds) => SoloVerified(s, id, ok, creds);
    case CachedAnswer(id, ok, creds) => SoloCached(s, id, ok, creds);
    case Trial(id, ok) => SoloTrial(s, id, ok);
    case _ => SoloQuiet(s, step);
  }

  lemma {:induction false} SoloRun(s: State, steps: seq<Step>)
    requires Inv(s) && Solo(s) && OneAtATimeRun(s, steps)
    ensures var t := Run(s, steps);
            Inv(t) && Solo(t) && (Working(s.entry) ==> Working(t.entry))
    decreases |steps|
  {
    if steps != [] {
      StepKeeps(s, steps[0]);
      SoloStep(s, steps[0]);
      SoloRun(Next(s, steps[0]), steps[1..]);
    }
  }

  lemma {:induction false} RunSplit(s: State, p: seq<Step>, q: seq<Step>)
    ensures Run(s, p + q) == Run(Run(s, p), q)
    ensures OneAtATimeRun(s, p + q) <==> OneAtATimeRun(s, p) && OneAtATimeRun(Run(s, p), q)
    decreases |p|
  {
    if p == [] {
      assert p + q == q;
    } else {
      assert (p + q)[1..] == p[1..] + q && (p + q)[0] == p[0];
      RunSplit(Next(s, p[0]), p[1..], q);
    }
  }

  lemma RunTwo(s: State, x: Step, y: Step)
    ensures Run(s, [x, y]) == Next(Next(s, x), y)
  {
    hide Next;
    assert Run(s, [x, y]) == Run(Next(s, x), [y]) == Run(Next(Next(s, x), y), []);
  }

  lemma RunThree(s: State, x: Step, y: Step, z: Step)
    ensures Run(s, [x, y, z]) == Next(Next(Next(s, x), y), z)
  {
    hide Next;
    RunTwo(Next(s, x), y, z);
    assert [x, y, z][1..] == [y, z];
  }

  /** When calls do not overlap, a working credential is never lost: once an entry works it works
      at every later point of the run. */
  lemma WorkingIsForever(now: real, p: seq<Step>, q: seq<Step>)
    requires OneAtATimeRun(Init(now), p + q)
    ensures Working(Run(Init(now), p).entry) ==> Working(Run(Init(now), p + q).entry)
  {
    RunSplit(Init(now), p, q);
    SoloRun(Init(now), p);
    SoloRun(Run(Init(now), p), q);
  }

  /** When calls do not overlap, a full search starts for one of three reasons only: the IP was
      never cached, its marker is at least 5 ticks old, or its working credential has failed
      three counted times at least 30 s apart since the last recorded success. */
  lemma SearchesHaveAReason(now: real, steps: seq<Step>, step: Step, id: nat)
    requires OneAtATimeRun(Init(now), steps + [step])
    requires id in Run(Init(now), steps + [step]).searched && id !in Run(Init(now), steps).searched
    ensures Reason(Run(Init(now), steps), Run(Init(now), steps + [step]))
  {
    RunSplit(Init(now), steps, [step]);
    SoloRun(Init(now), steps);
    var s := Run(Init(now), steps);
    assert Run(s, [step]) == Run(Next(s, step), []);
    assert OneAtATimeRun(s, [step]) ==> OneAtATime(s, step);
    SoloStep(s, step);
  }

  // ----- exactly when a working credential is lost ------------------------------------

  /** The last credential of a search that began without a cached one gives no answer. */
  predicate BlindSearchEnds(s: State, step: Step) {
    match step
    case Trial(id, ok) => !ok && id in s.calls && s.calls[id].Search? && |s.calls[id].todo| == 1
      && !s.calls[id].wasCached
    case Wake(id, creds) => creds == [] && id in s.calls && MayResume(s.lock, id) && s.calls[id].AwaitSearch?
      && !s.calls[id].wasCached
    case _ => false
  }

  lemma ReachKeepsWorking(s: State, id: nat, evidence: seq<real>, creds: seq<Cred>)
    ensures ReachLock(s, id, true, evidence, creds).entry == s.entry
  {
  }

  lemma OthersKeepWorking(s: State, step: Step)
    requires Working(s.entry) && !step.Trial? && !step.Wake?
    ensures Working(Next(s, step).entry)
  {
    hide ReachLock;
    if Failed(s, step) {
      ReachKeepsWorking(CountFailure(s), step.id, CountFailure(s).failures, step.creds);
    }
  }

  lemma WakeLoses(s: State, step: Step)
    requires Working(s.entry) && step.Wake?
    ensures Marked(Next(s, step).entry) <==> BlindSearchEnds(s, step)
  {
  }

  lemma TrialLoses(s: State, step: Step)
    requires Working(s.entry) && step.Trial?
    ensures Marked(Next(s, step).entry) <==> BlindSearchEnds(s, step)
  {
  }

  /** In any state and under any overlap, a working entry turns into the marker exactly when a
      search that never saw it runs dry: line 802 does not look at the entry it overwrites. */
  lemma WorkingLostIff(s: State, step: Step)
    requires Working(s.entry)
    ensures Marked(Next(s, step).entry) <==> BlindSearchEnds(s, step)
  {
    hide Next;
    if step.Wake? {
      WakeLoses(s, step);
    } else if step.Trial? {
      TrialLoses(s, step);
    } else {
      OthersKeepWorking(s, step);
    }
  }

  /** A first search is waiting for its answer, and so is the check of a sibling's credential. */
  function BothUnderWay(now: real, tried: Cred, sibling: Cred): State {
    Init(now).(lock := Lock(Some(0), []), calls := map[0 := Search(false, [], [tried]), 1 := VerifySibling(sibling)],
               nextId := 2, searched := {0})
  }

  lemma OverlapRuns(now: real, tried: Cred, sibling: Cred)
    ensures Next(Next(Init(now), Query([tried])), Get(Some(sibling), [tried])) == BothUnderWay(now, tried, sibling)
  {
  }

  lemma SiblingStored(now: real, tried: Cred, sibling: Cred)
    ensures var s := Next(BothUnderWay(now, tried, sibling), Verified(1, true, [tried]));
            Working(s.entry) && Marked(Next(s, Trial(0, false)).entry)
  {
  }

  /** It happens: a sibling's credential is verified and stored while a first search, already
      under way with one community to try, is still waiting for its answer. */
  lemma OverlapLosesCredential(now: real, tried: Cred, sibling: Cred)
    ensures var found := [Query([tried]), Get(Some(sibling), [tried]), Verified(1, true, [tried])];
            && Working(Run(Init(now), found).entry)
            && Marked(Run(Init(now), found + [Trial(0, false)]).entry)
  {
    hide Next;
    var found := [Query([tried]), Get(Some(sibling), [tried]), Verified(1, true, [tried])];
    RunSplit(Init(now), found, [Trial(0, false)]);
    RunThree(Init(now), found[0], found[1], found[2]);
    OverlapRuns(now, tried, sibling);
    SiblingStored(now, tried, sibling);
    var s := Run(Init(now), found);
    assert Run(s, [Trial(0, false)]) == Run(Next(s, Trial(0, false)), []);
  }

  // ----- a search that waits without having seen a credential -------------------------

  /** The call waits for the lock to search, having seen no working entry. */
  predicate AwaitsBlind(calls: map<nat, Pc>, id: nat) { id in calls && calls[id].AwaitSearch? && !calls[id].wasCached }

  /** A search has released the lock and the first waiter has not run yet. */
  predicate HandOver(l: Lock) { l.holder.None? && l.waiters != [] }

  /** The tick stands 5 or more past the marker while a released lock waits for its next waiter. */
  predicate Overdue(s: State) {
    HandOver(s.lock) && s.entry.Some? && s.entry.value.Unresponsive? && s.tick - s.entry.value.atTick >= 5
  }

  /** The step brings the call to its look at the cache. */
  predicate Arrives(s: State, step: Step, id: nat) {
    match step
    case Query(_) => id == s.nextId
    case Get(sibling, _) => id == s.nextId && sibling.None?
    case Verified(v, ok, _) => id == v && !ok && id in s.calls && s.calls[id].VerifySibling?
    case _ => false
  }

  predicate SawEntry(pc: Pc) {
    match pc
    case AskCached(_) => true
    case AwaitSearch(wasCached, _) => wasCached
    case Search(wasCached, _, _) => wasCached
    case _ => false
  }

  /** Without an entry no call has seen one, and no search has released the lock yet. */
  ghost predicate NothingKnown(s: State) {
    !HandOver(s.lock) && forall id :: id in s.calls ==> !SawEntry(s.calls[id])
  }

  ghost predicate Known(s: State) { s.entry.None? ==> NothingKnown(s) }

  lemma StartKnown(s: State, id: nat, creds: seq<Cred>)
    requires Known(s)
    ensures Known(StartQuery(s, id, creds))
  {
  }

  lemma EntryStays(s: State, step: Step)
    requires s.entry.Some?
    ensures Next(s, step).entry.Some?
  {
    hide ReachLock, AfterTrial, StartQuery, StartGet, AfterCachedFailure;
    match step
    case Query(creds) => StartStays(s.(nextId := s.nextId + 1), s.nextId, creds);
    case Get(sibling, creds) => GetStays(s.(nextId := s.nextId + 1), s.nextId, sibling, creds);
    case Verified(id, ok, creds) => StartStays(s, id, creds);
    case CachedAnswer(id, ok, creds) => FailureStays(s, id, creds);
    case Trial(id, ok) => TrialStays(s, id, ok);
    case _ =>
  }

  lemma StartStays(s: State, id: nat, creds: seq<Cred>)
    requires s.entry.Some?
    ensures StartQuery(s, id, creds).entry.Some?
  {
  }

  lemma GetStays(s: State, id: nat, sibling: Option<Cred>, creds: seq<Cred>)
    requires s.entry.Some?
    ensures StartGet(s, id, sibling, creds).entry.Some?
  {
  }

  lemma FailureStays(s: State, id: nat, creds: seq<Cred>)
    requires s.entry.Some?
    ensures AfterCachedFailure(s, id, creds).entry.Some?
  {
  }

  lemma TrialStays(s: State, id: nat, ok: bool)
    requires s.entry.Some?
    ensures Next(s, Trial(id, ok)).entry.Some?
  {
  }

  /** The steps that look at the cache or end a search, with no entry there. */
  lemma UnknownCall(s: State, step: Step)
    requires s.entry.None? && NothingKnown(s)
    requires step.Query? || step.Get? || step.Verified?
    ensures Known(Next(s, step))
  {
    hide StartQuery;
    match step
    case Query(creds) => StartKnown(s.(nextId := s.nextId + 1), s.nextId, creds);
    case Get(sibling, creds) => StartKnown(s.(nextId := s.nextId + 1), s.nextId, creds);
    case Verified(id, ok, creds) => StartKnown(s, id, creds);
  }

  lemma UnknownSearch(s: State, step: Step)
    requires s.entry.None? && NothingKnown(s)
    requires !step.Query? && !step.Get? && !step.Verified?
    ensures Known(Next(s, step))
  {
    hide ReachLock, StartQuery, StartGet, StartSearch;
  }

  lemma StepKnown(s: State, step: Step)
    requires Known(s)
    ensures Known(Next(s, step))
  {
    hide Next, NothingKnown;
    if s.entry.Some? {
      EntryStays(s, step);
    } else if step.Query? || step.Get? || step.Verified? {
      UnknownCall(s, step);
    } else {
      UnknownSearch(s, step);
    }
  }

  lemma {:induction false} RunKnown(s: State, steps: seq<Step>)
    requires Known(s)
    ensures Known(Run(s, steps))
    decreases |steps|
  {
    hide Known, Next;
    if steps != [] {
      StepKnown(s, steps[0]);
      RunKnown(Next(s, steps[0]), steps[1..]);
    }
  }

  lemma BlindStart(s: State, caller: nat, creds: seq<Cred>, id: nat)
    requires Known(s) && !AwaitsBlind(s.calls, id)
    ensures AwaitsBlind(StartQuery(s, caller, creds).calls, id) <==> id == caller && Overdue(s)
  {
  }

  lemma BlindStep(s: State, step: Step, id: nat)
    requires Known(s) && !AwaitsBlind(s.calls, id)
    ensures AwaitsBlind(Next(s, step).calls, id) <==> Arrives(s, step, id) && Overdue(s)
  {
    hide StartQuery;
    match step
    case Query(creds) => BlindStart(s.(nextId := s.nextId + 1), s.nextId, creds, id);
    case Get(sibling, creds) => BlindStart(s.(nextId := s.nextId + 1), s.nextId, creds, id);
    case Verified(v, ok, creds) => BlindStart(s, v, creds, id);
    case _ => OthersDoNotWait(s, step, id);
  }

  lemma OthersDoNotWait(s: State, step: Step, id: nat)
    requires !step.Query? && !step.Get? && !step.Verified? && !AwaitsBlind(s.calls, id)
    ensures !AwaitsBlind(Next(s, step).calls, id)
  {
    hide Next;
    match step
    case CachedAnswer(caller, ok, creds) => FailureDoesNotWait(s, step, id);
    case Wake(caller, creds) => WakeDoesNotWait(s, step, id);
    case Trial(caller, ok) => TrialDoesNotWait(s, step, id);
    case _ => BackgroundDoesNotWait(s, step, id);
  }

  lemma ReachSeen(s: State, caller: nat, evidence: seq<real>, creds: seq<Cred>, id: nat)
    requires !AwaitsBlind(s.calls, id)
    ensures !AwaitsBlind(ReachLock(s, caller, true, evidence, creds).calls, id)
  {
  }

  lemma FailureDoesNotWait(s: State, step: Step, id: nat)
    requires step.CachedAnswer? && !AwaitsBlind(s.calls, id)
    ensures !AwaitsBlind(Next(s, step).calls, id)
  {
    hide ReachLock, StartQuery, StartGet, AfterTrial;
    var counted := CountFailure(s);
    ReachSeen(counted, step.id, counted.failures, step.creds, id);
  }

  lemma WakeDoesNotWait(s: State, step: Step, id: nat)
    requires step.Wake? && !AwaitsBlind(s.calls, id)
    ensures !AwaitsBlind(Next(s, step).calls, id)
  {
    hide ReachLock, StartQuery, StartGet, AfterTrial, AfterCachedFailure;
  }

  lemma TrialDoesNotWait(s: State, step: Step, id: nat)
    requires step.Trial? && !AwaitsBlind(s.calls, id)
    ensures !AwaitsBlind(Next(s, step).calls, id)
  {
    hide ReachLock, StartQuery, StartGet, StartSearch, AfterCachedFailure;
  }

  lemma BackgroundDoesNotWait(s: State, step: Step, id: nat)
    requires !AwaitsBlind(s.calls, id)
    requires Background(step) || step.ReusedAnswer?
    ensures !AwaitsBlind(Next(s, step).calls, id)
  {
    hide ReachLock, StartQuery, StartGet, StartSearch, AfterTrial, AfterCachedFailure;
  }

  /** Exactly when a call comes to wait for a blind search, in every run: when it looks at the cache
      after a search has released the lock and before the first waiter runs, and the marker it then
      sees is at least 5 ticks old. */
  lemma BlindWaitIff(now: real, steps: seq<Step>, step: Step, id: nat)
    requires !AwaitsBlind(Run(Init(now), steps).calls, id)
    ensures var s := Run(Init(now), steps);
            AwaitsBlind(Next(s, step).calls, id) <==> Arrives(s, step, id) && Overdue(s)
  {
    hide Run, Next, Known;
    NothingKnownYet(now);
    RunKnown(Init(now), steps);
    BlindStep(Run(Init(now), steps), step, id);
  }

  lemma NothingKnownYet(now: real)
    ensures Known(Init(now))
  {
  }

  lemma {:induction false} BlindOrigin(now: real, steps: seq<Step>, id: nat) returns (k: nat)
    requires AwaitsBlind(Run(Init(now), steps).calls, id)
    ensures k < |steps| && Arrives(At(now, steps, k), steps[k], id)
    ensures Overdue(At(now, steps, k))
    decreases |steps|
  {
    hide Next;
    var g := steps[..|steps| - 1];
    LastStep(now, steps);
    if AwaitsBlind(Run(Init(now), g).calls, id) {
      k := BlindOrigin(now, g, id);
    } else {
      k := |g|;
      BlindWaitIff(now, g, steps[|g|], id);
    }
  }

  /** The step begins a full search for the call. */
  predicate BeginsSearch(s: State, step: Step, id: nat) { id in Next(s, step).searched && id !in s.searched }

  lemma SearchOverWorking(s: State, step: Step, id: nat)
    requires Working(s.entry) && BeginsSearch(s, step, id)
    ensures Failed(s, step) || (step.Wake? && (AwaitsBlind(s.calls, id) || Researching(s.calls, id)))
  {
  }

  /** Under which ticks a search can begin over a working entry without having seen one: only if the
      run was overdue at some point before. Otherwise, however calls overlap, a search that begins over
      a working entry is the re-search of a call that saw it fail three times. */
  lemma BlindSearchNeedsTicks(now: real, steps: seq<Step>, step: Step, id: nat)
    requires Working(Run(Init(now), steps).entry) && BeginsSearch(Run(Init(now), steps), step, id)
    ensures var s := Run(Init(now), steps);
            || Failed(s, step) || (step.Wake? && Researching(s.calls, id))
            || exists k :: 0 <= k < |steps| && Overdue(At(now, steps, k))
  {
    hide Run, Next, Failed;
    var s := Run(Init(now), steps);
    SearchOverWorking(s, step, id);
    if AwaitsBlind(s.calls, id) {
      var k := BlindOrigin(now, steps, id);
      assert Overdue(At(now, steps, k));
    }
  }

  /** One call searches, one waits for it, one verifies a sibling's credential. */
  function Crowd(now: real, tried: Cred, sibling: Cred): State {
    Init(now).(lock := Lock(Some(0), [1]), nextId := 3, searched := {0}, sawHeld := {1},
               calls := map[0 := Search(false, [], [tried]), 1 := Follow, 2 := VerifySibling(sibling)])
  }

  /** The search ran dry and the tick moved on, before the waiting call runs. */
  function Released(now: real, tried: Cred, sibling: Cred): State {
    Crowd(now, tried, sibling).(entry := Some(Unresponsive(0)), lock := Lock(None, [1]), tick := 5,
                                calls := map[1 := Follow, 2 := VerifySibling(sibling)])
  }

  /** A new call waits blind, the sibling's credential is stored, and the waiting call reuses it. */
  function Overtaken(now: real, tried: Cred, sibling: Cred): State {
    Released(now, tried, sibling).(entry := Some(Works(sibling)), lock := Lock(None, [3]), nextId := 4,
                                   calls := map[1 := AskReused(sibling), 3 := AwaitSearch(false, [])])
  }

  lemma CrowdGathers(now: real, tried: Cred, sibling: Cred)
    ensures Next(Next(Next(Init(now), Query([tried])), Query([tried])), Get(Some(sibling), [tried]))
            == Crowd(now, tried, sibling)
  {
  }

  lemma SearchReleases(now: real, tried: Cred, sibling: Cred)
    ensures Next(Next(Crowd(now, tried, sibling), Trial(0, false)), SetTick(5)) == Released(now, tried, sibling)
  {
    var s := Crowd(now, tried, sibling);
    assert s.calls - {0} == map[1 := Follow, 2 := VerifySibling(sibling)];
  }

  function Queued(now: real, tried: Cred, sibling: Cred): State {
    Released(now, tried, sibling).(lock := Lock(None, [1, 3]), nextId := 4,
      calls := map[1 := Follow, 2 := VerifySibling(sibling), 3 := AwaitSearch(false, [])])
  }

  lemma CallQueues(now: real, tried: Cred, sibling: Cred)
    ensures Next(Released(now, tried, sibling), Query([tried])) == Queued(now, tried, sibling)
  {
  }

  lemma CallOvertakes(now: real, tried: Cred, sibling: Cred)
    ensures Next(Next(Queued(now, tried, sibling), Verified(2, true, [tried])), Wake(1, [tried]))
            == Overtaken(now, tried, sibling)
  {
    var s := Queued(now, tried, sibling);
    var s1 := Next(s, Verified(2, true, [tried]));
    assert s1 == s.(entry := Some(Works(sibling)), calls := map[1 := Follow, 3 := AwaitSearch(false, [])]);
    assert Next(s1, Wake(1, [tried])).calls == map[1 := AskReused(sibling), 3 := AwaitSearch(false, [])];
  }

  /** With such a tick it happens: a search that never saw the working entry begins over it, and if its
      one community gives no answer the entry is lost. */
  lemma BlindSearchOverWorking(now: real, tried: Cred, sibling: Cred)
    ensures var steps := [Query([tried]), Query([tried]), Get(Some(sibling), [tried])] + [Trial(0, false), SetTick(5)]
                         + [Query([tried]), Verified(2, true, [tried]), Wake(1, [tried])];
            var s := Run(Init(now), steps);
            && Working(s.entry) && AwaitsBlind(s.calls, 3) && BeginsSearch(s, Wake(3, [tried]), 3)
            && Marked(Next(Next(s, Wake(3, [tried])), Trial(3, false)).entry)
  {
    var a, b := [Query([tried]), Query([tried]), Get(Some(sibling), [tried])], [Trial(0, false), SetTick(5)];
    var c := [Query([tried]), Verified(2, true, [tried]), Wake(1, [tried])];
    assert Run(Init(now), a + b + c) == Overtaken(now, tried, sibling) by {
      hide Next;
      RunSplit(Init(now), a + b, c);
      RunSplit(Init(now), a, b);
      RunThree(Init(now), a[0], a[1], a[2]);
      CrowdGathers(now, tried, sibling);
      RunTwo(Crowd(now, tried, sibling), b[0], b[1]);
      SearchReleases(now, tried, sibling);
      RunThree(Released(now, tried, sibling), c[0], c[1], c[2]);
      CallQueues(now, tried, sibling);
      CallOvertakes(now, tried, sibling);
    }
    OvertakenSearches(now, tried, sibling);
  }

  lemma OvertakenSearches(now: real, tried: Cred, sibling: Cred)
    ensures var s := Overtaken(now, tried, sibling);
            && Working(s.entry) && AwaitsBlind(s.calls, 3) && BeginsSearch(s, Wake(3, [tried]), 3)
            && Marked(Next(Next(s, Wake(3, [tried])), Trial(3, false)).entry)
  {
  }

  // ----- what exactly is cached -------------------------------------------------------

  /** The credential whose success the step reports: the one on trial, the sibling's that was verified,
      or the one an upgrade found. */
  function Succeeds(s: State, step: Step): Option<Cred> {
    match step
    case Trial(id, ok) =>
      if ok && id in s.calls && s.calls[id].Search? && s.calls[id].todo != [] then Some(s.calls[id].todo[0]) else None
    case Verified(id, ok, _) =>
      if ok && id in s.calls && s.calls[id].VerifySibling? then Some(s.calls[id].cred) else None
    case UpgradeEnds(found, _) => if s.upgrading then found else None
    case _ => None
  }

  /** The step begins a search over an empty list of credentials without having seen a working entry. */
  predicate BeginsAndEnds(s: State, step: Step) {
    match step
    case Query(creds) => creds == [] && LooksUnknown(s) && Immediate(s.lock)
    case Get(sibling, creds) => creds == [] && sibling.None? && LooksUnknown(s) && Immediate(s.lock)
    case Verified(id, ok, creds) =>
      creds == [] && !ok && id in s.calls && s.calls[id].VerifySibling? && LooksUnknown(s) && Immediate(s.lock)
    case _ => false
  }

  /** No entry, or a marker at least 5 ticks old. */
  predicate LooksUnknown(s: State) {
    s.entry.None? || (s.entry.value.Unresponsive? && s.tick - s.entry.value.atTick >= 5)
  }

  lemma QueryEntry(s: State, id: nat, creds: seq<Cred>)
    ensures StartQuery(s, id, creds).entry ==
      if creds == [] && LooksUnknown(s) && Immediate(s.lock) then Some(Unresponsive(s.tick)) else s.entry
  {
  }

  lemma GetEntry(s: State, id: nat, sibling: Option<Cred>, creds: seq<Cred>)
    ensures StartGet(s, id, sibling, creds).entry == if sibling.Some? then s.entry else StartQuery(s, id, creds).entry
  {
    hide ReachLock;
  }

  lemma FailureEntry(s: State, id: nat, creds: seq<Cred>)
    ensures AfterCachedFailure(s, id, creds).entry == s.entry
  {
  }

  /** The entry after any step, from the step and the state before: a success stores exactly the credential
      that succeeded, a search without a cached credential that runs dry stamps the marker with the
      current tick, and no other step touches the entry. */
  lemma EntryAfter(s: State, step: Step)
    ensures Next(s, step).entry ==
      if Succeeds(s, step).Some? then Some(Works(Succeeds(s, step).value))
      else if BlindSearchEnds(s, step) || BeginsAndEnds(s, step) then Some(Unresponsive(s.tick))
      else s.entry
  {
    hide Next;
    match step
    case Query(_) => CallEntry(s, step);
    case Get(_, _) => CallEntry(s, step);
    case Verified(_, _, _) => CallEntry(s, step);
    case CachedAnswer(_, _, _) => CallEntry(s, step);
    case Wake(id, creds) => WakeEntry(s, id, creds);
    case Trial(id, ok) => TrialEntry(s, id, ok);
    case _ => TaskEntry(s, step);
  }

  lemma CallEntry(s: State, step: Step)
    requires step.Query? || step.Get? || step.Verified? || step.CachedAnswer?
    ensures Next(s, step).entry ==
      if Succeeds(s, step).Some? then Some(Works(Succeeds(s, step).value))
      else if BeginsAndEnds(s, step) then Some(Unresponsive(s.tick))
      else s.entry
  {
    hide StartQuery, StartGet, AfterCachedFailure, ReachLock, AfterTrial;
    match step
    case Query(creds) => QueryEntry(s.(nextId := s.nextId + 1), s.nextId, creds);
    case Get(sibling, creds) =>
      GetEntry(s.(nextId := s.nextId + 1), s.nextId, sibling, creds);
      QueryEntry(s.(nextId := s.nextId + 1), s.nextId, creds);
    case Verified(id, ok, creds) => QueryEntry(s, id, creds);
    case CachedAnswer(id, ok, creds) => FailureEntry(s, id, creds);
  }

  lemma WakeEntry(s: State, id: nat, creds: seq<Cred>)
    ensures Next(s, Wake(id, creds)).entry ==
      if BlindSearchEnds(s, Wake(id, creds)) then Some(Unresponsive(s.tick)) else s.entry
  {
    hide StartQuery, StartGet, AfterCachedFailure, ReachLock, AfterTrial;
  }

  lemma TrialEntry(s: State, id: nat, ok: bool)
    ensures Next(s, Trial(id, ok)).entry ==
      if Succeeds(s, Trial(id, ok)).Some? then Some(Works(Succeeds(s, Trial(id, ok)).value))
      else if BlindSearchEnds(s, Trial(id, ok)) then Some(Unresponsive(s.tick))
      else s.entry
  {
    hide StartQuery, StartGet, AfterCachedFailure, ReachLock;
  }

  lemma TaskEntry(s: State, step: Step)
    requires Background(step) || step.ReusedAnswer?
    ensures Next(s, step).entry ==
      if Succeeds(s, step).Some? then Some(Works(Succeeds(s, step).value)) else s.entry
  {
    hide StartQuery, StartGet, AfterCachedFailure, ReachLock, AfterTrial;
  }

  /** Over every interleaving: a cached credential was put there by a step of the run that reported the
      success of exactly this credential, and it has been the entry ever since. */
  lemma {:induction false} CachedCredentialSucceeded(now: real, steps: seq<Step>, c: Cred) returns (k: nat)
    requires Run(Init(now), steps).entry == Some(Works(c))
    ensures k < |steps| && Succeeds(At(now, steps, k), steps[k]) == Some(c)
    ensures forall j :: k < j <= |steps| ==> At(now, steps, j).entry == Some(Works(c))
    decreases |steps|
  {
    hide Next, Succeeds, BlindSearchEnds, BeginsAndEnds;
    var g := steps[..|steps| - 1];
    LastStep(now, steps);
    var s, step := Run(Init(now), g), steps[|g|];
    EntryAfter(s, step);
    assert steps[..|steps|] == steps;
    if Succeeds(s, step).Some? {
      k := |g|;
    } else {
      k := CachedCredentialSucceeded(now, g, c);
    }
  }

  /** And a marker was stamped by a search that ran dry at that very tick. */
  lemma {:induction false} MarkerWasStamped(now: real, steps: seq<Step>, tick: int) returns (k: nat)
    requires Run(Init(now), steps).entry == Some(Unresponsive(tick))
    ensures k < |steps| && At(now, steps, k).tick == tick
    ensures BlindSearchEnds(At(now, steps, k), steps[k]) || BeginsAndEnds(At(now, steps, k), steps[k])
    ensures forall j :: k < j <= |steps| ==> At(now, steps, j).entry == Some(Unresponsive(tick))
    decreases |steps|
  {
    hide Next, Succeeds, BlindSearchEnds, BeginsAndEnds;
    var g := steps[..|steps| - 1];
    LastStep(now, steps);
    var s, step := Run(Init(now), g), steps[|g|];
    EntryAfter(s, step);
    assert steps[..|steps|] == steps;
    if BlindSearchEnds(s, step) || BeginsAndEnds(s, step) {
      k := |g|;
    } else {
      k := MarkerWasStamped(now, g, tick);
    }
  }

  // ----- probes and upgrades ----------------------------------------------------------

  /** What the engine probes and the upgrade are to the calls, step by step: a v2c success of a search
      starts a probe, a probe that finds an engine schedules the upgrade, a scheduled upgrade can
      begin, one at a time, and its end takes it off the schedule. */
  lemma UpgradeAfter(s: State, step: Step)
    ensures var t := Next(s, step);
            var found := step.Trial? && Succeeds(s, step).Some? && Succeeds(s, step).value.V2c?;
            var done := step.ProbeDone? && s.probes > 0;
            && t.probes == s.probes + (if found then 1 else 0) - (if done then 1 else 0)
            && (t.scheduled <==> (s.scheduled || (done && step.hasEngine)) && !(step.UpgradeEnds? && s.upgrading))
            && (t.upgrading <==> (s.upgrading || (step.UpgradeStarts? && s.scheduled)) && !step.UpgradeEnds?)
  {
    hide StartSearch, AfterCachedFailure;
    match step
    case Query(creds) => CallUpgrades(s, step);
    case Get(_, _) => CallUpgrades(s, step);
    case Verified(_, _, _) => CallUpgrades(s, step);
    case CachedAnswer(_, _, _) => CallUpgrades(s, step);
    case Wake(_, _) => CallUpgrades(s, step);
    case _ =>
  }

  lemma CallUpgrades(s: State, step: Step)
    requires step.Query? || step.Get? || step.Verified? || step.CachedAnswer? || step.Wake?
    ensures SameUpgrades(s, Next(s, step))
  {
    hide StartQuery, StartSearch, AfterCachedFailure;
    var came := s.(nextId := s.nextId + 1);
    match step
    case Query(creds) => QueryUpgrades(came, s.nextId, creds);
    case Get(_, creds) => QueryUpgrades(came, s.nextId, creds);
    case Verified(id, _, creds) => QueryUpgrades(s, id, creds);
    case CachedAnswer(id, _, creds) => FailureUpgrades(s, id, creds);
    case Wake(id, creds) => WakeUpgrades(s, id, creds);
  }

  predicate SameUpgrades(s: State, t: State) {
    t.probes == s.probes && t.scheduled == s.scheduled && t.upgrading == s.upgrading
  }

  lemma QueryUpgrades(s: State, id: nat, creds: seq<Cred>)
    ensures SameUpgrades(s, StartQuery(s, id, creds))
  {
  }

  lemma FailureUpgrades(s: State, id: nat, creds: seq<Cred>)
    ensures SameUpgrades(s, AfterCachedFailure(s, id, creds))
  {
  }

  lemma WakeUpgrades(s: State, id: nat, creds: seq<Cred>)
    ensures SameUpgrades(s, Next(s, Wake(id, creds)))
  {
  }

  /** Over every interleaving an upgrade runs only for an address that answered a search with a v2c
      community and then a probe with an engine. */
  lemma {:induction false} UpgradeWasProbed(now: real, steps: seq<Step>) returns (i: nat, k: nat)
    requires var s := Run(Init(now), steps); s.scheduled || s.upgrading
    ensures i < k < |steps| && steps[k] == ProbeDone(true) && steps[i].Trial?
    ensures Succeeds(At(now, steps, i), steps[i]).Some? && Succeeds(At(now, steps, i), steps[i]).value.V2c?
    decreases |steps|
  {
    hide Next, Succeeds;
    var g := steps[..|steps| - 1];
    LastStep(now, steps);
    var s, step := Run(Init(now), g), steps[|g|];
    UpgradeAfter(s, step);
    if s.scheduled || s.upgrading {
      i, k := UpgradeWasProbed(now, g);
    } else {
      i := ProbeWasStarted(now, g);
      k := |g|;
    }
    assert steps[..i] == g[..i];
  }

  lemma {:induction false} ProbeWasStarted(now: real, steps: seq<Step>) returns (i: nat)
    requires Run(Init(now), steps).probes > 0
    ensures i < |steps| && steps[i].Trial?
    ensures Succeeds(At(now, steps, i), steps[i]).Some? && Succeeds(At(now, steps, i), steps[i]).value.V2c?
    decreases |steps|
  {
    hide Next, Succeeds;
    var g := steps[..|steps| - 1];
    LastStep(now, steps);
    var s, step := Run(Init(now), g), steps[|g|];
    UpgradeAfter(s, step);
    if s.probes > 0 {
      i := ProbeWasStarted(now, g);
    } else {
      i := |g|;
    }
    assert steps[..i] == g[..i];
  }

  // ----- what exactly is asked --------------------------------------------------------

  /** The call comes to this point by this step. */
  predicate Comes(s: State, t: State, id: nat) { id in t.calls && (id !in s.calls || s.calls[id] != t.calls[id]) }

  /** A call asks with the entry's credential as it stood when the call looked at the cache, and verifies
      the very credential its sibling query found. */
  lemma AsksWithTheEntry(s: State, step: Step, id: nat)
    requires Comes(s, Next(s, step), id)
    ensures var pc := Next(s, step).calls[id];
            && (pc.AskCached? || pc.AskReused? ==> s.entry == Some(Works(pc.cred)))
            && (pc.VerifySibling? ==> step.Get? && step.sibling == Some(pc.cred) && !Working(s.entry))
  {
    hide Next;
    match step
    case Query(_) => CallAsks(s, step, id);
    case Get(_, _) => CallAsks(s, step, id);
    case Verified(_, _, _) => CallAsks(s, step, id);
    case CachedAnswer(_, _, _) => FailureAsks(s, step, id);
    case _ => OtherAsks(s, step, id);
  }

  predicate AsksNothing(pc: Pc) { !pc.AskCached? && !pc.AskReused? && !pc.VerifySibling? }

  lemma ReachAsks(s: State, caller: nat, wasCached: bool, evidence: seq<real>, creds: seq<Cred>, id: nat)
    ensures Comes(s, ReachLock(s, caller, wasCached, evidence, creds), id) ==>
      AsksNothing(ReachLock(s, caller, wasCached, evidence, creds).calls[id])
  {
  }

  lemma CallAsks(s: State, step: Step, id: nat)
    requires (step.Query? || step.Get? || step.Verified?) && Comes(s, Next(s, step), id)
    ensures var pc := Next(s, step).calls[id];
            && (pc.AskCached? || pc.AskReused? ==> s.entry == Some(Works(pc.cred)))
            && (pc.VerifySibling? ==> step.Get? && step.sibling == Some(pc.cred) && !Working(s.entry))
  {
    hide ReachLock, AfterTrial, AfterCachedFailure;
    match step
    case Query(creds) => ReachAsks(s.(nextId := s.nextId + 1), s.nextId, false, [], creds, id);
    case Get(sibling, creds) => ReachAsks(s.(nextId := s.nextId + 1), s.nextId, false, [], creds, id);
    case Verified(v, ok, creds) => ReachAsks(s, v, false, [], creds, id);
  }

  lemma FailureAsks(s: State, step: Step, id: nat)
    requires step.CachedAnswer? && Comes(s, Next(s, step), id)
    ensures AsksNothing(Next(s, step).calls[id])
  {
    hide ReachLock, AfterTrial, StartQuery, StartGet;
    var counted := CountFailure(s);
    ReachAsks(counted, step.id, true, counted.failures, step.creds, id);
  }

  lemma OtherAsks(s: State, step: Step, id: nat)
    requires !step.Query? && !step.Get? && !step.Verified? && !step.CachedAnswer? && Comes(s, Next(s, step), id)
    ensures var pc := Next(s, step).calls[id];
            (pc.AskReused? && s.entry == Some(Works(pc.cred))) || AsksNothing(pc)
  {
    hide Next;
    match step
    case Wake(_, _) => WakeAsks(s, step, id);
    case Trial(_, _) => TrialAsks(s, step, id);
    case _ => TaskAsks(s, step, id);
  }

  lemma WakeAsks(s: State, step: Step, id: nat)
    requires step.Wake? && Comes(s, Next(s, step), id)
    ensures var pc := Next(s, step).calls[id];
            (pc.AskReused? && s.entry == Some(Works(pc.cred))) || AsksNothing(pc)
  {
    hide ReachLock, AfterCachedFailure, StartQuery, StartGet, AfterTrial;
  }

  lemma TrialAsks(s: State, step: Step, id: nat)
    requires step.Trial? && Comes(s, Next(s, step), id)
    ensures AsksNothing(Next(s, step).calls[id])
  {
    hide ReachLock, AfterCachedFailure, StartQuery, StartGet, StartSearch;
  }

  lemma TaskAsks(s: State, step: Step, id: nat)
    requires Background(step) || step.ReusedAnswer?
    ensures !Comes(s, Next(s, step), id)
  {
    hide ReachLock, AfterCachedFailure, StartQuery, StartGet, StartSearch, AfterTrial;
  }

  /** What a look at the cache leads to. A working credential is asked; a marker less than 5 ticks old
      ends the call; otherwise the call follows the search under way, queues behind a released
      lock, or searches, with the whole list it was given. */
  lemma QueryLooks(s: State, creds: seq<Cred>)
    requires Inv(s)
    ensures var id, t := s.nextId, Next(s, Query(creds));
            && (Working(s.entry) ==> id in t.calls && t.calls[id] == AskCached(s.entry.value.cred))
            && (!Working(s.entry) && !LooksUnknown(s) ==> t == s.(nextId := id + 1))
            && (LooksUnknown(s) && s.lock.holder.Some? ==> id in t.calls && t.calls[id] == Follow)
            && (LooksUnknown(s) && HandOver(s.lock) ==> id in t.calls && t.calls[id] == AwaitSearch(false, []))
            && (LooksUnknown(s) && Immediate(s.lock) ==> id in t.searched)
            && (LooksUnknown(s) && Immediate(s.lock) && creds != [] ==>
                  id in t.calls && t.calls[id] == Search(false, [], creds))
  {
    hide HeldBySearch, QueueIsWaiting, StreakIsHistory, ReprobesHaveEvidence, StartGet, AfterCachedFailure, AfterTrial;
    assert s.calls - {s.nextId} == s.calls;
  }

  /** get_working_credential returns a working credential, or nothing for a young marker, at once; else it
      verifies the sibling's credential if there is one, and queries if there is none. */
  lemma GetLooks(s: State, creds: seq<Cred>, sibling: Option<Cred>)
    requires Inv(s)
    ensures var id, t := s.nextId, Next(s, Get(sibling, creds));
            && (!LooksUnknown(s) ==> t == s.(nextId := id + 1))
            && (LooksUnknown(s) && sibling.Some? ==> id in t.calls && t.calls[id] == VerifySibling(sibling.value))
            && (LooksUnknown(s) && sibling.None? ==> t == Next(s, Query(creds)))
  {
    hide HeldBySearch, QueueIsWaiting, StreakIsHistory, ReprobesHaveEvidence, ReachLock, AfterCachedFailure, AfterTrial;
    assert s.calls - {s.nextId} == s.calls;
  }

  /** What an unanswered query with the cached credential leads to: it counts if the last count is at
      least 30 s back, and with three counted since the last recorded success, and only then, the call
      goes on to the lock to search. */
  lemma FailureResearchesIff(s: State, step: Step)
    requires Inv(s) && Failed(s, step)
    ensures var n, t := |s.failures|, Next(s, step);
            var counts := s.now - (if n == 0 then 0.0 else s.failures[n - 1]) >= 30.0;
            && t.failures == (if counts then s.failures + [s.now] else s.failures)
            && (step.id in t.calls || step.id in t.searched <==> |t.failures| >= 3)
            && t.entry == s.entry
  {
    hide HeldBySearch, QueueIsWaiting, ReprobesHaveEvidence;
    assert step.id !in s.searched;
  }

  /** The list a search begins with is the one configured as it begins. */
  lemma WokenSearchesAll(s: State, id: nat, creds: seq<Cred>)
    requires id in s.calls && s.calls[id].AwaitSearch? && MayResume(s.lock, id)
    ensures var t := Next(s, Wake(id, creds));
            && id in t.searched
            && (creds != [] ==>
                  id in t.calls && t.calls[id] == Search(s.calls[id].wasCached, s.calls[id].evidence, creds))
  {
  }

  function Misses(id: nat, k: nat): seq<Step> { seq(k, i => Trial(id, false)) }

  /** The search has only the credentials from `k` on left. */
  function OnTrial(s: State, id: nat, k: nat): State
    requires id in s.calls && s.calls[id].Search? && k <= |s.calls[id].todo|
  {
    s.(calls := s.calls[id := s.calls[id].(todo := s.calls[id].todo[k..])])
  }

  lemma NoneTried(s: State, id: nat)
    requires id in s.calls && s.calls[id].Search?
    ensures OnTrial(s, id, 0) == s
  {
    assert s.calls[id := s.calls[id].(todo := s.calls[id].todo[0..])] == s.calls;
  }

  lemma Miss(s: State, id: nat, k: nat)
    requires id in s.calls && s.calls[id].Search? && k + 1 < |s.calls[id].todo|
    ensures Next(OnTrial(s, id, k), Trial(id, false)) == OnTrial(s, id, k + 1)
  {
    hide StartQuery, StartGet, ReachLock, AfterCachedFailure, StartSearch;
    var t := OnTrial(s, id, k);
    assert t.calls[id].todo[1..] == s.calls[id].todo[k + 1..];
    assert t.calls[id := s.calls[id].(todo := s.calls[id].todo[k + 1..])] == OnTrial(s, id, k + 1).calls;
  }

  lemma Hit(s: State, id: nat, k: nat)
    requires id in s.calls && s.calls[id].Search? && k < |s.calls[id].todo|
    ensures var c := s.calls[id].todo[k];
            Next(OnTrial(s, id, k), Trial(id, true)) == s.(calls := s.calls - {id}, entry := Some(Works(c)),
              streak := None, failures := [], lock := s.lock.(holder := None),
              probes := s.probes + if c.V2c? then 1 else 0)
  {
    hide StartQuery, StartGet, ReachLock, AfterCachedFailure, StartSearch;
    assert OnTrial(s, id, k).calls - {id} == s.calls - {id};
  }

  lemma {:induction false} Missed(s: State, id: nat, k: nat)
    requires id in s.calls && s.calls[id].Search? && k < |s.calls[id].todo|
    ensures Run(s, Misses(id, k)) == OnTrial(s, id, k)
    decreases k
  {
    hide Next, OnTrial;
    if k > 0 {
      Missed(s, id, k - 1);
      assert Misses(id, k) == Misses(id, k - 1) + [Trial(id, false)];
      RunSplit(s, Misses(id, k - 1), [Trial(id, false)]);
      Miss(s, id, k - 1);
      var u := OnTrial(s, id, k - 1);
      assert Run(u, [Trial(id, false)]) == Run(Next(u, Trial(id, false)), []);
    } else {
      NoneTried(s, id);
    }
  }

  /** A search asks with its list in turn until one is answered: after `k` misses, which change nothing
      else, it asks with the credential `k`, whose answer caches it, clears the streak, releases the
      lock and, for v2c, starts a probe for a v3 engine. */
  lemma SearchAsksInTurn(s: State, id: nat, k: nat)
    requires id in s.calls && s.calls[id].Search? && k < |s.calls[id].todo|
    ensures var c, t := s.calls[id].todo[k], Run(s, Misses(id, k));
            && id in t.calls && t.calls[id].Search? && t.calls[id].todo == s.calls[id].todo[k..] && t.entry == s.entry
            && Next(t, Trial(id, true)) == s.(calls := s.calls - {id}, entry := Some(Works(c)), streak := None,
                 failures := [], lock := s.lock.(holder := None), probes := s.probes + if c.V2c? then 1 else 0)
  {
    hide Next, Run;
    Missed(s, id, k);
    Hit(s, id, k);
  }
}
