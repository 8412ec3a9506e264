/** The deferred SNMPv3 upgrade of src/engine/snmp_adapter.py as a protocol of interleaved tasks.

    Each step of the machine is the code between two awaits of one task, so two tasks can only
    interleave where the event loop can switch. The shared dicts and sets keep the source's
    names in camel case. The database answer "which node is this IP welded to" is the map
    `weld`; what the network answers is a parameter of the step that receives it. */
module V3Upgrade {
  import opened Common
  import opened SnmpCredential

  type Ip = string
  type NodeId = int

  const V3_UPGRADE_DEFER_TICKS := 3

  /** Keys of _NODE_V3_UPGRADE_LOCKS: one per welded node, or one private to an unwelded IP. */
  datatype Key = NodeKey(id: NodeId) | IpKey(ip: Ip)

  /** Where a live _run_deferred_v3_upgrade task is suspended. */
  datatype Pc =
    | Created
    | Queued(key: Key)
    | Cascading(key: Key, trials: seq<Cred>)

  datatype Task = Task(ip: Ip, pc: Pc)

  /** `tasks` are the live _run_deferred_v3_upgrade tasks and `probes` the _probe_and_schedule tasks
      waiting for an engine id. The last three are history: every IP whose cascade an upgrade task
      entered, how often any did, and every IP whose task died in its node lookup. */
  datatype State = State(
    cache: map<Ip, Entry>,
    deferred: map<Ip, int>,
    inFlight: set<Ip>,
    attempted: set<Ip>,
    capable: set<Ip>,
    tick: int,
    weld: map<Ip, NodeId>,
    locks: map<Key, Lock>,
    tasks: map<nat, Task>,
    probes: map<nat, Ip>,
    nextId: nat,
    ran: set<Ip>,
    entries: nat,
    lost: set<Ip>)

  function Init(weld: map<Ip, NodeId>): State {
    State(map[], map[], {}, {}, {}, 0, weld, map[], map[], map[], 0, {}, 0, {})
  }

  // ----- what the database says -------------------------------------------------------

  function KeyOf(weld: map<Ip, NodeId>, ip: Ip): Key {
    if ip in weld then NodeKey(weld[ip]) else IpKey(ip)
  }

  function Siblings(weld: map<Ip, NodeId>, ip: Ip): set<Ip> {
    set b | b in weld && b != ip && ip in weld && weld[b] == weld[ip]
  }

  /** Two addresses of one logical device. */
  predicate SameNode(weld: map<Ip, NodeId>, a: Ip, b: Ip) {
    a == b || b in Siblings(weld, a)
  }

  function LockAt(locks: map<Key, Lock>, k: Key): Lock { if k in locks then locks[k] else FREE }

  // ----- the code between awaits ------------------------------------------------------

  predicate Due(s: State, ip: Ip) { ip in s.deferred && s.deferred[ip] <= s.tick }

  /** _probe_and_schedule_v3_upgrade up to its await: nothing for an address that is scheduled or in
      flight. The task takes an id either way. */
  function StartProbe(s: State, ip: Ip): State {
    var started := s.(nextId := s.nextId + 1);
    if ip in s.deferred || ip in s.inFlight then started
    else started.(probes := s.probes[s.nextId := ip])
  }

  /** The rest of it, which does not look at the schedule again. */
  function EndProbe(s: State, id: nat, hasEngine: bool): State
    requires id in s.probes
  {
    var ip := s.probes[id];
    var over := s.(probes := s.probes - {id});
    if !hasEngine then over
    else over.(capable := s.capable + {ip}, deferred := s.deferred[ip := s.tick + V3_UPGRADE_DEFER_TICKS])
  }

  /** _maybe_trigger_deferred_v3_upgrade */
  function Trigger(s: State, ip: Ip): State {
    if !Due(s, ip) || ip in s.inFlight then s
    else s.(inFlight := s.inFlight + {ip}, tasks := s.tasks[s.nextId := Task(ip, Created)], nextId := s.nextId + 1)
  }

  /** check_due_v3_upgrades, over the copied key list */
  function TriggerAll(s: State, ips: seq<Ip>): State
    decreases |ips|
  {
    if ips == [] then s else TriggerAll(Trigger(s, ips[0]), ips[1..])
  }

  datatype Verdict = Reuse(cred: Cred) | Tried | Untried

  /** One turn of the sibling loop. */
  function Look(s: State, sibling: Ip): Verdict {
    if sibling in s.cache && s.cache[sibling].Works? && s.cache[sibling].cred.V3? then Reuse(s.cache[sibling].cred)
    else if sibling in s.attempted then Tried
    else Untried
  }

  /** The whole sibling loop: the first sibling with an answer decides. */
  function Consult(s: State, siblings: seq<Ip>): Verdict {
    if siblings == [] then Untried
    else if Look(s, siblings[0]) != Untried then Look(s, siblings[0])
    else Consult(s, siblings[1..])
  }

  /** The finally block and the release of the node lock. */
  function Finish(s: State, id: nat, k: Key): State
    requires id in s.tasks
  {
    var ip := s.tasks[id].ip;
    s.(attempted := s.attempted + {ip}, deferred := s.deferred - {ip}, inFlight := s.inFlight - {ip},
       tasks := s.tasks - {id}, locks := s.locks[k := LockAt(s.locks, k).(holder := None)])
  }

  /** From the grant of the node lock to the first await of the cascade, or to the end. */
  function Enter(s: State, id: nat, k: Key, siblings: seq<Ip>, trials: seq<Cred>): State
    requires id in s.tasks
  {
    var ip := s.tasks[id].ip;
    match Consult(s, siblings)
    case Reuse(cred) => Finish(s.(cache := s.cache[ip := Works(cred)]), id, k)
    case Tried => Finish(s, id, k)
    case Untried =>
      var began := s.(ran := s.ran + {ip}, entries := s.entries + 1);
      if trials == [] then Finish(began, id, k)
      else began.(tasks := s.tasks[id := Task(ip, Cascading(k, trials))],
                  locks := s.locks[k := LockAt(s.locks, k).(holder := Some(id))])
  }

  /** The await inside _try_v3_cascade returns. */
  function Answer(s: State, id: nat, ok: bool): State
    requires id in s.tasks && s.tasks[id].pc.Cascading? && s.tasks[id].pc.trials != []
  {
    var Task(ip, Cascading(k, trials)) := s.tasks[id];
    if ok then Finish(s.(cache := s.cache[ip := Works(trials[0])]), id, k)
    else if |trials| == 1 then Finish(s, id, k)
    else s.(tasks := s.tasks[id := Task(ip, Cascading(k, trials[1..]))])
  }

  // ----- the machine ------------------------------------------------------------------

  /** `siblings` is the row list the query returned and `readable` says whether the node
      lookup worked: sqlite3.OperationalError turns them into [] and the private key. Any other
      exception kills the task in the node lookup (NodeFault), which is before its try, and ends it
      by its finally block in the sibling lookup (SiblingFault) or in the cascade (Fault). */
  datatype Step =
    | SetTick(tick: int)
    | Touch(ip: Ip)
    | CheckDue(order: seq<Ip>)
    | ProbeStart(ip: Ip)
    | ProbeAnswer(id: nat, hasEngine: bool)
    | Begin(id: nat, readable: bool, siblings: seq<Ip>, trials: seq<Cred>)
    | Resume(id: nat, siblings: seq<Ip>, trials: seq<Cred>)
    | CascadeAnswer(id: nat, ok: bool)
    | NodeFault(id: nat)
    | SiblingFault(id: nat, readable: bool)
    | Fault(id: nat)
    | OtherWrite(ip: Ip, entry: Entry)
    | Reweld(weld: map<Ip, NodeId>)

  /** Steps of a task that is not there, or not at that point, do nothing. */
  predicate Idle(s: State, step: Step) {
    match step
    case Begin(id, _, _, _) => id !in s.tasks || !s.tasks[id].pc.Created?
    case Resume(id, _, _) =>
      id !in s.tasks || !s.tasks[id].pc.Queued? || !MayResume(LockAt(s.locks, s.tasks[id].pc.key), id)
    case CascadeAnswer(id, _) => id !in s.tasks || !s.tasks[id].pc.Cascading? || s.tasks[id].pc.trials == []
    case NodeFault(id) => id !in s.tasks || !s.tasks[id].pc.Created?
    case SiblingFault(id, readable) =>
      || id !in s.tasks || s.tasks[id].pc.Cascading?
      || (s.tasks[id].pc.Queued? && !MayResume(LockAt(s.locks, s.tasks[id].pc.key), id))
      || (s.tasks[id].pc.Created?
          && !Immediate(LockAt(s.locks, if readable then KeyOf(s.weld, s.tasks[id].ip) else IpKey(s.tasks[id].ip))))
    case Fault(id) => id !in s.tasks || !s.tasks[id].pc.Cascading?
    case ProbeAnswer(id, _) => id !in s.probes
    case _ => false
  }

  /** The state in which the first waiter has been woken. */
  function Woken(s: State, k: Key): State
    requires LockAt(s.locks, k).waiters != []
  {
    s.(locks := s.locks[k := LockAt(s.locks, k).(waiters := LockAt(s.locks, k).waiters[1..])])
  }

  function Next(s: State, step: Step): State {
    match step
    case SetTick(t) => s.(tick := t)
    case Touch(ip) => Trigger(s, ip)
    case CheckDue(order) => TriggerAll(s, order)
    case ProbeStart(ip) => StartProbe(s, ip)
    case ProbeAnswer(id, hasEngine) => if id in s.probes then EndProbe(s, id, hasEngine) else s
    case Begin(id, readable, siblings, trials) =>
      if id !in s.tasks || !s.tasks[id].pc.Created? then s
      else
        var ip := s.tasks[id].ip;
        var k := if readable then KeyOf(s.weld, ip) else IpKey(ip);
        var l := LockAt(s.locks, k);
        if Immediate(l) then Enter(s, id, k, siblings, trials)
        else s.(tasks := s.tasks[id := Task(ip, Queued(k))], locks := s.locks[k := l.(waiters := l.waiters + [id])])
    case Resume(id, siblings, trials) =>
      if id !in s.tasks || !s.tasks[id].pc.Queued? then s
      else
        var k := s.tasks[id].pc.key;
        var l := LockAt(s.locks, k);
        if !MayResume(l, id) then s
        else Enter(s.(locks := s.locks[k := l.(waiters := l.waiters[1..])]), id, k, siblings, trials)
    case CascadeAnswer(id, ok) =>
      if id !in s.tasks || !s.tasks[id].pc.Cascading? || s.tasks[id].pc.trials == [] then s else Answer(s, id, ok)
    case NodeFault(id) =>
      if id !in s.tasks || !s.tasks[id].pc.Created? then s
      else s.(tasks := s.tasks - {id}, lost := s.lost + {s.tasks[id].ip})
    case SiblingFault(id, readable) =>
      if Idle(s, step) then s
      else if s.tasks[id].pc.Created? then
        Finish(s, id, if readable then KeyOf(s.weld, s.tasks[id].ip) else IpKey(s.tasks[id].ip))
      else Finish(Woken(s, s.tasks[id].pc.key), id, s.tasks[id].pc.key)
    case Fault(id) =>
      if id !in s.tasks || !s.tasks[id].pc.Cascading? then s else Finish(s, id, s.tasks[id].pc.key)
    case OtherWrite(ip, entry) => s.(cache := s.cache[ip := entry])
    case Reweld(weld) => s.(weld := weld)
  }

  function Run(s: State, steps: seq<Step>): State
    decreases |steps|
  {
    if steps == [] then s else Run(Next(s, steps[0]), steps[1..])
  }

  // ----- what every reachable state satisfies -----------------------------------------

  type Tasks = map<nat, Task>
  type Locks = map<Key, Lock>

  /** Live tasks are exactly the given addresses, one task each. */
  ghost predicate OneTaskEach(tasks: Tasks, nextId: nat, inFlight: set<Ip>) {
    && (forall id :: id in tasks ==> id < nextId && tasks[id].ip in inFlight)
    && (forall a, b :: a in tasks && b in tasks && tasks[a].ip == tasks[b].ip ==> a == b)
    && (forall ip :: ip in inFlight ==> HasTask(tasks, ip))
  }

  ghost predicate HasTask(tasks: Tasks, ip: Ip) { exists id :: id in tasks && tasks[id].ip == ip }

  /** A lock is held exactly by its cascading task. */
  ghost predicate HeldByCascade(tasks: Tasks, locks: Locks) {
    && (forall id :: id in tasks && tasks[id].pc.Cascading? ==>
          tasks[id].pc.trials != [] && LockAt(locks, tasks[id].pc.key).holder == Some(id))
    && (forall k :: LockAt(locks, k).holder.Some? ==>
          var id := LockAt(locks, k).holder.value; id in tasks && tasks[id].pc.Cascading? && tasks[id].pc.key == k)
  }

  /** A lock is awaited exactly by its queued tasks. */
  ghost predicate AwaitedByQueue(tasks: Tasks, locks: Locks) {
    && (forall id :: id in tasks && tasks[id].pc.Queued? ==> id in LockAt(locks, tasks[id].pc.key).waiters)
    && (forall k, id :: id in LockAt(locks, k).waiters ==> id in tasks && tasks[id].pc == Queued(k))
    && (forall k :: NoDuplicates(LockAt(locks, k).waiters))
  }

  ghost predicate Inv(s: State) {
    && OneTaskEach(s.tasks, s.nextId, s.inFlight - s.lost)
    && s.lost <= s.inFlight <= s.deferred.Keys
    && (forall id :: id in s.probes ==> id < s.nextId)
    && HeldByCascade(s.tasks, s.locks)
    && AwaitedByQueue(s.tasks, s.locks)
  }

  lemma SameKey(weld: map<Ip, NodeId>, a: Ip, b: Ip)
    ensures KeyOf(weld, a) == KeyOf(weld, b) <==> SameNode(weld, a, b)
  {
  }

  lemma {:induction false} ConsultUntried(s: State, siblings: seq<Ip>)
    requires Consult(s, siblings) == Untried
    ensures forall b :: b in siblings ==> Look(s, b) == Untried
  {
    if siblings != [] {
      ConsultUntried(s, siblings[1..]);
      assert forall b :: b in siblings ==> b == siblings[0] || b in siblings[1..];
    }
  }

  // ----- how the pieces move ----------------------------------------------------------

  lemma AddUnlocked(tasks: Tasks, locks: Locks, id: nat, ip: Ip)
    requires HeldByCascade(tasks, locks) && AwaitedByQueue(tasks, locks) && id !in tasks
    ensures HeldByCascade(tasks[id := Task(ip, Created)], locks)
    ensures AwaitedByQueue(tasks[id := Task(ip, Created)], locks)
  {
  }

  lemma DropUnlocked(tasks: Tasks, locks: Locks, id: nat)
    requires HeldByCascade(tasks, locks) && AwaitedByQueue(tasks, locks) && id in tasks && tasks[id].pc.Created?
    ensures HeldByCascade(tasks - {id}, locks) && AwaitedByQueue(tasks - {id}, locks)
  {
  }

  lemma AddTask(tasks: Tasks, nextId: nat, inFlight: set<Ip>, ip: Ip)
    requires OneTaskEach(tasks, nextId, inFlight) && ip !in inFlight
    ensures nextId !in tasks && OneTaskEach(tasks[nextId := Task(ip, Created)], nextId + 1, inFlight + {ip})
  {
    var t := tasks[nextId := Task(ip, Created)];
    assert nextId !in tasks;
    forall a | a in inFlight + {ip} ensures HasTask(t, a) {
      if a == ip {
        assert t[nextId].ip == a;
      } else {
        assert HasTask(tasks, a);
        var id :| id in tasks && tasks[id].ip == a;
        assert id in t && t[id].ip == a;
      }
    }
  }

  lemma DropTask(tasks: Tasks, nextId: nat, inFlight: set<Ip>, id: nat)
    requires OneTaskEach(tasks, nextId, inFlight) && id in tasks
    ensures tasks[id].ip in inFlight && OneTaskEach(tasks - {id}, nextId, inFlight - {tasks[id].ip})
  {
    forall a | a in inFlight - {tasks[id].ip} ensures HasTask(tasks - {id}, a) {
      assert HasTask(tasks, a);
      var j :| j in tasks && tasks[j].ip == a;
      assert j in tasks - {id} && (tasks - {id})[j].ip == a;
    }
  }

  lemma MoveTask(tasks: Tasks, nextId: nat, inFlight: set<Ip>, id: nat, pc: Pc)
    requires OneTaskEach(tasks, nextId, inFlight) && id in tasks
    ensures OneTaskEach(tasks[id := Task(tasks[id].ip, pc)], nextId, inFlight)
  {
    var t := tasks[id := Task(tasks[id].ip, pc)];
    forall a | a in inFlight ensures HasTask(t, a) {
      assert HasTask(tasks, a);
      var j :| j in tasks && tasks[j].ip == a;
      assert j in t && t[j].ip == a;
    }
  }

  lemma IdsGrow(tasks: Tasks, nextId: nat, inFlight: set<Ip>)
    requires OneTaskEach(tasks, nextId, inFlight)
    ensures OneTaskEach(tasks, nextId + 1, inFlight)
  {
  }

  /** Task `id` is running between two awaits with lock `k` granted and not yet marked held. */
  ghost predicate Granted(tasks: Tasks, locks: Locks, id: nat, k: Key) {
    && id in tasks
    && LockAt(locks, k).holder.None?
    && HeldByCascade(tasks[id := Task(tasks[id].ip, Created)], locks)
    && AwaitedByQueue(tasks[id := Task(tasks[id].ip, Created)], locks)
  }

  lemma GrantAtOnce(tasks: Tasks, locks: Locks, id: nat, k: Key)
    requires HeldByCascade(tasks, locks) && AwaitedByQueue(tasks, locks)
    requires id in tasks && tasks[id].pc.Created? && LockAt(locks, k).holder.None?
    ensures Granted(tasks, locks, id, k)
  {
    assert tasks[id := Task(tasks[id].ip, Created)] == tasks;
  }

  lemma GrantFirstWaiter(tasks: Tasks, locks: Locks, id: nat, k: Key)
    requires HeldByCascade(tasks, locks) && AwaitedByQueue(tasks, locks)
    requires id in tasks && tasks[id].pc == Queued(k) && MayResume(LockAt(locks, k), id)
    ensures Granted(tasks, locks[k := LockAt(locks, k).(waiters := LockAt(locks, k).waiters[1..])], id, k)
  {
    var t := tasks[id := Task(tasks[id].ip, Created)];
    var ws := LockAt(locks, k).waiters;
    var l := locks[k := LockAt(locks, k).(waiters := ws[1..])];
    assert forall j :: j != k ==> LockAt(l, j) == LockAt(locks, j);
    assert id !in ws[1..];
    assert forall i :: i in ws <==> i == id || i in ws[1..];
    forall j ensures NoDuplicates(LockAt(l, j).waiters) {
      assert NoDuplicates(LockAt(locks, j).waiters);
    }
  }

  lemma GrantAfterCascade(tasks: Tasks, locks: Locks, id: nat, k: Key)
    requires HeldByCascade(tasks, locks) && AwaitedByQueue(tasks, locks)
    requires id in tasks && tasks[id].pc.Cascading? && tasks[id].pc.key == k
    ensures Granted(tasks, locks[k := LockAt(locks, k).(holder := None)], id, k)
  {
    var l := locks[k := LockAt(locks, k).(holder := None)];
    assert forall j :: LockAt(l, j).waiters == LockAt(locks, j).waiters;
    assert forall j :: j != k ==> LockAt(l, j) == LockAt(locks, j);
    forall j ensures NoDuplicates(LockAt(l, j).waiters) {
      assert NoDuplicates(LockAt(locks, j).waiters);
    }
  }

  lemma HoldGranted(tasks: Tasks, locks: Locks, id: nat, k: Key, trials: seq<Cred>)
    requires Granted(tasks, locks, id, k) && trials != []
    ensures HeldByCascade(tasks[id := Task(tasks[id].ip, Cascading(k, trials))],
      locks[k := LockAt(locks, k).(holder := Some(id))])
    ensures AwaitedByQueue(tasks[id := Task(tasks[id].ip, Cascading(k, trials))],
      locks[k := LockAt(locks, k).(holder := Some(id))])
  {
    var r := tasks[id := Task(tasks[id].ip, Created)];
    var t := tasks[id := Task(tasks[id].ip, Cascading(k, trials))];
    var l := locks[k := LockAt(locks, k).(holder := Some(id))];
    assert forall i :: i in t && i != id ==> i in r && t[i] == r[i];
    assert forall j :: LockAt(l, j).waiters == LockAt(locks, j).waiters;
    assert forall j :: j != k ==> LockAt(l, j) == LockAt(locks, j);
    forall j, i | i in LockAt(l, j).waiters ensures i in t && t[i].pc == Queued(j) {
      assert i in LockAt(locks, j).waiters;
      assert i in r && r[i].pc == Queued(j);
    }
    forall j ensures NoDuplicates(LockAt(l, j).waiters) {
      assert NoDuplicates(LockAt(locks, j).waiters);
    }
  }

  lemma DropGranted(tasks: Tasks, locks: Locks, id: nat, k: Key)
    requires Granted(tasks, locks, id, k)
    ensures HeldByCascade(tasks - {id}, locks[k := LockAt(locks, k).(holder := None)])
    ensures AwaitedByQueue(tasks - {id}, locks[k := LockAt(locks, k).(holder := None)])
  {
    var r := tasks[id := Task(tasks[id].ip, Created)];
    var t := tasks - {id};
    var l := locks[k := LockAt(locks, k).(holder := None)];
    assert forall i :: i in t ==> i in r && t[i] == r[i];
    assert forall i :: i in r && i != id ==> i in t;
    assert forall j :: LockAt(l, j) == LockAt(locks, j);
    forall i | i in t && t[i].pc.Queued? ensures i in LockAt(l, t[i].pc.key).waiters {
      assert i in r && r[i] == t[i];
    }
    forall j, i | i in LockAt(l, j).waiters ensures i in t && t[i].pc == Queued(j) {
      assert i in LockAt(locks, j).waiters;
      assert i in r && r[i].pc == Queued(j);
    }
    forall j ensures NoDuplicates(LockAt(l, j).waiters) {
      assert NoDuplicates(LockAt(locks, j).waiters);
    }
  }

  lemma JoinQueue(tasks: Tasks, locks: Locks, id: nat, k: Key)
    requires HeldByCascade(tasks, locks) && AwaitedByQueue(tasks, locks)
    requires id in tasks && tasks[id].pc.Created?
    ensures HeldByCascade(tasks[id := Task(tasks[id].ip, Queued(k))],
      locks[k := LockAt(locks, k).(waiters := LockAt(locks, k).waiters + [id])])
    ensures AwaitedByQueue(tasks[id := Task(tasks[id].ip, Queued(k))],
      locks[k := LockAt(locks, k).(waiters := LockAt(locks, k).waiters + [id])])
  {
    var ws := LockAt(locks, k).waiters;
    var t := tasks[id := Task(tasks[id].ip, Queued(k))];
    var l := locks[k := LockAt(locks, k).(waiters := ws + [id])];
    assert forall j :: j != k ==> LockAt(l, j) == LockAt(locks, j);
    assert id !in ws;
    assert forall i :: i in ws + [id] <==> i in ws || i == id;
    forall j ensures NoDuplicates(LockAt(l, j).waiters) {
      assert NoDuplicates(LockAt(locks, j).waiters);
    }
  }

  // ----- every step keeps Inv ---------------------------------------------------------

  lemma TriggerKeeps(s: State, ip: Ip)
    requires Inv(s)
    ensures Inv(Trigger(s, ip))
    ensures Due(s, ip) ==> ip in Trigger(s, ip).inFlight
    ensures s.inFlight <= Trigger(s, ip).inFlight
  {
    hide OneTaskEach, HeldByCascade, AwaitedByQueue;
    if Due(s, ip) && ip !in s.inFlight {
      AddTask(s.tasks, s.nextId, s.inFlight - s.lost, ip);
      assert s.inFlight + {ip} - s.lost == s.inFlight - s.lost + {ip};
      AddUnlocked(s.tasks, s.locks, s.nextId, ip);
    }
  }

  /** What triggering an address means: if due it is in flight afterwards, and every other address is as
      before; it gains a task exactly if it is due, had none and lost none to its node lookup; no
      task is disturbed, nothing but tasks and in-flight set changes, and the invariant is kept. */
  ghost predicate Triggered(s: State, t: State, ip: Ip) {
    && (Inv(s) ==> Inv(t))
    && (forall a :: a in t.inFlight <==>
          a in s.inFlight || (a == ip && ip in s.deferred && s.deferred[ip] <= s.tick))
    && (Inv(s) ==> (HasTask(t.tasks, ip) <==>
          HasTask(s.tasks, ip) || (ip in s.deferred && s.deferred[ip] <= s.tick && ip !in s.lost)))
    && (forall id :: id in s.tasks && id < s.nextId ==> id in t.tasks && t.tasks[id] == s.tasks[id])
    && t == s.(inFlight := t.inFlight, tasks := t.tasks, nextId := t.nextId)
  }

  lemma TriggeredBy(s: State, ip: Ip)
    ensures Triggered(s, Trigger(s, ip), ip)
  {
    hide Inv, HasTask;
    if Inv(s) {
      TriggerKeeps(s, ip);
      TriggerTasks(s, ip);
    }
  }

  lemma TriggerTasks(s: State, ip: Ip)
    requires Inv(s)
    ensures HasTask(Trigger(s, ip).tasks, ip) <==> HasTask(s.tasks, ip) || (Due(s, ip) && ip !in s.lost)
  {
    TriggerKeeps(s, ip);
    assert ip in s.inFlight - s.lost <==> HasTask(s.tasks, ip);
    assert ip in Trigger(s, ip).inFlight - s.lost <==> HasTask(Trigger(s, ip).tasks, ip);
  }

  lemma {:induction false} TriggerAllKeeps(s: State, ips: seq<Ip>)
    requires Inv(s)
    ensures Inv(TriggerAll(s, ips))
    ensures TriggerAll(s, ips).deferred == s.deferred && TriggerAll(s, ips).tick == s.tick
    ensures forall ip :: ip in ips && Due(s, ip) ==> ip in TriggerAll(s, ips).inFlight
    ensures forall ip :: ip in TriggerAll(s, ips).inFlight ==> ip in s.inFlight || (ip in ips && Due(s, ip))
    ensures s.inFlight <= TriggerAll(s, ips).inFlight
    decreases |ips|
  {
    hide Inv;
    if ips != [] {
      TriggerKeeps(s, ips[0]);
      TriggerAllKeeps(Trigger(s, ips[0]), ips[1..]);
      assert forall ip :: ip in ips ==> ip == ips[0] || ip in ips[1..];
    }
  }

  ghost predicate GrantedIn(s: State, id: nat, k: Key) {
    && OneTaskEach(s.tasks, s.nextId, s.inFlight - s.lost) && s.lost <= s.inFlight <= s.deferred.Keys
    && (forall p :: p in s.probes ==> p < s.nextId)
    && Granted(s.tasks, s.locks, id, k)
  }

  lemma FinishKeeps(s: State, id: nat, k: Key)
    requires GrantedIn(s, id, k)
    ensures Inv(Finish(s, id, k))
  {
    hide OneTaskEach, HeldByCascade, AwaitedByQueue;
    DropTask(s.tasks, s.nextId, s.inFlight - s.lost, id);
    DropGranted(s.tasks, s.locks, id, k);
    assert s.inFlight - {s.tasks[id].ip} - s.lost == s.inFlight - s.lost - {s.tasks[id].ip};
  }

  lemma EnterKeeps(s: State, id: nat, k: Key, siblings: seq<Ip>, trials: seq<Cred>)
    requires GrantedIn(s, id, k)
    ensures Inv(Enter(s, id, k, siblings, trials))
  {
    hide OneTaskEach, HeldByCascade, AwaitedByQueue, Finish, Consult;
    var ip := s.tasks[id].ip;
    match Consult(s, siblings)
    case Reuse(cred) => FinishKeeps(s.(cache := s.cache[ip := Works(cred)]), id, k);
    case Tried => FinishKeeps(s, id, k);
    case Untried =>
      if trials == [] {
        FinishKeeps(s.(ran := s.ran + {ip}, entries := s.entries + 1), id, k);
      } else {
        MoveTask(s.tasks, s.nextId, s.inFlight - s.lost, id, Cascading(k, trials));
        HoldGranted(s.tasks, s.locks, id, k, trials);
      }
  }

  /** What finishing task `id` means: its address is on record, no longer scheduled or in flight, and
      has no task if it had only this one; the lock is free with its queue as it was; no other
      address, task or lock changes, and no credential; and the invariant holds if it did. */
  ghost predicate Finished(s: State, t: State, id: nat, k: Key)
    requires id in s.tasks
  {
    && AddressFinished(s, t, s.tasks[id].ip)
    && (Inv(s) ==> !HasTask(t.tasks, s.tasks[id].ip))
    && (forall j :: j in s.tasks && j != id ==> j in t.tasks && t.tasks[j] == s.tasks[j])
    && LockAt(t.locks, k) == Lock(None, LockAt(s.locks, k).waiters)
    && (forall j :: j != k ==> LockAt(t.locks, j) == LockAt(s.locks, j))
    && t.cache == s.cache && t.tick == s.tick && t.capable == s.capable
    && (Inv(s) && s.tasks[id].pc.Cascading? && s.tasks[id].pc.key == k ==> Inv(t))
  }

  ghost predicate AddressFinished(s: State, t: State, ip: Ip) {
    && ip in t.attempted && ip !in t.deferred && ip !in t.inFlight
    && (forall a :: a != ip ==> (a in t.attempted <==> a in s.attempted) && (a in t.inFlight <==> a in s.inFlight))
    && (forall a :: a != ip ==> (a in t.deferred <==> a in s.deferred))
    && (forall a :: a != ip && a in s.deferred ==> t.deferred[a] == s.deferred[a])
  }

  /** The end of a cascade: Finish as seen from the state where the lock is still held. */
  lemma FinishCascadeKeeps(s: State, id: nat)
    requires Inv(s) && id in s.tasks && s.tasks[id].pc.Cascading?
    ensures Inv(Finish(s, id, s.tasks[id].pc.key))
  {
    hide OneTaskEach, HeldByCascade, AwaitedByQueue, Granted;
    var k := s.tasks[id].pc.key;
    var freed := s.(locks := s.locks[k := LockAt(s.locks, k).(holder := None)]);
    GrantAfterCascade(s.tasks, s.locks, id, k);
    FinishKeeps(freed, id, k);
    assert freed.locks[k := LockAt(freed.locks, k).(holder := None)] ==
      s.locks[k := LockAt(s.locks, k).(holder := None)];
    assert Finish(freed, id, k) == Finish(s, id, k);
  }

  lemma FinishedBy(s: State, id: nat, k: Key)
    requires id in s.tasks
    ensures Finished(s, Finish(s, id, k), id, k)
  {
    hide Inv;
    var t := Finish(s, id, k);
    assert AddressFinished(s, t, s.tasks[id].ip);
    if Inv(s) {
      NoTaskLeft(s, id);
    }
    if Inv(s) && s.tasks[id].pc.Cascading? && s.tasks[id].pc.key == k {
      FinishCascadeKeeps(s, id);
    }
  }

  lemma NoTaskLeft(s: State, id: nat)
    requires Inv(s) && id in s.tasks
    ensures !HasTask(s.tasks - {id}, s.tasks[id].ip)
  {
    hide HeldByCascade, AwaitedByQueue;
  }

  lemma AnswerKeeps(s: State, id: nat, ok: bool)
    requires Inv(s) && id in s.tasks && s.tasks[id].pc.Cascading? && s.tasks[id].pc.trials != []
    ensures Inv(Answer(s, id, ok))
  {
    hide Inv, Finish;
    var Task(ip, Cascading(k, trials)) := s.tasks[id];
    if ok {
      CacheKeeps(s, s.cache[ip := Works(trials[0])]);
      FinishCascadeKeeps(s.(cache := s.cache[ip := Works(trials[0])]), id);
    } else if |trials| == 1 {
      FinishCascadeKeeps(s, id);
    } else {
      OneTrialLess(s, id);
    }
  }

  lemma CacheKeeps(s: State, cache: map<Ip, Entry>)
    requires Inv(s)
    ensures Inv(s.(cache := cache))
  {
    hide OneTaskEach, HeldByCascade, AwaitedByQueue;
  }

  lemma OneTrialLess(s: State, id: nat)
    requires Inv(s) && id in s.tasks && s.tasks[id].pc.Cascading? && |s.tasks[id].pc.trials| > 1
    ensures var Task(ip, Cascading(k, trials)) := s.tasks[id];
            Inv(s.(tasks := s.tasks[id := Task(ip, Cascading(k, trials[1..]))]))
  {
    hide OneTaskEach;
    MoveTask(s.tasks, s.nextId, s.inFlight - s.lost, id, Cascading(s.tasks[id].pc.key, s.tasks[id].pc.trials[1..]));
  }

  lemma BeginKeeps(s: State, id: nat, readable: bool, siblings: seq<Ip>, trials: seq<Cred>)
    requires Inv(s) && id in s.tasks && s.tasks[id].pc.Created?
    ensures Inv(Next(s, Begin(id, readable, siblings, trials)))
  {
    hide OneTaskEach, HeldByCascade, AwaitedByQueue, Granted, Enter, KeyOf;
    var k := if readable then KeyOf(s.weld, s.tasks[id].ip) else IpKey(s.tasks[id].ip);
    if Immediate(LockAt(s.locks, k)) {
      GrantAtOnce(s.tasks, s.locks, id, k);
      EnterKeeps(s, id, k, siblings, trials);
    } else {
      MoveTask(s.tasks, s.nextId, s.inFlight - s.lost, id, Queued(k));
      JoinQueue(s.tasks, s.locks, id, k);
    }
  }

  lemma ResumeKeeps(s: State, id: nat, siblings: seq<Ip>, trials: seq<Cred>)
    requires Inv(s) && id in s.tasks && s.tasks[id].pc.Queued? && MayResume(LockAt(s.locks, s.tasks[id].pc.key), id)
    ensures Inv(Next(s, Resume(id, siblings, trials)))
  {
    hide OneTaskEach, HeldByCascade, AwaitedByQueue, Granted, Enter;
    var k := s.tasks[id].pc.key;
    var l := LockAt(s.locks, k);
    GrantFirstWaiter(s.tasks, s.locks, id, k);
    EnterKeeps(s.(locks := s.locks[k := l.(waiters := l.waiters[1..])]), id, k, siblings, trials);
  }

  lemma ProbeStartKeeps(s: State, ip: Ip)
    requires Inv(s)
    ensures Inv(StartProbe(s, ip))
  {
    hide OneTaskEach, HeldByCascade, AwaitedByQueue;
    IdsGrow(s.tasks, s.nextId, s.inFlight - s.lost);
  }

  lemma ProbeAnswerKeeps(s: State, id: nat, hasEngine: bool)
    requires Inv(s) && id in s.probes
    ensures Inv(EndProbe(s, id, hasEngine))
  {
    hide OneTaskEach, HeldByCascade, AwaitedByQueue;
  }

  lemma NodeFaultKeeps(s: State, id: nat)
    requires Inv(s) && id in s.tasks && s.tasks[id].pc.Created?
    ensures Inv(Next(s, NodeFault(id)))
  {
    hide OneTaskEach, HeldByCascade, AwaitedByQueue;
    DropTask(s.tasks, s.nextId, s.inFlight - s.lost, id);
    DropUnlocked(s.tasks, s.locks, id);
    assert s.inFlight - (s.lost + {s.tasks[id].ip}) == s.inFlight - s.lost - {s.tasks[id].ip};
  }

  lemma SiblingFaultKeeps(s: State, id: nat, readable: bool)
    requires Inv(s) && !Idle(s, SiblingFault(id, readable))
    ensures Inv(Next(s, SiblingFault(id, readable)))
  {
    hide Inv, GrantedIn, Finish, KeyOf;
    if s.tasks[id].pc.Created? {
      var k := if readable then KeyOf(s.weld, s.tasks[id].ip) else IpKey(s.tasks[id].ip);
      GrantedAtOnce(s, id, k);
      FinishKeeps(s, id, k);
    } else {
      GrantedFromQueue(s, id);
      FinishKeeps(Woken(s, s.tasks[id].pc.key), id, s.tasks[id].pc.key);
    }
  }

  lemma IdleStays(s: State, step: Step)
    requires Idle(s, step)
    ensures Next(s, step) == s
  {
  }

  lemma StepKeeps(s: State, step: Step)
    requires Inv(s)
    ensures Inv(Next(s, step))
  {
    hide Inv, Trigger, TriggerAll, Finish, Enter, Answer, StartProbe, EndProbe;
    if Idle(s, step) {
      IdleStays(s, step);
    } else {
      match step
      case SetTick(t) => PlainKeeps(s, step);
      case Touch(ip) => TriggerKeeps(s, ip);
      case CheckDue(order) => TriggerAllKeeps(s, order);
      case ProbeStart(ip) => ProbeStartKeeps(s, ip);
      case ProbeAnswer(id, hasEngine) => ProbeAnswerKeeps(s, id, hasEngine);
      case Begin(id, readable, siblings, trials) => BeginKeeps(s, id, readable, siblings, trials);
      case Resume(id, siblings, trials) => ResumeKeeps(s, id, siblings, trials);
      case CascadeAnswer(id, ok) => AnswerKeeps(s, id, ok);
      case NodeFault(id) => NodeFaultKeeps(s, id);
      case SiblingFault(id, readable) => SiblingFaultKeeps(s, id, readable);
      case Fault(id) => FinishCascadeKeeps(s, id);
      case OtherWrite(ip, entry) => PlainKeeps(s, step);
      case Reweld(weld) => PlainKeeps(s, step);
    }
  }

  lemma PlainKeeps(s: State, step: Step)
    requires Inv(s) && (step.SetTick? || step.OtherWrite? || step.Reweld?)
    ensures Inv(Next(s, step))
  {
    hide OneTaskEach, HeldByCascade, AwaitedByQueue;
  }

  // ----- the record of entered cascades -----------------------------------------------

  ghost predicate Cascades(tasks: Tasks, ip: Ip) {
    exists id :: id in tasks && tasks[id].ip == ip && tasks[id].pc.Cascading?
  }

  /** An entered cascade is still running or on record as attempted. */
  ghost predicate Accounted(tasks: Tasks, attempted: set<Ip>, ran: set<Ip>) {
    && (forall id :: id in tasks && tasks[id].pc.Cascading? ==> tasks[id].ip in ran)
    && (forall ip :: ip in ran ==> ip in attempted || Cascades(tasks, ip))
  }

  ghost predicate OnRecord(s: State) { Accounted(s.tasks, s.attempted, s.ran) }

  lemma NewTaskAccounted(tasks: Tasks, attempted: set<Ip>, ran: set<Ip>, id: nat, ip: Ip)
    requires Accounted(tasks, attempted, ran) && id !in tasks
    ensures Accounted(tasks[id := Task(ip, Created)], attempted, ran)
  {
    var t := tasks[id := Task(ip, Created)];
    forall a | a in ran && a !in attempted ensures Cascades(t, a) {
      assert Cascades(tasks, a);
      var i :| i in tasks && tasks[i].ip == a && tasks[i].pc.Cascading?;
      assert i in t && t[i] == tasks[i];
    }
  }

  lemma TriggerAccounted(s: State, ip: Ip)
    requires Inv(s) && OnRecord(s)
    ensures OnRecord(Trigger(s, ip))
  {
    if Due(s, ip) && ip !in s.inFlight {
      NewTaskAccounted(s.tasks, s.attempted, s.ran, s.nextId, ip);
    }
  }

  lemma {:induction false} TriggerAllAccounted(s: State, ips: seq<Ip>)
    requires Inv(s) && OnRecord(s)
    ensures OnRecord(TriggerAll(s, ips))
    decreases |ips|
  {
    hide Inv, OnRecord, Trigger;
    if ips != [] {
      TriggerKeeps(s, ips[0]);
      TriggerAccounted(s, ips[0]);
      TriggerAllAccounted(Trigger(s, ips[0]), ips[1..]);
    }
  }

  /** Dropping or moving one task keeps the record straight as long as its own address is. */
  lemma Recount(tasks: Tasks, after: Tasks, attempted: set<Ip>, attempted': set<Ip>, ran: set<Ip>, ran': set<Ip>,
      id: nat)
    requires Accounted(tasks, attempted, ran) && id in tasks
    requires attempted <= attempted' && ran' <= ran + {tasks[id].ip} && ran <= ran'
    requires forall i :: i in tasks && i != id ==> i in after && after[i] == tasks[i]
    requires forall i :: i in after ==> i in tasks && after[i].ip == tasks[i].ip
    requires || tasks[id].ip in attempted'
             || (id in after && (after[id].pc.Cascading? || (!tasks[id].pc.Cascading? && ran' == ran)))
    requires id in after && after[id].pc.Cascading? ==> tasks[id].ip in ran'
    ensures Accounted(after, attempted', ran')
  {
    forall a | a in ran' ensures a in attempted' || Cascades(after, a) {
      if a !in attempted' {
        if a == tasks[id].ip && after[id].pc.Cascading? {
          assert Cascades(after, a);
        } else {
          assert a in ran;
          assert Cascades(tasks, a);
          var i :| i in tasks && tasks[i].ip == a && tasks[i].pc.Cascading?;
          assert i in after && after[i] == tasks[i];
        }
      }
    }
  }

  lemma FinishAccounted(s: State, id: nat, k: Key, ran: set<Ip>)
    requires id in s.tasks && Accounted(s.tasks, s.attempted, ran) && ran <= s.ran <= ran + {s.tasks[id].ip}
    ensures OnRecord(Finish(s, id, k))
  {
    hide Accounted;
    var t := Finish(s, id, k);
    Recount(s.tasks, t.tasks, s.attempted, t.attempted, ran, s.ran, id);
  }

  lemma EnterAccounted(s: State, id: nat, k: Key, siblings: seq<Ip>, trials: seq<Cred>)
    requires id in s.tasks && OnRecord(s) && !s.tasks[id].pc.Cascading?
    ensures OnRecord(Enter(s, id, k, siblings, trials))
  {
    hide Accounted, Finish, Consult;
    var ip := s.tasks[id].ip;
    match Consult(s, siblings)
    case Reuse(cred) => FinishAccounted(s.(cache := s.cache[ip := Works(cred)]), id, k, s.ran);
    case Tried => FinishAccounted(s, id, k, s.ran);
    case Untried =>
      if trials == [] {
        FinishAccounted(s.(ran := s.ran + {ip}, entries := s.entries + 1), id, k, s.ran);
      } else {
        var t := Enter(s, id, k, siblings, trials);
        Recount(s.tasks, t.tasks, s.attempted, t.attempted, s.ran, t.ran, id);
      }
  }

  lemma AnswerAccounted(s: State, id: nat, ok: bool)
    requires OnRecord(s) && id in s.tasks && s.tasks[id].pc.Cascading? && s.tasks[id].pc.trials != []
    ensures OnRecord(Answer(s, id, ok))
  {
    hide Finish;
    var Task(ip, Cascading(k, trials)) := s.tasks[id];
    if ok {
      FinishAccounted(s.(cache := s.cache[ip := Works(trials[0])]), id, k, s.ran);
    } else if |trials| == 1 {
      FinishAccounted(s, id, k, s.ran);
    } else {
      Recount(s.tasks, s.tasks[id := Task(ip, Cascading(k, trials[1..]))], s.attempted, s.attempted, s.ran, s.ran, id);
    }
  }

  lemma BeginAccounted(s: State, id: nat, readable: bool, siblings: seq<Ip>, trials: seq<Cred>)
    requires OnRecord(s) && id in s.tasks && s.tasks[id].pc.Created?
    ensures OnRecord(Next(s, Begin(id, readable, siblings, trials)))
  {
    hide Accounted, Enter, KeyOf;
    var k := if readable then KeyOf(s.weld, s.tasks[id].ip) else IpKey(s.tasks[id].ip);
    if Immediate(LockAt(s.locks, k)) {
      EnterAccounted(s, id, k, siblings, trials);
    } else {
      var after := s.tasks[id := Task(s.tasks[id].ip, Queued(k))];
      Recount(s.tasks, after, s.attempted, s.attempted, s.ran, s.ran, id);
    }
  }

  lemma ResumeAccounted(s: State, id: nat, siblings: seq<Ip>, trials: seq<Cred>)
    requires OnRecord(s) && id in s.tasks && s.tasks[id].pc.Queued?
    requires MayResume(LockAt(s.locks, s.tasks[id].pc.key), id)
    ensures OnRecord(Next(s, Resume(id, siblings, trials)))
  {
    hide Accounted, Enter;
    var k := s.tasks[id].pc.key;
    var l := LockAt(s.locks, k);
    EnterAccounted(s.(locks := s.locks[k := l.(waiters := l.waiters[1..])]), id, k, siblings, trials);
  }

  /** The steps of no upgrade task. */
  predicate Plain(step: Step) {
    step.SetTick? || step.OtherWrite? || step.Reweld? || step.ProbeStart? || step.ProbeAnswer?
  }

  predicate SameUpgrades(s: State, t: State) {
    t.tasks == s.tasks && t.attempted == s.attempted && t.ran == s.ran && t.lost == s.lost
  }

  lemma PlainEffect(s: State, step: Step)
    requires Plain(step)
    ensures SameUpgrades(s, Next(s, step)) && Next(s, step).weld == if step.Reweld? then step.weld else s.weld
  {
    hide SameUpgrades, Next;
    match step
    case SetTick(tick) => TickEffect(s, tick);
    case OtherWrite(ip, entry) => WriteEffect(s, ip, entry);
    case Reweld(weld) => WeldEffect(s, weld);
    case ProbeStart(ip) => ProbeStartEffect(s, ip);
    case ProbeAnswer(id, hasEngine) => ProbeAnswerEffect(s, id, hasEngine);
  }

  lemma TickEffect(s: State, tick: int)
    ensures var t := Next(s, SetTick(tick)); SameUpgrades(s, t) && t.weld == s.weld && t.cache == s.cache
  {
  }

  lemma WriteEffect(s: State, ip: Ip, entry: Entry)
    ensures var t := Next(s, OtherWrite(ip, entry));
            SameUpgrades(s, t) && t.weld == s.weld && t.cache == s.cache[ip := entry]
  {
  }

  lemma WeldEffect(s: State, weld: map<Ip, NodeId>)
    ensures var t := Next(s, Reweld(weld)); SameUpgrades(s, t) && t.weld == weld && t.cache == s.cache
  {
  }

  lemma ProbeStartEffect(s: State, ip: Ip)
    ensures var t := Next(s, ProbeStart(ip)); SameUpgrades(s, t) && t.weld == s.weld && t.cache == s.cache
  {
    hide Enter, Finish, Answer, Trigger, TriggerAll, KeyOf, Idle, Woken, LockAt;
  }

  lemma ProbeAnswerEffect(s: State, id: nat, hasEngine: bool)
    ensures var t := Next(s, ProbeAnswer(id, hasEngine)); SameUpgrades(s, t) && t.weld == s.weld && t.cache == s.cache
  {
    hide Enter, Finish, Answer, Trigger, TriggerAll, KeyOf, Idle, Woken, LockAt;
  }

  lemma PlainAccounted(s: State, step: Step)
    requires OnRecord(s) && Plain(step)
    ensures OnRecord(Next(s, step))
  {
    hide Accounted, Next;
    PlainEffect(s, step);
  }

  /** Every step keeps the record, whatever it does to the welding. */
  lemma StepAccounted(s: State, step: Step)
    requires Inv(s) && OnRecord(s)
    ensures OnRecord(Next(s, step))
  {
    hide Inv, OnRecord, Trigger, TriggerAll, Finish, Enter, Answer, StartProbe, EndProbe;
    if Idle(s, step) {
      IdleStays(s, step);
    } else {
      match step
      case Touch(ip) => TriggerAccounted(s, ip);
      case CheckDue(order) => TriggerAllAccounted(s, order);
      case Begin(id, readable, siblings, trials) => BeginAccounted(s, id, readable, siblings, trials);
      case Resume(id, siblings, trials) => ResumeAccounted(s, id, siblings, trials);
      case CascadeAnswer(id, ok) => AnswerAccounted(s, id, ok);
      case NodeFault(id) => NodeFaultAccounted(s, id);
      case SiblingFault(id, readable) => SiblingFaultAccounted(s, id, readable);
      case Fault(id) => FaultAccounted(s, id);
      case _ => PlainAccounted(s, step);
    }
  }

  lemma FaultAccounted(s: State, id: nat)
    requires OnRecord(s) && id in s.tasks && s.tasks[id].pc.Cascading?
    ensures OnRecord(Finish(s, id, s.tasks[id].pc.key))
  {
    hide Accounted, Finish;
    FinishAccounted(s, id, s.tasks[id].pc.key, s.ran);
  }

  lemma NodeFaultAccounted(s: State, id: nat)
    requires OnRecord(s) && id in s.tasks && s.tasks[id].pc.Created?
    ensures OnRecord(Next(s, NodeFault(id)))
  {
    var after := s.tasks - {id};
    forall a | a in s.ran && a !in s.attempted ensures Cascades(after, a) {
      assert Cascades(s.tasks, a);
      var i :| i in s.tasks && s.tasks[i].ip == a && s.tasks[i].pc.Cascading?;
      assert i in after && after[i] == s.tasks[i];
    }
  }

  lemma SiblingFaultAccounted(s: State, id: nat, readable: bool)
    requires OnRecord(s) && !Idle(s, SiblingFault(id, readable))
    ensures OnRecord(Next(s, SiblingFault(id, readable)))
  {
    hide Accounted, Finish, KeyOf;
    if s.tasks[id].pc.Created? {
      FinishAccounted(s, id, if readable then KeyOf(s.weld, s.tasks[id].ip) else IpKey(s.tasks[id].ip), s.ran);
    } else {
      FinishAccounted(Woken(s, s.tasks[id].pc.key), id, s.tasks[id].pc.key, s.ran);
    }
  }

  lemma FinishEffect(s: State, id: nat, k: Key)
    requires id in s.tasks
    ensures var t := Finish(s, id, k);
            && t.tasks == s.tasks - {id} && t.weld == s.weld && t.ran == s.ran && t.entries == s.entries
            && t.probes == s.probes && t.nextId == s.nextId && t.lost == s.lost && t.cache == s.cache
  {
  }

  lemma SiblingFaultEffect(s: State, id: nat, readable: bool)
    requires !Idle(s, SiblingFault(id, readable))
    ensures var t := Next(s, SiblingFault(id, readable));
            && t.tasks == s.tasks - {id} && t.weld == s.weld && t.ran == s.ran && t.entries == s.entries
            && t.probes == s.probes && t.nextId == s.nextId && t.lost == s.lost && t.cache == s.cache
  {
    hide Finish, KeyOf;
    if s.tasks[id].pc.Created? {
      FinishEffect(s, id, if readable then KeyOf(s.weld, s.tasks[id].ip) else IpKey(s.tasks[id].ip));
    } else {
      FinishEffect(Woken(s, s.tasks[id].pc.key), id, s.tasks[id].pc.key);
    }
  }

  /** What entering does to the tasks and the history. */
  lemma EnterEffect(s: State, id: nat, k: Key, rows: seq<Ip>, trials: seq<Cred>)
    requires id in s.tasks
    ensures var t, ip := Enter(s, id, k, rows, trials), s.tasks[id].ip;
            var untried := Consult(s, rows) == Untried;
            && t.weld == s.weld && t.probes == s.probes && t.nextId == s.nextId && t.lost == s.lost
            && t.ran == (if untried then s.ran + {ip} else s.ran)
            && t.entries == (if untried then s.entries + 1 else s.entries)
            && t.tasks == if untried && trials != []
              then s.tasks[id := Task(ip, Cascading(k, trials))] else s.tasks - {id}
  {
    hide Consult, Finish;
    var ip := s.tasks[id].ip;
    match Consult(s, rows)
    case Reuse(cred) => FinishEffect(s.(cache := s.cache[ip := Works(cred)]), id, k);
    case Tried => FinishEffect(s, id, k);
    case Untried => FinishEffect(s.(ran := s.ran + {ip}, entries := s.entries + 1), id, k);
  }

  // ----- one cascading address per node -----------------------------------------------

  /** The addresses `node` are one node whose lock is `k`. */
  ghost predicate IsNode(weld: map<Ip, NodeId>, node: set<Ip>, k: Key) {
    forall a :: a in node ==> KeyOf(weld, a) == k && Siblings(weld, a) == node - {a}
  }

  /** The step leaves the node as it is, and a task of the node reads it as it is. All else may be
      welded, re-welded or unreadable. */
  ghost predicate Stable(s: State, step: Step, node: set<Ip>, k: Key) {
    match step
    case Begin(id, readable, siblings, _) =>
      id in s.tasks && s.tasks[id].ip in node ==> readable && SameElements(siblings, node - {s.tasks[id].ip})
    case Resume(id, siblings, _) =>
      id in s.tasks && s.tasks[id].ip in node ==> SameElements(siblings, node - {s.tasks[id].ip})
    case Reweld(weld) => IsNode(weld, node, k)
    case _ => true
  }

  ghost predicate StableRun(s: State, steps: seq<Step>, node: set<Ip>, k: Key)
    decreases |steps|
  {
    steps == [] || (Stable(s, steps[0], node, k) && StableRun(Next(s, steps[0]), steps[1..], node, k))
  }

  /** The key a task of the node waits for or holds is the node's. */
  ghost predicate KeysRight(tasks: Tasks, node: set<Ip>, k: Key) {
    forall id :: id in tasks && tasks[id].ip in node && !tasks[id].pc.Created? ==> tasks[id].pc.key == k
  }

  ghost predicate OneRan(node: set<Ip>, ran: set<Ip>) {
    forall a, b :: a in node && b in node && a in ran && b in ran ==> a == b
  }

  ghost predicate OnePerNode(s: State, node: set<Ip>, k: Key) {
    IsNode(s.weld, node, k) && KeysRight(s.tasks, node, k) && OneRan(node, s.ran)
  }

  /** No running cascade holds a lock that was just granted to somebody else. */
  lemma OtherKeys(s: State, id: nat, k: Key, j: nat)
    requires GrantedIn(s, id, k) && !s.tasks[id].pc.Cascading?
    requires j in s.tasks && s.tasks[j].pc.Cascading?
    ensures s.tasks[j].pc.key != k
  {
    var r := s.tasks[id := Task(s.tasks[id].ip, Created)];
    assert j in r && r[j] == s.tasks[j];
  }

  /** The crux: with the node lock granted and no sibling on record, no other address of the
      node ever entered a cascade. */
  lemma FirstOfItsNode(s: State, id: nat, siblings: seq<Ip>, node: set<Ip>, k: Key)
    requires id in s.tasks && s.tasks[id].ip in node && GrantedIn(s, id, k) && !s.tasks[id].pc.Cascading?
    requires OnRecord(s) && KeysRight(s.tasks, node, k)
    requires SameElements(siblings, node - {s.tasks[id].ip}) && Consult(s, siblings) == Untried
    ensures forall b :: b in node && b in s.ran ==> b == s.tasks[id].ip
  {
    hide GrantedIn, Consult;
    ConsultUntried(s, siblings);
    forall b | b in node && b != s.tasks[id].ip ensures b !in s.ran {
      assert b in siblings && Look(s, b) == Untried;
      if Cascades(s.tasks, b) {
        var j :| j in s.tasks && s.tasks[j].ip == b && s.tasks[j].pc.Cascading?;
        OtherKeys(s, id, k, j);
      }
    }
  }

  lemma EnterOnePerNode(s: State, id: nat, held: Key, siblings: seq<Ip>, trials: seq<Cred>, node: set<Ip>, k: Key)
    requires id in s.tasks && GrantedIn(s, id, held) && OnRecord(s) && OnePerNode(s, node, k)
    requires !s.tasks[id].pc.Cascading?
    requires s.tasks[id].ip in node ==> held == k && SameElements(siblings, node - {s.tasks[id].ip})
    ensures OnePerNode(Enter(s, id, held, siblings, trials), node, k)
  {
    hide OnRecord, GrantedIn, IsNode, Consult, Enter;
    EnterEffect(s, id, held, siblings, trials);
    if s.tasks[id].ip in node && Consult(s, siblings) == Untried {
      FirstOfItsNode(s, id, siblings, node, k);
    }
  }

  lemma BeginOnePerNode(s: State, step: Step, node: set<Ip>, k: Key)
    requires Inv(s) && OnRecord(s) && OnePerNode(s, node, k) && Stable(s, step, node, k) && step.Begin?
    requires !Idle(s, step)
    ensures OnePerNode(Next(s, step), node, k)
  {
    hide Inv, OnRecord, Enter, Siblings;
    var Begin(id, readable, siblings, trials) := step;
    var held := if readable then KeyOf(s.weld, s.tasks[id].ip) else IpKey(s.tasks[id].ip);
    if Immediate(LockAt(s.locks, held)) {
      GrantedAtOnce(s, id, held);
      EnterOnePerNode(s, id, held, siblings, trials, node, k);
    }
  }

  lemma GrantedAtOnce(s: State, id: nat, k: Key)
    requires Inv(s) && id in s.tasks && s.tasks[id].pc.Created? && Immediate(LockAt(s.locks, k))
    ensures GrantedIn(s, id, k)
  {
    hide OneTaskEach, HeldByCascade, AwaitedByQueue, Granted;
    GrantAtOnce(s.tasks, s.locks, id, k);
  }

  lemma GrantedFromQueue(s: State, id: nat)
    requires Inv(s) && id in s.tasks && s.tasks[id].pc.Queued? && MayResume(LockAt(s.locks, s.tasks[id].pc.key), id)
    ensures GrantedIn(Woken(s, s.tasks[id].pc.key), id, s.tasks[id].pc.key)
  {
    hide OneTaskEach, HeldByCascade, AwaitedByQueue, Granted;
    GrantFirstWaiter(s.tasks, s.locks, id, s.tasks[id].pc.key);
  }

  lemma ResumeOnePerNode(s: State, step: Step, node: set<Ip>, k: Key)
    requires Inv(s) && OnRecord(s) && OnePerNode(s, node, k) && Stable(s, step, node, k) && step.Resume?
    requires !Idle(s, step)
    ensures OnePerNode(Next(s, step), node, k)
  {
    hide Inv, Enter, Siblings, GrantedIn;
    var Resume(id, siblings, trials) := step;
    GrantedFromQueue(s, id);
    EnterOnePerNode(Woken(s, s.tasks[id].pc.key), id, s.tasks[id].pc.key, siblings, trials, node, k);
  }

  lemma PlainOnePerNode(s: State, step: Step, node: set<Ip>, k: Key)
    requires OnePerNode(s, node, k) && Stable(s, step, node, k) && Plain(step)
    ensures OnePerNode(Next(s, step), node, k)
  {
    hide IsNode, KeysRight, OneRan, Next;
    PlainEffect(s, step);
  }

  lemma TriggerOnePerNode(s: State, ip: Ip, node: set<Ip>, k: Key)
    requires OnePerNode(s, node, k)
    ensures OnePerNode(Trigger(s, ip), node, k)
  {
    hide IsNode, OneRan;
  }

  lemma AnswerOnePerNode(s: State, id: nat, ok: bool, node: set<Ip>, k: Key)
    requires OnePerNode(s, node, k) && id in s.tasks && s.tasks[id].pc.Cascading? && s.tasks[id].pc.trials != []
    ensures OnePerNode(Answer(s, id, ok), node, k)
  {
    hide IsNode, OneRan;
  }

  lemma FinishOnePerNode(s: State, id: nat, held: Key, node: set<Ip>, k: Key)
    requires OnePerNode(s, node, k) && id in s.tasks
    ensures OnePerNode(Finish(s, id, held), node, k)
  {
    hide IsNode, OneRan;
  }

  lemma SiblingFaultOnePerNode(s: State, id: nat, readable: bool, node: set<Ip>, k: Key)
    requires OnePerNode(s, node, k) && !Idle(s, SiblingFault(id, readable))
    ensures OnePerNode(Next(s, SiblingFault(id, readable)), node, k)
  {
    hide IsNode, KeysRight, OneRan, Finish, KeyOf;
    if s.tasks[id].pc.Created? {
      FinishOnePerNode(s, id, if readable then KeyOf(s.weld, s.tasks[id].ip) else IpKey(s.tasks[id].ip), node, k);
    } else {
      FinishOnePerNode(Woken(s, s.tasks[id].pc.key), id, s.tasks[id].pc.key, node, k);
    }
  }

  lemma NodeFaultOnePerNode(s: State, id: nat, node: set<Ip>, k: Key)
    requires OnePerNode(s, node, k)
    ensures OnePerNode(Next(s, NodeFault(id)), node, k)
  {
    hide IsNode, OneRan;
  }

  lemma {:induction false} TriggerAllOnePerNode(s: State, ips: seq<Ip>, node: set<Ip>, k: Key)
    requires OnePerNode(s, node, k)
    ensures OnePerNode(TriggerAll(s, ips), node, k)
    decreases |ips|
  {
    hide OnePerNode, Trigger;
    if ips != [] {
      TriggerOnePerNode(s, ips[0], node, k);
      TriggerAllOnePerNode(Trigger(s, ips[0]), ips[1..], node, k);
    }
  }

  lemma StableStepOnePerNode(s: State, step: Step, node: set<Ip>, k: Key)
    requires Inv(s) && OnRecord(s) && OnePerNode(s, node, k) && Stable(s, step, node, k)
    ensures OnePerNode(Next(s, step), node, k)
  {
    hide Inv, OnRecord, OnePerNode, Trigger, TriggerAll, Finish, Enter, Answer, StartProbe, EndProbe;
    if Idle(s, step) {
      IdleStays(s, step);
    } else {
      match step
      case CheckDue(order) => TriggerAllOnePerNode(s, order, node, k);
      case Begin(_, _, _, _) => BeginOnePerNode(s, step, node, k);
      case Resume(_, _, _) => ResumeOnePerNode(s, step, node, k);
      case Touch(ip) => TriggerOnePerNode(s, ip, node, k);
      case CascadeAnswer(id, ok) => AnswerOnePerNode(s, id, ok, node, k);
      case NodeFault(id) => NodeFaultOnePerNode(s, id, node, k);
      case SiblingFault(id, readable) => SiblingFaultOnePerNode(s, id, readable, node, k);
      case Fault(id) => FinishOnePerNode(s, id, s.tasks[id].pc.key, node, k);
      case _ => PlainOnePerNode(s, step, node, k);
    }
  }

  // ----- exactly when a node cascades again -------------------------------------------

  /** A step that grants a node lock: the task, the key, and the sibling rows it reads. */
  datatype Grant = NoGrant | Grant(id: nat, key: Key, rows: seq<Ip>)

  function GrantOf(s: State, step: Step): Grant {
    match step
    case Begin(id, readable, siblings, _) =>
      if id !in s.tasks || !s.tasks[id].pc.Created? then NoGrant
      else
        var k := if readable then KeyOf(s.weld, s.tasks[id].ip) else IpKey(s.tasks[id].ip);
        if Immediate(LockAt(s.locks, k)) then Grant(id, k, siblings) else NoGrant
    case Resume(id, siblings, _) =>
      if id !in s.tasks || !s.tasks[id].pc.Queued? || !MayResume(LockAt(s.locks, s.tasks[id].pc.key), id) then NoGrant
      else Grant(id, s.tasks[id].pc.key, siblings)
    case _ => NoGrant
  }

  /** Another address of the node has entered a cascade before. */
  ghost predicate SiblingRan(s: State, ip: Ip) { exists b :: b in Siblings(s.weld, ip) && b in s.ran }

  /** What the lock and the rows can miss: a sibling that is cascading right now, so under another
      key, or one whose finished cascade the rows leave out. */
  ghost predicate Missed(s: State, ip: Ip, rows: seq<Ip>) {
    exists b :: b in Siblings(s.weld, ip) && (Cascades(s.tasks, b) || (b in s.ran && b !in rows))
  }

  lemma GrantedBy(s: State, step: Step)
    requires Inv(s) && GrantOf(s, step).Grant?
    ensures var g := GrantOf(s, step); g.id in s.tasks && !s.tasks[g.id].pc.Cascading?
    ensures var g := GrantOf(s, step);
            forall j :: j in s.tasks && s.tasks[j].pc.Cascading? ==> s.tasks[j].pc.key != g.key
  {
    hide OneTaskEach, AwaitedByQueue;
  }

  lemma MissedIff(s: State, ip: Ip, rows: seq<Ip>)
    requires OnRecord(s) && Consult(s, rows) == Untried
    ensures SiblingRan(s, ip) <==> Missed(s, ip, rows)
  {
    ConsultUntried(s, rows);
    if SiblingRan(s, ip) {
      var b :| b in Siblings(s.weld, ip) && b in s.ran;
      if b in rows {
        assert Look(s, b) == Untried;
      }
      assert Cascades(s.tasks, b) || b !in rows;
    }
    if Missed(s, ip, rows) {
      var b :| b in Siblings(s.weld, ip) && (Cascades(s.tasks, b) || (b in s.ran && b !in rows));
      assert b in s.ran;
    }
  }

  // ----- main results -----------------------------------------------------------------

  lemma {:induction false} RunKeeps(s: State, steps: seq<Step>)
    requires Inv(s)
    ensures Inv(Run(s, steps))
    decreases |steps|
  {
    if steps != [] {
      StepKeeps(s, steps[0]);
      RunKeeps(Next(s, steps[0]), steps[1..]);
    }
  }

  lemma {:induction false} RunAccounted(s: State, steps: seq<Step>)
    requires Inv(s) && OnRecord(s)
    ensures Inv(Run(s, steps)) && OnRecord(Run(s, steps))
    decreases |steps|
  {
    if steps != [] {
      StepKeeps(s, steps[0]);
      StepAccounted(s, steps[0]);
      RunAccounted(Next(s, steps[0]), steps[1..]);
    }
  }

  lemma {:induction false} StableRunKeeps(s: State, steps: seq<Step>, node: set<Ip>, k: Key)
    requires Inv(s) && OnRecord(s) && OnePerNode(s, node, k) && StableRun(s, steps, node, k)
    ensures Inv(Run(s, steps)) && OnRecord(Run(s, steps)) && OnePerNode(Run(s, steps), node, k)
    decreases |steps|
  {
    if steps != [] {
      StepKeeps(s, steps[0]);
      StepAccounted(s, steps[0]);
      StableStepOnePerNode(s, steps[0], node, k);
      StableRunKeeps(Next(s, steps[0]), steps[1..], node, k);
    }
  }

  /** Over every interleaving whatsoever, whatever raises: an address is in flight exactly while it has
      a live upgrade task, or for ever once its task died in the node lookup; it never has two tasks,
      and in-flight addresses stay scheduled. */
  lemma FlightIsExact(weld: map<Ip, NodeId>, steps: seq<Step>)
    ensures var s := Run(Init(weld), steps);
            && (forall ip :: ip in s.inFlight <==> HasTask(s.tasks, ip) || ip in s.lost)
            && (forall ip :: ip in s.lost ==> !HasTask(s.tasks, ip))
            && (forall a, b :: a in s.tasks && b in s.tasks && s.tasks[a].ip == s.tasks[b].ip ==> a == b)
            && s.inFlight <= s.deferred.Keys
  {
    RunKeeps(Init(weld), steps);
    var s := Run(Init(weld), steps);
    assert forall ip :: ip in s.inFlight - s.lost <==> HasTask(s.tasks, ip);
  }

  /** An address whose task died in the node lookup is given up: at every later point of the run it is
      in flight without a task, stays scheduled, and is neither triggered nor probed again. */
  lemma LostForGood(weld: map<Ip, NodeId>, steps: seq<Step>, later: seq<Step>, ip: Ip)
    requires ip in Run(Init(weld), steps).lost
    ensures var s := Run(Init(weld), steps + later);
            && ip in s.lost && ip in s.inFlight && ip in s.deferred && !HasTask(s.tasks, ip)
            && Trigger(s, ip) == s && Next(s, ProbeStart(ip)) == s.(nextId := s.nextId + 1)
  {
    hide Run, Inv, HasTask, Next;
    InitHolds(weld);
    RunConcat(Init(weld), steps, later);
    RunKeeps(Init(weld), steps);
    LostGrows(Run(Init(weld), steps), later);
    RunKeeps(Init(weld), steps + later);
    LostHasNoTask(Run(Init(weld), steps + later), ip);
    ScheduledNotProbed(Run(Init(weld), steps + later), ip);
  }

  lemma LostHasNoTask(s: State, ip: Ip)
    requires Inv(s) && ip in s.lost
    ensures ip in s.inFlight && ip in s.deferred && !HasTask(s.tasks, ip)
  {
    hide HeldByCascade, AwaitedByQueue;
  }

  lemma {:induction false} LostGrows(s: State, steps: seq<Step>)
    requires Inv(s)
    ensures s.lost <= Run(s, steps).lost
    decreases |steps|
  {
    hide Inv;
    if steps != [] {
      StepKeeps(s, steps[0]);
      StepLost(s, steps[0]);
      LostGrows(Next(s, steps[0]), steps[1..]);
    }
  }

  lemma StepLost(s: State, step: Step)
    requires Inv(s)
    ensures s.lost <= Next(s, step).lost
  {
    hide Inv, Next;
    if step.Reweld? {
      PlainEffect(s, step);
    } else if GrantOf(s, step).Grant? {
      GrantEffect(s, step);
    } else {
      NoGrantIsCalm(s, step);
    }
  }

  /** Over every interleaving that leaves one node alone, whatever happens to all others: of its
      addresses at most one ever enters the cascade, and no two cascades of it overlap. */
  lemma OneCascadePerNode(weld: map<Ip, NodeId>, steps: seq<Step>, node: set<Ip>, k: Key)
    requires IsNode(weld, node, k) && StableRun(Init(weld), steps, node, k)
    ensures var s := Run(Init(weld), steps);
            && (forall a, b :: a in node && b in node && a in s.ran && b in s.ran ==> a == b)
            && (forall i, j | i in s.tasks && j in s.tasks && s.tasks[i].pc.Cascading? && s.tasks[j].pc.Cascading? ::
                  s.tasks[i].ip in node && s.tasks[j].ip in node ==> i == j)
  {
    StableRunKeeps(Init(weld), steps, node, k);
  }

  /** Exactly when it fails, in every run, with any re-welding and any failed lookup: a task that is
      granted its lock enters a second cascade of its node if and only if nothing in its rows is on
      record and a sibling is cascading at that moment or a sibling that ran is not in its rows. A
      cascade running at that moment holds another key than the one granted. */
  lemma SecondCascadeIff(weld: map<Ip, NodeId>, steps: seq<Step>, step: Step)
    requires GrantOf(Run(Init(weld), steps), step).Grant?
    ensures var s, g := Run(Init(weld), steps), GrantOf(Run(Init(weld), steps), step);
            && g.id in s.tasks
            && (forall j :: j in s.tasks && s.tasks[j].pc.Cascading? ==> s.tasks[j].pc.key != g.key)
            && (EntersCascade(s, step) && SiblingRan(s, s.tasks[g.id].ip)
                <==> Consult(s, g.rows) == Untried && Missed(s, s.tasks[g.id].ip, g.rows))
  {
    hide Inv, OnRecord, Run, Consult, EntersCascade, SiblingRan, Missed;
    InitHolds(weld);
    RunAccounted(Init(weld), steps);
    var s, g := Run(Init(weld), steps), GrantOf(Run(Init(weld), steps), step);
    GrantedBy(s, step);
    EntersIff(s, step);
    if Consult(s, g.rows) == Untried {
      MissedIff(s, s.tasks[g.id].ip, g.rows);
    }
  }

  lemma InitHolds(weld: map<Ip, NodeId>)
    ensures Inv(Init(weld)) && OnRecord(Init(weld))
  {
  }

  /** Two of the addresses belong to one node. */
  ghost predicate Pair(weld: map<Ip, NodeId>, ips: set<Ip>) {
    exists a, b :: a in ips && b in ips && b in Siblings(weld, a)
  }

  /** The addresses that are cascading now. */
  function Running(s: State): (r: set<Ip>)
    ensures forall ip :: ip in r <==> Cascades(s.tasks, ip)
  {
    set id | id in s.tasks && s.tasks[id].pc.Cascading? :: s.tasks[id].ip
  }

  /** The steps that make two addresses of a node have entered a cascade: a grant as in
      SecondCascadeIff, or a re-welding that joins two that have. */
  ghost predicate MakesTwo(s: State, step: Step) {
    match GrantOf(s, step)
    case Grant(id, _, rows) => id in s.tasks && Consult(s, rows) == Untried && Missed(s, s.tasks[id].ip, rows)
    case NoGrant => step.Reweld? && Pair(step.weld, s.ran)
  }

  /** The steps that make two cascades of a node overlap: a grant while a sibling is cascading, or a
      re-welding that joins two cascading addresses. */
  ghost predicate MakesOverlap(s: State, step: Step) {
    match GrantOf(s, step)
    case Grant(id, _, rows) =>
      id in s.tasks && Consult(s, rows) == Untried && step.trials != [] && SiblingCascades(s, s.tasks[id].ip)
    case NoGrant => step.Reweld? && Pair(step.weld, Running(s))
  }

  lemma StepMakesTwoIff(s: State, step: Step)
    requires Inv(s) && OnRecord(s) && !Pair(s.weld, s.ran)
    ensures Pair(Next(s, step).weld, Next(s, step).ran) <==> MakesTwo(s, step)
  {
    hide Inv, OnRecord, Next, Consult, Missed, Cascades, GrantOf;
    var t := Next(s, step);
    match GrantOf(s, step)
    case Grant(id, _, rows) =>
      GrantEffect(s, step);
      if Consult(s, rows) == Untried {
        MissedIff(s, s.tasks[id].ip, rows);
        OneMoreRan(s, t, s.tasks[id].ip);
      }
    case NoGrant =>
      if step.Reweld? {
        PlainEffect(s, step);
      } else {
        NoGrantIsCalm(s, step);
      }
  }

  lemma OneMoreRan(s: State, t: State, ip: Ip)
    requires t.weld == s.weld && t.ran == s.ran + {ip} && !Pair(s.weld, s.ran)
    ensures Pair(t.weld, t.ran) <==> SiblingRan(s, ip)
  {
    if Pair(t.weld, t.ran) {
      var a, b :| a in t.ran && b in t.ran && b in Siblings(t.weld, a);
      assert a == ip || b == ip || (a in s.ran && b in s.ran);
      assert a in Siblings(s.weld, b);
    }
    if SiblingRan(s, ip) {
      var b :| b in Siblings(s.weld, ip) && b in s.ran;
      assert ip in t.ran && b in t.ran;
    }
  }

  lemma StepMakesOverlapIff(s: State, step: Step)
    requires Inv(s) && !Pair(s.weld, Running(s))
    ensures Pair(Next(s, step).weld, Running(Next(s, step))) <==> MakesOverlap(s, step)
  {
    hide Inv, Next, Consult, Cascades, Running;
    var t := Next(s, step);
    match GrantOf(s, step)
    case Grant(id, _, rows) =>
      GrantEffect(s, step);
      if Consult(s, rows) == Untried && step.trials != [] {
        OneMoreRunning(s, t, s.tasks[id].ip);
      }
    case NoGrant =>
      if step.Reweld? {
        PlainEffect(s, step);
      } else {
        NoGrantIsCalm(s, step);
      }
  }

  lemma OneMoreRunning(s: State, t: State, ip: Ip)
    requires t.weld == s.weld && !Pair(s.weld, Running(s))
    requires forall a :: Cascades(t.tasks, a) <==> Cascades(s.tasks, a) || a == ip
    ensures Pair(t.weld, Running(t)) <==> SiblingCascades(s, ip)
  {
    hide Cascades;
    if Pair(t.weld, Running(t)) {
      var a, b :| a in Running(t) && b in Running(t) && b in Siblings(t.weld, a);
      assert a == ip || b == ip || (a in Running(s) && b in Running(s));
      assert a in Siblings(s.weld, b);
    }
    if SiblingCascades(s, ip) {
      var b :| b in Siblings(s.weld, ip) && Cascades(s.tasks, b);
      assert ip in Running(t) && b in Running(t);
    }
  }

  /** What a grant does to the history and to who is cascading. */
  lemma GrantEffect(s: State, step: Step)
    requires Inv(s) && GrantOf(s, step).Grant?
    ensures var t, g := Next(s, step), GrantOf(s, step);
            var untried := Consult(s, g.rows) == Untried;
            && g.id in s.tasks && t.weld == s.weld && t.lost == s.lost
            && t.ran == (if untried then s.ran + {s.tasks[g.id].ip} else s.ran)
            && forall a :: Cascades(t.tasks, a) <==>
                 Cascades(s.tasks, a) || (untried && step.trials != [] && a == s.tasks[g.id].ip)
  {
    hide Inv, Consult, Enter, Cascades;
    var t, g := Next(s, step), GrantOf(s, step);
    GrantedBy(s, step);
    if step.Resume? {
      SameConsult(s, Woken(s, g.key), g.rows);
      EnterEffect(Woken(s, g.key), g.id, g.key, g.rows, step.trials);
    } else {
      EnterEffect(s, g.id, g.key, g.rows, step.trials);
    }
    if Consult(s, g.rows) == Untried && step.trials != [] {
      var pc := Cascading(g.key, step.trials);
      StartsCascading(s.tasks, t.tasks, g.id, pc);
    } else {
      StopsBeing(s.tasks, t.tasks, g.id);
    }
  }

  lemma StartsCascading(tasks: Tasks, after: Tasks, id: nat, pc: Pc)
    requires id in tasks && !tasks[id].pc.Cascading? && pc.Cascading?
    requires after == tasks[id := Task(tasks[id].ip, pc)]
    ensures forall a :: Cascades(after, a) <==> Cascades(tasks, a) || a == tasks[id].ip
  {
    forall a ensures Cascades(after, a) <==> Cascades(tasks, a) || a == tasks[id].ip {
      if a == tasks[id].ip {
        assert id in after && after[id].ip == a && after[id].pc.Cascading?;
      } else if Cascades(tasks, a) {
        var i :| i in tasks && tasks[i].ip == a && tasks[i].pc.Cascading?;
        assert i in after && after[i] == tasks[i];
      }
    }
  }

  lemma StopsBeing(tasks: Tasks, after: Tasks, id: nat)
    requires id in tasks && !tasks[id].pc.Cascading? && after == tasks - {id}
    ensures forall a :: Cascades(after, a) <==> Cascades(tasks, a)
  {
    forall a | Cascades(tasks, a) ensures Cascades(after, a) {
      var i :| i in tasks && tasks[i].ip == a && tasks[i].pc.Cascading?;
      assert i in after && after[i] == tasks[i];
    }
  }

  /** No cascade is entered, no node changes, and nobody is forgotten. */
  ghost predicate Calm(s: State, t: State) {
    && t.ran == s.ran && t.weld == s.weld && s.lost <= t.lost
    && forall ip :: Cascades(t.tasks, ip) ==> Cascades(s.tasks, ip)
  }

  lemma NoGrantIsCalm(s: State, step: Step)
    requires GrantOf(s, step).NoGrant? && !step.Reweld?
    ensures Calm(s, Next(s, step))
  {
    hide Calm, Trigger, TriggerAll, Finish, Enter, Answer, StartProbe, EndProbe;
    if Idle(s, step) {
      IdleStays(s, step);
      StaysCalm(s, s);
    } else {
      match step
      case Touch(ip) => TriggerIsCalm(s, ip);
      case CheckDue(order) => TriggerAllIsCalm(s, order);
      case Begin(_, _, _, _) => QueueIsCalm(s, step);
      case CascadeAnswer(id, ok) => AnswerIsCalm(s, id, ok);
      case NodeFault(id) => NodeFaultIsCalm(s, id);
      case SiblingFault(id, readable) => SiblingFaultIsCalm(s, id, readable);
      case Fault(id) => FinishIsCalm(s, id, s.tasks[id].pc.key);
      case _ => PlainIsCalm(s, step);
    }
  }

  lemma StaysCalm(s: State, t: State)
    requires t.ran == s.ran && t.weld == s.weld && s.lost <= t.lost && t.tasks == s.tasks
    ensures Calm(s, t)
  {
  }

  lemma PlainIsCalm(s: State, step: Step)
    requires Plain(step) && !step.Reweld?
    ensures Calm(s, Next(s, step))
  {
    hide Calm, Next;
    PlainEffect(s, step);
    StaysCalm(s, Next(s, step));
  }

  lemma TriggerIsCalm(s: State, ip: Ip)
    ensures Calm(s, Trigger(s, ip))
  {
  }

  lemma {:induction false} TriggerAllIsCalm(s: State, ips: seq<Ip>)
    ensures Calm(s, TriggerAll(s, ips))
    decreases |ips|
  {
    hide Trigger, Cascades;
    if ips != [] {
      TriggerIsCalm(s, ips[0]);
      TriggerAllIsCalm(Trigger(s, ips[0]), ips[1..]);
    }
  }

  lemma QueueIsCalm(s: State, step: Step)
    requires step.Begin? && !Idle(s, step) && GrantOf(s, step).NoGrant?
    ensures Calm(s, Next(s, step))
  {
    hide KeyOf;
  }

  lemma FewerAreCalm(s: State, t: State, id: nat)
    requires id in s.tasks && t.tasks == s.tasks - {id} && t.ran == s.ran && t.weld == s.weld && s.lost <= t.lost
    ensures Calm(s, t)
  {
  }

  lemma FinishIsCalm(s: State, id: nat, k: Key)
    requires id in s.tasks
    ensures Calm(s, Finish(s, id, k))
  {
    hide Calm, Finish;
    FinishEffect(s, id, k);
    FewerAreCalm(s, Finish(s, id, k), id);
  }

  lemma SiblingFaultIsCalm(s: State, id: nat, readable: bool)
    requires !Idle(s, SiblingFault(id, readable))
    ensures Calm(s, Next(s, SiblingFault(id, readable)))
  {
    hide Calm, Next;
    SiblingFaultEffect(s, id, readable);
    FewerAreCalm(s, Next(s, SiblingFault(id, readable)), id);
  }

  lemma NodeFaultIsCalm(s: State, id: nat)
    requires id in s.tasks && s.tasks[id].pc.Created?
    ensures Calm(s, Next(s, NodeFault(id)))
  {
    hide Calm;
    FewerAreCalm(s, Next(s, NodeFault(id)), id);
  }

  lemma AnswerIsCalm(s: State, id: nat, ok: bool)
    requires id in s.tasks && s.tasks[id].pc.Cascading? && s.tasks[id].pc.trials != []
    ensures Calm(s, Answer(s, id, ok))
  {
    hide Finish;
    var Task(ip, Cascading(k, trials)) := s.tasks[id];
    FinishIsCalm(s, id, k);
    FinishIsCalm(s.(cache := s.cache[ip := Works(trials[0])]), id, k);
  }

  /** The state after the first `k` steps. */
  function At(weld: map<Ip, NodeId>, steps: seq<Step>, k: int): State
    requires 0 <= k <= |steps|
  {
    Run(Init(weld), steps[..k])
  }

  lemma AtNext(weld: map<Ip, NodeId>, steps: seq<Step>, k: nat)
    requires k < |steps|
    ensures At(weld, steps, k + 1) == Next(At(weld, steps, k), steps[k])
  {
    RunConcat(Init(weld), steps[..k], [steps[k]]);
    assert steps[..k + 1] == steps[..k] + [steps[k]];
    var s := At(weld, steps, k);
    assert Run(s, [steps[k]]) == Run(Next(s, steps[k]), []);
  }

  /** At some point of the run two addresses of one node have entered a cascade. */
  ghost predicate EverTwo(weld: map<Ip, NodeId>, steps: seq<Step>, n: nat)
    requires n <= |steps|
  {
    exists k :: 0 <= k <= n && Pair(At(weld, steps, k).weld, At(weld, steps, k).ran)
  }

  /** At some point of the run two cascades of one node overlap. */
  ghost predicate EverOverlap(weld: map<Ip, NodeId>, steps: seq<Step>, n: nat)
    requires n <= |steps|
  {
    exists k :: 0 <= k <= n && Pair(At(weld, steps, k).weld, Running(At(weld, steps, k)))
  }

  /** Exactly when "one cascade per node" fails, over every run, with any re-welding, any failed lookup
      and any exception: when some step of it is granted a lock, finds its rows untried and misses a
      sibling, or re-welds two addresses that have entered a cascade. */
  lemma {:induction false} EverTwoIff(weld: map<Ip, NodeId>, steps: seq<Step>, n: nat)
    requires n <= |steps|
    ensures EverTwo(weld, steps, n) <==> exists k :: 0 <= k < n && MakesTwo(At(weld, steps, k), steps[k])
  {
    hide Pair, MakesTwo, At, Inv, OnRecord, Next;
    if n == 0 {
      NothingYet(weld, steps);
    } else {
      EverTwoIff(weld, steps, n - 1);
      AtNext(weld, steps, n - 1);
      var s := At(weld, steps, n - 1);
      AtHolds(weld, steps, n - 1);
      if !Pair(s.weld, s.ran) {
        StepMakesTwoIff(s, steps[n - 1]);
      }
    }
  }

  /** And exactly when two cascades of one node overlap: when some step is granted a lock, finds its
      rows untried and a sibling cascading, or re-welds two addresses that are. */
  lemma {:induction false} EverOverlapIff(weld: map<Ip, NodeId>, steps: seq<Step>, n: nat)
    requires n <= |steps|
    ensures EverOverlap(weld, steps, n) <==> exists k :: 0 <= k < n && MakesOverlap(At(weld, steps, k), steps[k])
  {
    hide Pair, MakesOverlap, At, Inv, OnRecord, Next, Running;
    if n == 0 {
      NothingYet(weld, steps);
    } else {
      EverOverlapIff(weld, steps, n - 1);
      AtNext(weld, steps, n - 1);
      var s := At(weld, steps, n - 1);
      AtHolds(weld, steps, n - 1);
      if !Pair(s.weld, Running(s)) {
        StepMakesOverlapIff(s, steps[n - 1]);
      }
    }
  }

  lemma NothingYet(weld: map<Ip, NodeId>, steps: seq<Step>)
    ensures var s := At(weld, steps, 0); !Pair(s.weld, s.ran) && !Pair(s.weld, Running(s))
  {
  }

  lemma AtHolds(weld: map<Ip, NodeId>, steps: seq<Step>, k: nat)
    requires k <= |steps|
    ensures Inv(At(weld, steps, k)) && OnRecord(At(weld, steps, k))
  {
    hide Inv, OnRecord, Run;
    InitHolds(weld);
    RunAccounted(Init(weld), steps[..k]);
  }

  /** With rows that tell the node as it is, only a cascade running under another key is missed. */
  lemma SecondCascadeTruthful(weld: map<Ip, NodeId>, steps: seq<Step>, step: Step)
    requires GrantOf(Run(Init(weld), steps), step).Grant?
    requires var s, g := Run(Init(weld), steps), GrantOf(Run(Init(weld), steps), step);
             g.id in s.tasks ==> SameElements(g.rows, Siblings(s.weld, s.tasks[g.id].ip))
    ensures var s, g := Run(Init(weld), steps), GrantOf(Run(Init(weld), steps), step);
            && g.id in s.tasks
            && (EntersCascade(s, step) && SiblingRan(s, s.tasks[g.id].ip)
                <==> Consult(s, g.rows) == Untried && SiblingCascades(s, s.tasks[g.id].ip))
  {
    hide Run, Consult, EntersCascade, Cascades, Siblings;
    SecondCascadeIff(weld, steps, step);
  }

  ghost predicate SiblingCascades(s: State, ip: Ip) { exists b :: b in Siblings(s.weld, ip) && Cascades(s.tasks, b) }

  /** The step enters a cascade. */
  predicate EntersCascade(s: State, step: Step) { Next(s, step).entries == s.entries + 1 }

  lemma EntersIff(s: State, step: Step)
    requires GrantOf(s, step).Grant?
    ensures EntersCascade(s, step) <==> Consult(s, GrantOf(s, step).rows) == Untried
  {
    hide Consult, Enter;
    var g := GrantOf(s, step);
    if step.Resume? {
      SameConsult(s, Woken(s, g.key), g.rows);
      EnterEffect(Woken(s, g.key), g.id, g.key, g.rows, step.trials);
    } else {
      EnterEffect(s, g.id, g.key, g.rows, step.trials);
    }
  }

  lemma {:induction false} SameConsult(s: State, t: State, rows: seq<Ip>)
    requires s.cache == t.cache && s.attempted == t.attempted
    ensures Consult(s, rows) == Consult(t, rows)
  {
    if rows != [] {
      SameConsult(s, t, rows[1..]);
    }
  }

  /** After check_due_v3_upgrades over any listing of the scheduled addresses, every due one is
      in flight, and nothing was rescheduled. */
  lemma DueMeansInFlight(weld: map<Ip, NodeId>, steps: seq<Step>, order: seq<Ip>)
    requires SameElements(order, Run(Init(weld), steps).deferred.Keys)
    ensures var s := Run(Init(weld), steps);
            var t := Next(s, CheckDue(order));
            && t.deferred == s.deferred
            && forall ip :: ip in t.inFlight <==> ip in s.inFlight || (ip in s.deferred && s.deferred[ip] <= s.tick)
  {
    RunKeeps(Init(weld), steps);
    TriggerAllKeeps(Run(Init(weld), steps), order);
  }

  /** No deadlock: in every reachable state with a live task some task can move, by its own step. */
  lemma NeverStuck(weld: map<Ip, NodeId>, steps: seq<Step>) returns (id: nat, step: Step)
    requires Run(Init(weld), steps).tasks != map[]
    ensures var s := Run(Init(weld), steps);
            var t := Next(s, step);
            && id in s.tasks && (id in t.tasks ==> t.tasks[id] != s.tasks[id])
            && (step.Begin? || step.Resume? || step.CascadeAnswer?) && step.id == id
  {
    RunKeeps(Init(weld), steps);
    id, step := SomeProgress(Run(Init(weld), steps));
  }

  lemma SomeProgress(s: State) returns (id: nat, step: Step)
    requires Inv(s) && s.tasks != map[]
    ensures Moves(s, id, step) && (step.Begin? || step.Resume? || step.CascadeAnswer?) && step.id == id
  {
    hide OneTaskEach, Next, Moves;
    id :| id in s.tasks;
    match s.tasks[id].pc
    case Created =>
      step := Begin(id, true, [], []);
      BeginMoves(s, id);
    case Cascading(_, _) =>
      step := CascadeAnswer(id, false);
      AnswerMoves(s, id);
    case Queued(k) =>
      var l := LockAt(s.locks, k);
      if l.holder.Some? {
        id := l.holder.value;
        step := CascadeAnswer(id, false);
        AnswerMoves(s, id);
      } else {
        id := l.waiters[0];
        step := Resume(id, [], []);
        ResumeMoves(s, id);
      }
  }

  /** The step takes the task to another point or to its end. */
  predicate Moves(s: State, id: nat, step: Step) {
    id in s.tasks && (id in Next(s, step).tasks ==> Next(s, step).tasks[id] != s.tasks[id])
  }

  lemma BeginMoves(s: State, id: nat)
    requires id in s.tasks && s.tasks[id].pc.Created?
    ensures Moves(s, id, Begin(id, true, [], []))
  {
  }

  lemma AnswerMoves(s: State, id: nat)
    requires id in s.tasks && s.tasks[id].pc.Cascading? && s.tasks[id].pc.trials != []
    ensures Moves(s, id, CascadeAnswer(id, false))
  {
    assert |s.tasks[id].pc.trials[1..]| < |s.tasks[id].pc.trials|;
  }

  lemma ResumeMoves(s: State, id: nat)
    requires id in s.tasks && s.tasks[id].pc.Queued? && MayResume(LockAt(s.locks, s.tasks[id].pc.key), id)
    ensures Moves(s, id, Resume(id, [], []))
  {
  }

  /** An exception in the cascade, or in the sibling lookup of a task that has just got its lock, ends
      the upgrade as if nothing had been found: the address is on record, neither scheduled nor in
      flight, its task is gone and the lock free; nothing is cached and no other task moves. */
  lemma FaultEnds(s: State, id: nat, readable: bool)
    requires Inv(s) && id in s.tasks
    ensures var pc, ip := s.tasks[id].pc, s.tasks[id].ip;
            var k := if pc.Created? then (if readable then KeyOf(s.weld, ip) else IpKey(ip)) else pc.key;
            var l := LockAt(s.locks, k);
            var step := if pc.Cascading? then Fault(id) else SiblingFault(id, readable);
            var left := if pc.Queued? then l.waiters[1..] else l.waiters;
            (pc.Cascading? || (pc.Created? && l.holder.None? && l.waiters == [])
                || (pc.Queued? && l.holder.None? && l.waiters[0] == id)) ==>
              Next(s, step) == s.(tasks := s.tasks - {id}, attempted := s.attempted + {ip},
                deferred := s.deferred - {ip}, inFlight := s.inFlight - {ip}, locks := s.locks[k := Lock(None, left)])
  {
    hide OneTaskEach;
  }

  // ----- why the premises are needed --------------------------------------------------

  const A: Ip := "10.0.0.1"
  const B: Ip := "10.0.1.1"
  const TRIALS: seq<Cred> := [V3("ops", "SHA-512", "AES-256")]

  /** Two addresses probed, scheduled, made due and picked up by one sweep. */
  const BOTH_DUE: seq<Step> :=
    [ProbeStart(A), ProbeStart(B), ProbeAnswer(0, true), ProbeAnswer(1, true), SetTick(3), CheckDue([A, B])]

  lemma {:induction false} RunConcat(s: State, p: seq<Step>, q: seq<Step>)
    ensures Run(s, p + q) == Run(Run(s, p), q)
    decreases |p|
  {
    if p == [] {
      assert p + q == q;
    } else {
      assert (p + q)[1..] == p[1..] + q;
      RunConcat(Next(s, p[0]), p[1..], q);
    }
  }

  lemma RunTwo(s: State, a: Step, b: Step)
    ensures Run(s, [a, b]) == Next(Next(s, a), b)
  {
    assert Run(s, [a, b]) == Run(Next(s, a), [b]) == Run(Next(Next(s, a), b), []);
  }

  lemma BothProbed(weld: map<Ip, NodeId>)
    ensures Next(Next(Init(weld), ProbeStart(A)), ProbeStart(B)) ==
      Init(weld).(probes := map[0 := A, 1 := B], nextId := 2)
  {
  }

  lemma BothAnswered(s: State)
    requires s.probes == map[0 := A, 1 := B] && s.tick == 0 && s.deferred == map[] && s.capable == {}
    ensures Next(Next(s, ProbeAnswer(0, true)), ProbeAnswer(1, true))
            == s.(probes := map[], deferred := map[A := 3, B := 3], capable := {A, B})
  {
    assert s.probes - {0} - {1} == map[];
  }

  lemma BothScheduled(weld: map<Ip, NodeId>)
    ensures var s := Run(Init(weld), BOTH_DUE[..5]);
            s == Init(weld).(deferred := map[A := 3, B := 3], capable := {A, B}, tick := 3, nextId := 2)
  {
    BothProbed(weld);
    var s2 := Init(weld).(probes := map[0 := A, 1 := B], nextId := 2);
    BothAnswered(s2);
    var s4 := s2.(probes := map[], deferred := map[A := 3, B := 3], capable := {A, B});
    RunTwo(Init(weld), ProbeStart(A), ProbeStart(B));
    RunTwo(s2, ProbeAnswer(0, true), ProbeAnswer(1, true));
    RunConcat(Init(weld), BOTH_DUE[..2], BOTH_DUE[2..4]);
    RunConcat(Init(weld), BOTH_DUE[..4], [SetTick(3)]);
    assert BOTH_DUE[..2] == [ProbeStart(A), ProbeStart(B)]
      && BOTH_DUE[2..4] == [ProbeAnswer(0, true), ProbeAnswer(1, true)];
    assert BOTH_DUE[..2] + BOTH_DUE[2..4] == BOTH_DUE[..4] && BOTH_DUE[..4] + [SetTick(3)] == BOTH_DUE[..5];
    assert Run(s4, [SetTick(3)]) == Run(Next(s4, SetTick(3)), []);
  }

  lemma BothDue(weld: map<Ip, NodeId>)
    ensures var s := Run(Init(weld), BOTH_DUE);
            && s.tasks == map[2 := Task(A, Created), 3 := Task(B, Created)]
            && s.locks == map[] && s.attempted == {} && s.cache == map[] && s.weld == weld && s.ran == {}
  {
    BothScheduled(weld);
    var s := Run(Init(weld), BOTH_DUE[..5]);
    RunConcat(Init(weld), BOTH_DUE[..5], [CheckDue([A, B])]);
    assert BOTH_DUE[..5] + [CheckDue([A, B])] == BOTH_DUE;
    var s1 := Trigger(s, A);
    assert TriggerAll(s, [A, B]) == TriggerAll(s1, [B]) == TriggerAll(Trigger(s1, B), []);
    assert Run(s, [CheckDue([A, B])]) == Run(TriggerAll(s, [A, B]), []);
  }

  lemma BeginAlone(s: State, id: nat, readable: bool, ip: Ip, k: Key)
    requires id in s.tasks && s.tasks[id] == Task(ip, Created)
    requires k == (if readable then KeyOf(s.weld, ip) else IpKey(ip)) && LockAt(s.locks, k) == FREE
    ensures var t := Next(s, Begin(id, readable, [], TRIALS));
            t.tasks == s.tasks[id := Task(ip, Cascading(k, TRIALS))] && t.locks == s.locks[k := Lock(Some(id), [])]
              && t.weld == s.weld
  {
  }

  lemma BothBegin(weld: map<Ip, NodeId>, readable: bool)
    requires !readable || weld == map[]
    ensures var s := Run(Init(weld), BOTH_DUE + [Begin(2, readable, [], TRIALS), Begin(3, readable, [], TRIALS)]);
            Cascades(s.tasks, A) && Cascades(s.tasks, B) && s.weld == weld
  {
    BothDue(weld);
    var s := Run(Init(weld), BOTH_DUE);
    var last := [Begin(2, readable, [], TRIALS), Begin(3, readable, [], TRIALS)];
    RunConcat(Init(weld), BOTH_DUE, last);
    BeginAlone(s, 2, readable, A, IpKey(A));
    var s1 := Next(s, last[0]);
    BeginAlone(s1, 3, readable, B, IpKey(B));
    var s2 := Next(s1, last[1]);
    assert Run(s, last) == Run(s1, last[1..]) == Run(s2, []);
    assert s2.tasks[2].ip == A && s2.tasks[3].ip == B;
  }

  /** If the node of an address changes between two starts, both cascade at once. */
  lemma ReweldLetsTwoCascade()
    ensures var s := Run(Init(map[]),
      BOTH_DUE + [Begin(2, true, [], TRIALS), Begin(3, true, [], TRIALS)] + [Reweld(map[A := 7, B := 7])]);
            Cascades(s.tasks, A) && Cascades(s.tasks, B) && Pair(s.weld, Running(s))
  {
    BothBegin(map[], true);
    RunConcat(Init(map[]), BOTH_DUE + [Begin(2, true, [], TRIALS), Begin(3, true, [], TRIALS)],
      [Reweld(map[A := 7, B := 7])]);
  }

  /** So they do when the node lookup fails: the fallback key is private to each address. */
  lemma UnreadableNodeLetsTwoCascade()
    ensures var s := Run(Init(map[A := 7, B := 7]),
      BOTH_DUE + [Begin(2, false, [], TRIALS), Begin(3, false, [], TRIALS)]);
            Cascades(s.tasks, A) && Cascades(s.tasks, B) && Pair(s.weld, Running(s))
  {
    BothBegin(map[A := 7, B := 7], false);
  }

  // ----- when a probe schedules, and when a check repeats -----------------------------

  /** A step that answers the probe `id`. */
  predicate Answers(step: Step, id: nat) { step.ProbeAnswer? && step.id == id }

  lemma {:induction false} ProbePending(s: State, steps: seq<Step>, id: nat)
    requires Inv(s) && id < s.nextId && forall i :: 0 <= i < |steps| ==> !Answers(steps[i], id)
    ensures Inv(Run(s, steps)) && (id in Run(s, steps).probes <==> id in s.probes)
    ensures id in s.probes ==> Run(s, steps).probes[id] == s.probes[id]
    decreases |steps|
  {
    if steps != [] {
      StepKeeps(s, steps[0]);
      ProbeStays(s, steps[0], id);
      ProbePending(Next(s, steps[0]), steps[1..], id);
    }
  }

  lemma ProbeStays(s: State, step: Step, id: nat)
    requires Inv(s) && id < s.nextId && !Answers(step, id)
    ensures var t := Next(s, step);
            id < t.nextId && (id in t.probes <==> id in s.probes) && (id in s.probes ==> t.probes[id] == s.probes[id])
  {
    hide Next, TriggerAll, Inv, Idle;
    if Idle(s, step) {
      IdleStays(s, step);
    } else if step.ProbeStart? {
      StartEffect(s, step.ip);
    } else if step.ProbeAnswer? {
      AnswerEffect(s, step.id, step.hasEngine);
    } else if step.CheckDue? {
      SweepProbes(s, step.order);
    } else {
      UpgradeProbes(s, step);
    }
  }

  lemma StartEffect(s: State, ip: Ip)
    ensures var t := Next(s, ProbeStart(ip));
            && t.nextId == s.nextId + 1 && t.deferred == s.deferred && t.capable == s.capable
            && t.probes == if ip in s.deferred || ip in s.inFlight then s.probes else s.probes[s.nextId := ip]
  {
  }

  lemma AnswerEffect(s: State, id: nat, hasEngine: bool)
    ensures var t := Next(s, ProbeAnswer(id, hasEngine));
            && t.probes == s.probes - {id} && t.nextId == s.nextId
            && (id !in s.probes || !hasEngine ==> t.deferred == s.deferred && t.capable == s.capable)
            && (id in s.probes && hasEngine ==>
                  var ip := s.probes[id];
                  t.deferred == s.deferred[ip := s.tick + V3_UPGRADE_DEFER_TICKS] && t.capable == s.capable + {ip})
  {
  }

  lemma UpgradeProbes(s: State, step: Step)
    requires !Idle(s, step) && !step.ProbeStart? && !step.ProbeAnswer? && !step.CheckDue?
    ensures Next(s, step).probes == s.probes && Next(s, step).nextId >= s.nextId
  {
    hide Enter, Finish, KeyOf, Consult;
    match step
    case Begin(id, readable, siblings, trials) =>
      EnterEffect(s, id, if readable then KeyOf(s.weld, s.tasks[id].ip) else IpKey(s.tasks[id].ip), siblings, trials);
    case Resume(id, siblings, trials) => EnterEffect(Woken(s, s.tasks[id].pc.key), id, s.tasks[id].pc.key, siblings,
      trials);
    case CascadeAnswer(id, ok) =>
      var Task(ip, Cascading(k, trials)) := s.tasks[id];
      FinishEffect(s, id, k);
      FinishEffect(s.(cache := s.cache[ip := Works(trials[0])]), id, k);
    case SiblingFault(id, readable) => SiblingFaultEffect(s, id, readable);
    case Fault(id) => FinishEffect(s, id, s.tasks[id].pc.key);
    case _ =>
  }

  lemma SweepProbes(s: State, order: seq<Ip>)
    ensures Next(s, CheckDue(order)).probes == s.probes && Next(s, CheckDue(order)).nextId >= s.nextId
  {
    TriggerAllProbes(s, order);
  }

  lemma {:induction false} TriggerAllProbes(s: State, ips: seq<Ip>)
    ensures TriggerAll(s, ips).probes == s.probes && TriggerAll(s, ips).nextId >= s.nextId
    decreases |ips|
  {
    if ips != [] {
      TriggerAllProbes(Trigger(s, ips[0]), ips[1..]);
    }
  }

  /** Exactly when a probe writes the schedule: when the address was neither scheduled nor in flight
      as it started, and an engine answered. What happened in between does not matter: the write is
      3 ticks past the tick of the answer, over whatever the schedule then says. */
  lemma ProbeWritesIff(s: State, ip: Ip, between: seq<Step>, hasEngine: bool)
    requires Inv(s) && forall i :: 0 <= i < |between| ==> !Answers(between[i], s.nextId)
    ensures var t := Run(Next(s, ProbeStart(ip)), between);
            var u := Next(t, ProbeAnswer(s.nextId, hasEngine));
            if ip !in s.deferred && ip !in s.inFlight && hasEngine
            then u.deferred == t.deferred[ip := t.tick + 3] && ip in u.capable
            else u.deferred == t.deferred && u.capable == t.capable
  {
    hide Inv, Run, Next;
    FreshProbe(s);
    StepKeeps(s, ProbeStart(ip));
    StartEffect(s, ip);
    ProbePending(Next(s, ProbeStart(ip)), between, s.nextId);
    AnswerEffect(Run(Next(s, ProbeStart(ip)), between), s.nextId, hasEngine);
  }

  lemma FreshProbe(s: State)
    requires Inv(s)
    ensures s.nextId !in s.probes
  {
  }

  /** So two probes that overlap both write, and the later answer moves the due tick. */
  lemma OverlappingProbesOverwrite(s: State, ip: Ip, later: int)
    requires Inv(s) && ip !in s.deferred && ip !in s.inFlight
    ensures var first, second := s.nextId, s.nextId + 1;
            var both := Next(Next(s, ProbeStart(ip)), ProbeStart(ip));
            var once := Next(both, ProbeAnswer(first, true));
            var twice := Next(Next(once, SetTick(later)), ProbeAnswer(second, true));
            && once.deferred[ip] == s.tick + 3
            && twice.deferred[ip] == later + 3
  {
  }

  /** The path from a probe to the lock: probed, answered, due, picked up, started. */
  function Again(s: State, ip: Ip, readable: bool, rows: seq<Ip>, trials: seq<Cred>): seq<Step> {
    [ProbeStart(ip), ProbeAnswer(s.nextId, true), SetTick(s.tick + V3_UPGRADE_DEFER_TICKS), Touch(ip),
     Begin(s.nextId + 1, readable, rows, trials)]
  }

  lemma AgainStarts(s: State, ip: Ip, readable: bool, rows: seq<Ip>, trials: seq<Cred>)
    requires Inv(s) && ip !in s.deferred
    ensures var t := Run(s, Again(s, ip, readable, rows, trials)[..4]);
            && t == s.(deferred := s.deferred[ip := s.tick + V3_UPGRADE_DEFER_TICKS], capable := s.capable + {ip},
                       tick := s.tick + V3_UPGRADE_DEFER_TICKS, inFlight := s.inFlight + {ip},
                       tasks := s.tasks[s.nextId + 1 := Task(ip, Created)], nextId := s.nextId + 2)
  {
    var again := Again(s, ip, readable, rows, trials);
    ProbedAgain(s, ip);
    var s2 := Next(Next(s, again[0]), again[1]);
    RunTwo(s, again[0], again[1]);
    RunTwo(s2, again[2], again[3]);
    RunConcat(s, [again[0], again[1]], [again[2], again[3]]);
    assert again[..4] == [again[0], again[1]] + [again[2], again[3]];
  }

  lemma ProbedAgain(s: State, ip: Ip)
    requires Inv(s) && ip !in s.deferred
    ensures Next(Next(s, ProbeStart(ip)), ProbeAnswer(s.nextId, true))
            == s.(deferred := s.deferred[ip := s.tick + V3_UPGRADE_DEFER_TICKS], capable := s.capable + {ip},
              nextId := s.nextId + 1)
  {
    assert s.probes[s.nextId := ip] - {s.nextId} == s.probes;
  }

  /** Whether its check has completed before makes no difference. An address that is not scheduled,
      welded or not, can be probed and scheduled again; it then cascades at once if and only if its
      lock is free and Consult, which never looks at the address itself, finds its rows untried; if
      the lock is taken it queues for it. A scheduled or in-flight address is not probed again. */
  lemma CompletedCheckRepeats(s: State, ip: Ip, readable: bool, rows: seq<Ip>, trials: seq<Cred>)
    requires Inv(s) && ip in s.attempted && trials != []
    ensures ip in s.deferred ==> Next(s, ProbeStart(ip)) == s.(nextId := s.nextId + 1)
    ensures ip !in s.deferred ==> RepeatOutcome(s, ip, Run(s, Again(s, ip, readable, rows, trials)), readable, rows)
  {
    hide Inv, RepeatOutcome, Next, Run;
    if ip in s.deferred {
      ScheduledNotProbed(s, ip);
    } else {
      AgainEnds(s, ip, readable, rows, trials);
      AgainBegins(s, ip, readable, rows, trials);
    }
  }

  lemma ScheduledNotProbed(s: State, ip: Ip)
    requires ip in s.deferred
    ensures Next(s, ProbeStart(ip)) == s.(nextId := s.nextId + 1)
  {
  }

  /** At once, or in the queue, or not at all. */
  ghost predicate RepeatOutcome(s: State, ip: Ip, t: State, readable: bool, rows: seq<Ip>) {
    var l := LockAt(s.locks, if readable then KeyOf(s.weld, ip) else IpKey(ip));
    && (Cascades(t.tasks, ip) <==> Immediate(l) && Consult(s, rows) == Untried)
    && (s.nextId + 1 in t.tasks && t.tasks[s.nextId + 1].pc.Queued? <==> !Immediate(l))
  }

  lemma AgainBegins(s: State, ip: Ip, readable: bool, rows: seq<Ip>, trials: seq<Cred>)
    requires Inv(s) && ip !in s.deferred && trials != []
    ensures var t := Run(s, Again(s, ip, readable, rows, trials)[..4]);
            RepeatOutcome(s, ip, Next(t, Begin(s.nextId + 1, readable, rows, trials)), readable, rows)
  {
    hide Inv, Run, Next, Consult, LockAt, KeyOf, Immediate, Cascades;
    var t := Run(s, Again(s, ip, readable, rows, trials)[..4]);
    AgainStarts(s, ip, readable, rows, trials);
    SameConsult(s, t, rows);
    NoOtherTask(s, ip);
    OnlyTask(t, s.nextId + 1, readable, rows, trials);
  }

  lemma AgainEnds(s: State, ip: Ip, readable: bool, rows: seq<Ip>, trials: seq<Cred>)
    ensures var again := Again(s, ip, readable, rows, trials);
            Run(s, again) == Next(Run(s, again[..4]), again[4])
  {
    var again := Again(s, ip, readable, rows, trials);
    RunConcat(s, again[..4], [again[4]]);
    var t := Run(s, again[..4]);
    assert again == again[..4] + [again[4]] && Run(t, [again[4]]) == Run(Next(t, again[4]), []);
  }

  lemma NoOtherTask(s: State, ip: Ip)
    requires Inv(s) && ip !in s.deferred
    ensures forall j :: j in s.tasks ==> s.tasks[j].ip != ip && j < s.nextId
  {
  }

  /** The fresh task `id` is the only one of its address. */
  lemma OnlyTask(t: State, id: nat, readable: bool, rows: seq<Ip>, trials: seq<Cred>)
    requires id in t.tasks && t.tasks[id].pc.Created? && trials != []
    requires forall j :: j in t.tasks && j != id ==> t.tasks[j].ip != t.tasks[id].ip
    ensures var u := Next(t, Begin(id, readable, rows, trials));
            var l := LockAt(t.locks, if readable then KeyOf(t.weld, t.tasks[id].ip) else IpKey(t.tasks[id].ip));
            && (Cascades(u.tasks, t.tasks[id].ip) <==> Immediate(l) && Consult(t, rows) == Untried)
            && (id in u.tasks && u.tasks[id].pc.Queued? <==> !Immediate(l))
  {
    hide Next, Consult, KeyOf;
    var u := Next(t, Begin(id, readable, rows, trials));
    var k := if readable then KeyOf(t.weld, t.tasks[id].ip) else IpKey(t.tasks[id].ip);
    BeginOutcome(t, id, readable, rows, trials);
    if id in u.tasks && u.tasks[id].pc.Cascading? {
      assert u.tasks[id].ip == t.tasks[id].ip;
    }
  }

  lemma BeginOutcome(t: State, id: nat, readable: bool, rows: seq<Ip>, trials: seq<Cred>)
    requires id in t.tasks && t.tasks[id].pc.Created? && trials != []
    ensures var k := if readable then KeyOf(t.weld, t.tasks[id].ip) else IpKey(t.tasks[id].ip);
            Next(t, Begin(id, readable, rows, trials)).tasks ==
              if !Immediate(LockAt(t.locks, k)) then t.tasks[id := Task(t.tasks[id].ip, Queued(k))]
              else if Consult(t, rows) == Untried then t.tasks[id := Task(t.tasks[id].ip, Cascading(k, trials))]
              else t.tasks - {id}
  {
    hide Consult, Enter, KeyOf;
    EnterEffect(t, id, if readable then KeyOf(t.weld, t.tasks[id].ip) else IpKey(t.tasks[id].ip), rows, trials);
  }

  /** And wherever an upgrade task gets its lock, at once or from the queue, it cascades if and only
      if its rows are untried. */
  lemma GrantCascadesIff(s: State, step: Step)
    requires Inv(s) && GrantOf(s, step).Grant? && step.trials != []
    ensures var g := GrantOf(s, step);
            && g.id in s.tasks
            && (Cascades(Next(s, step).tasks, s.tasks[g.id].ip) <==> Consult(s, g.rows) == Untried)
  {
    hide Inv, Consult, Enter;
    var g := GrantOf(s, step);
    NoOtherTaskOf(s, g.id);
    if step.Resume? {
      SameConsult(s, Woken(s, g.key), g.rows);
      EnterEffect(Woken(s, g.key), g.id, g.key, g.rows, step.trials);
    } else {
      EnterEffect(s, g.id, g.key, g.rows, step.trials);
    }
    var ip, t := s.tasks[g.id].ip, Next(s, step);
    if Consult(s, g.rows) == Untried {
      assert t.tasks[g.id].ip == ip && t.tasks[g.id].pc.Cascading?;
    }
  }

  lemma NoOtherTaskOf(s: State, id: nat)
    requires Inv(s) && id in s.tasks
    ensures forall j :: j in s.tasks && j != id ==> s.tasks[j].ip != s.tasks[id].ip
  {
  }

  // ----- what the sibling rows decide, and what is cached -----------------------------

  /** The cache holds a working v3 credential for the address. */
  predicate KnownV3(cache: map<Ip, Entry>, b: Ip) { b in cache && cache[b].Works? && cache[b].cred.V3? }

  /** A sibling whose check is over or that has a working v3 credential. A v2c credential is neither. */
  predicate Settled(s: State, b: Ip) { b in s.attempted || KnownV3(s.cache, b) }

  /** Row `i` is the first that decides, and it has a v3 credential to reuse. */
  ghost predicate FirstReusable(s: State, rows: seq<Ip>, i: int) {
    0 <= i < |rows| && KnownV3(s.cache, rows[i]) && forall j :: 0 <= j < i ==> !Settled(s, rows[j])
  }

  lemma {:induction false} ConsultMeans(s: State, rows: seq<Ip>)
    ensures Consult(s, rows) == Untried <==> forall i :: 0 <= i < |rows| ==> !Settled(s, rows[i])
    ensures forall i :: FirstReusable(s, rows, i) ==> Consult(s, rows) == Reuse(s.cache[rows[i]].cred)
    ensures Consult(s, rows).Reuse? ==> exists i :: FirstReusable(s, rows, i)
  {
    if rows != [] {
      ConsultMeans(s, rows[1..]);
      FirstShifts(s, rows);
    }
  }

  lemma FirstShifts(s: State, rows: seq<Ip>)
    requires rows != []
    ensures FirstReusable(s, rows, 0) <==> KnownV3(s.cache, rows[0])
    ensures forall i :: i != 0 && FirstReusable(s, rows, i) ==> !Settled(s, rows[0])
    ensures !Settled(s, rows[0]) ==> forall i :: FirstReusable(s, rows[1..], i) ==> FirstReusable(s, rows, i + 1)
    ensures forall i :: i != 0 && FirstReusable(s, rows, i) ==> FirstReusable(s, rows[1..], i - 1)
    ensures (forall i :: 0 <= i < |rows| ==> !Settled(s, rows[i]))
      <==> !Settled(s, rows[0]) && forall i :: 0 <= i < |rows[1..]| ==> !Settled(s, rows[1..][i])
  {
    var rest := rows[1..];
    assert forall i :: 0 < i < |rows| ==> rows[i] == rest[i - 1];
    forall i | i != 0 && FirstReusable(s, rows, i) ensures FirstReusable(s, rest, i - 1) {
      assert forall j :: 0 <= j < i - 1 ==> rest[j] == rows[j + 1];
    }
    if !Settled(s, rows[0]) {
      forall i | FirstReusable(s, rest, i) ensures FirstReusable(s, rows, i + 1) {
        assert forall j :: 0 < j < i + 1 ==> rows[j] == rest[j - 1];
      }
    }
  }

  /** What a granted task does, said of its rows: it enters the cascade if and only if no row is on
      record and none has a working v3 credential, v2c credentials of siblings notwithstanding. */
  lemma GrantDecides(s: State, step: Step)
    requires Inv(s) && GrantOf(s, step).Grant?
    ensures var g, t := GrantOf(s, step), Next(s, step);
            && g.id in s.tasks
            && (t.entries == s.entries + 1 <==> forall b :: b in g.rows ==>
                  b !in s.attempted && !(b in s.cache && s.cache[b].Works? && s.cache[b].cred.V3?))
            && (step.trials != [] ==>
                  (Cascades(t.tasks, s.tasks[g.id].ip) <==> forall b :: b in g.rows ==>
                    b !in s.attempted && !(b in s.cache && s.cache[b].Works? && s.cache[b].cred.V3?)))
  {
    hide Inv, Consult, Next, Cascades;
    var g := GrantOf(s, step);
    EntersIff(s, step);
    GrantedBy(s, step);
    ConsultMeans(s, g.rows);
    if step.trials != [] {
      GrantCascadesIff(s, step);
    }
  }

  /** What a grant caches: nothing for any other address; for its own the v3 credential of the first row
      that decides, if that is one with a v3 credential, and nothing otherwise. */
  lemma GrantCaches(s: State, step: Step)
    requires Inv(s) && GrantOf(s, step).Grant?
    ensures var g, t := GrantOf(s, step), Next(s, step);
            && g.id in s.tasks
            && (forall i :: FirstReusable(s, g.rows, i) ==>
                  t.cache == s.cache[s.tasks[g.id].ip := Works(s.cache[g.rows[i]].cred)])
            && ((forall i :: !FirstReusable(s, g.rows, i)) ==> t.cache == s.cache)
  {
    hide Inv, Consult, Enter, FirstReusable;
    var g := GrantOf(s, step);
    GrantedBy(s, step);
    ConsultMeans(s, g.rows);
    if step.Resume? {
      SameConsult(s, Woken(s, g.key), g.rows);
      EnterCaches(Woken(s, g.key), g.id, g.key, g.rows, step.trials);
    } else {
      EnterCaches(s, g.id, g.key, g.rows, step.trials);
    }
  }

  lemma EnterCaches(s: State, id: nat, k: Key, rows: seq<Ip>, trials: seq<Cred>)
    requires id in s.tasks
    ensures Enter(s, id, k, rows, trials).cache ==
      match Consult(s, rows) case Reuse(cred) => s.cache[s.tasks[id].ip := Works(cred)] case _ => s.cache
  {
    hide Consult, Finish;
    var ip := s.tasks[id].ip;
    match Consult(s, rows)
    case Reuse(cred) => FinishEffect(s.(cache := s.cache[ip := Works(cred)]), id, k);
    case Tried => FinishEffect(s, id, k);
    case Untried => FinishEffect(s.(ran := s.ran + {ip}, entries := s.entries + 1), id, k);
  }

  /** What every other step caches: a cascade that is answered the very credential it asked with, for its
      own address; somebody else's write what it writes; nothing else anything. */
  lemma OthersCache(s: State, step: Step)
    requires GrantOf(s, step).NoGrant?
    ensures var t := Next(s, step);
            match step
            case CascadeAnswer(id, ok) =>
              t.cache == if ok && id in s.tasks && s.tasks[id].pc.Cascading? && s.tasks[id].pc.trials != []
                then s.cache[s.tasks[id].ip := Works(s.tasks[id].pc.trials[0])] else s.cache
            case OtherWrite(ip, entry) => t.cache == s.cache[ip := entry]
            case _ => t.cache == s.cache
  {
    hide Next, Idle;
    match step
    case CascadeAnswer(id, ok) => AnswerCaches(s, id, ok);
    case OtherWrite(ip, entry) => WriteEffect(s, ip, entry);
    case _ =>
      if Idle(s, step) {
        IdleStays(s, step);
      } else {
        CachesNothing(s, step);
      }
  }

  lemma CachesNothing(s: State, step: Step)
    requires GrantOf(s, step).NoGrant? && !Idle(s, step) && !step.CascadeAnswer? && !step.OtherWrite?
    ensures Next(s, step).cache == s.cache
  {
    hide Next;
    match step
    case SetTick(tick) => TickEffect(s, tick);
    case Touch(ip) => TouchCaches(s, ip);
    case CheckDue(order) => SweepCaches(s, order);
    case ProbeStart(ip) => ProbeStartEffect(s, ip);
    case ProbeAnswer(id, hasEngine) => ProbeAnswerEffect(s, id, hasEngine);
    case Begin(_, _, _, _) => QueueCaches(s, step);
    case NodeFault(id) => NodeFaultCaches(s, id);
    case SiblingFault(id, readable) => SiblingFaultEffect(s, id, readable);
    case Fault(id) => FaultCaches(s, id);
    case Reweld(weld) => WeldEffect(s, weld);
  }

  lemma AnswerCaches(s: State, id: nat, ok: bool)
    ensures Next(s, CascadeAnswer(id, ok)).cache ==
      if ok && id in s.tasks && s.tasks[id].pc.Cascading? && s.tasks[id].pc.trials != []
      then s.cache[s.tasks[id].ip := Works(s.tasks[id].pc.trials[0])] else s.cache
  {
  }

  lemma NodeFaultCaches(s: State, id: nat)
    ensures Next(s, NodeFault(id)).cache == s.cache
  {
  }

  lemma FaultCaches(s: State, id: nat)
    ensures Next(s, Fault(id)).cache == s.cache
  {
  }

  lemma QueueCaches(s: State, step: Step)
    requires step.Begin? && !Idle(s, step) && GrantOf(s, step).NoGrant?
    ensures Next(s, step).cache == s.cache
  {
    hide KeyOf, Enter;
  }

  lemma TouchCaches(s: State, ip: Ip)
    ensures Next(s, Touch(ip)).cache == s.cache
  {
  }

  lemma SweepCaches(s: State, order: seq<Ip>)
    ensures Next(s, CheckDue(order)).cache == s.cache
  {
    TriggerAllCaches(s, order);
  }

  lemma {:induction false} TriggerAllCaches(s: State, ips: seq<Ip>)
    ensures TriggerAll(s, ips).cache == s.cache
    decreases |ips|
  {
    if ips != [] {
      TriggerAllCaches(Trigger(s, ips[0]), ips[1..]);
    }
  }

  function Misses(id: nat, k: nat): seq<Step> { seq(k, i => CascadeAnswer(id, false)) }

  /** A cascade asks with its trials in turn until one is answered: after `k` misses it asks with trial
      `k`, which an answer then caches; after misses with all of them it caches nothing and is over. */
  lemma {:induction false} CascadeAsksInTurn(s: State, id: nat, k: nat)
    requires id in s.tasks && s.tasks[id].pc.Cascading? && k <= |s.tasks[id].pc.trials| && s.tasks[id].pc.trials != []
    ensures var trials, t := s.tasks[id].pc.trials, Run(s, Misses(id, k));
            && t.cache == s.cache
            && (k < |trials| ==> id in t.tasks && t.tasks[id].ip == s.tasks[id].ip)
            && (k < |trials| ==> t.tasks[id].pc == Cascading(s.tasks[id].pc.key, trials[k..]))
            && (k < |trials| ==> Next(t, CascadeAnswer(id, true)).cache == s.cache[s.tasks[id].ip := Works(trials[k])])
            && (k == |trials| ==> id !in t.tasks && s.tasks[id].ip in t.attempted)
    decreases k
  {
    hide Enter, Trigger, TriggerAll, StartProbe, EndProbe, KeyOf, Idle, Woken, LockAt, Cascades;
    if k > 0 {
      CascadeAsksInTurn(s, id, k - 1);
      assert Misses(id, k) == Misses(id, k - 1) + [CascadeAnswer(id, false)];
      RunConcat(s, Misses(id, k - 1), [CascadeAnswer(id, false)]);
      var t := Run(s, Misses(id, k - 1));
      assert Run(t, [CascadeAnswer(id, false)]) == Run(Next(t, CascadeAnswer(id, false)), []);
    }
  }

  // ----- the module globals and the functions that update them in place ---------------

  class SnmpAdapter {
    var credentialCache: map<Ip, Entry>
    var deferredV3Upgrade: map<Ip, int>
    var v3UpgradeInFlight: set<Ip>
    var v3UpgradeAttempted: set<Ip>
    var v3CapableIps: set<Ip>
    var currentTick: int
    var nodeV3UpgradeLocks: map<Key, Lock>
    var tasks: map<nat, Task>
    var probes: map<nat, Ip>
    var nextId: nat
    ghost var weld: map<Ip, NodeId>
    ghost var ran: set<Ip>
    ghost var entries: nat
    ghost var lost: set<Ip>

    ghost function Now(): State
      reads this
    {
      State(credentialCache, deferredV3Upgrade, v3UpgradeInFlight, v3UpgradeAttempted, v3CapableIps, currentTick,
            weld, nodeV3UpgradeLocks, tasks, probes, nextId, ran, entries, lost)
    }

    method MaybeTriggerDeferredV3Upgrade(ip: Ip)
      modifies this
      ensures Now() == Trigger(old(Now()), ip)
      ensures Triggered(old(Now()), Now(), ip)
    {
      hide Inv, Triggered;
      TriggeredBy(Now(), ip);
      if ip !in deferredV3Upgrade || currentTick < deferredV3Upgrade[ip] || ip in v3UpgradeInFlight {
        return;
      }
      v3UpgradeInFlight := v3UpgradeInFlight + {ip};
      tasks := tasks[nextId := Task(ip, Created)];
      nextId := nextId + 1;
    }

    /** The keys are copied first, in whatever order the dict holds them. */
    method CheckDueV3Upgrades() returns (order: seq<Ip>)
      modifies this
      ensures SameElements(order, old(deferredV3Upgrade).Keys)
      ensures Now() == TriggerAll(old(Now()), order)
    {
      order := [];
      var todo := deferredV3Upgrade.Keys;
      while todo != {}
        invariant deferredV3Upgrade == old(deferredV3Upgrade) && todo <= deferredV3Upgrade.Keys
        invariant SameElements(order, deferredV3Upgrade.Keys - todo)
        invariant Now() == TriggerAll(old(Now()), order)
        decreases todo
      {
        var ip :| ip in todo;
        TriggerAllAppend(old(Now()), order, ip);
        MaybeTriggerDeferredV3Upgrade(ip);
        order := order + [ip];
        todo := todo - {ip};
      }
    }

    /** The sibling loop of _run_deferred_v3_upgrade. */
    method ConsultSiblings(siblings: seq<Ip>) returns (v: Verdict)
      ensures v == Consult(Now(), siblings)
      ensures v == Untried <==> forall b :: b in siblings ==>
        b !in v3UpgradeAttempted
        && !(b in credentialCache && credentialCache[b].Works? && credentialCache[b].cred.V3?)
      ensures v.Reuse? ==> exists i :: FirstReusable(Now(), siblings, i) && v.cred == credentialCache[siblings[i]].cred
      ensures v.Tried? ==> forall i :: !FirstReusable(Now(), siblings, i)
    {
      ConsultMeans(Now(), siblings);
      var i := 0;
      while i < |siblings|
        invariant 0 <= i <= |siblings|
        invariant Consult(Now(), siblings) == Consult(Now(), siblings[i..])
      {
        var b := siblings[i];
        if b in credentialCache && credentialCache[b].Works? && credentialCache[b].cred.V3? {
          return Reuse(credentialCache[b].cred);
        }
        if b in v3UpgradeAttempted {
          return Tried;
        }
        i := i + 1;
      }
      return Untried;
    }

    /** The finally block, after which `async with` releases the node lock. */
    method FinishUpgrade(id: nat, k: Key)
      requires id in tasks
      modifies this
      ensures Now() == Finish(old(Now()), id, k)
      ensures Finished(old(Now()), Now(), id, k)
    {
      hide Inv, Finished;
      FinishedBy(Now(), id, k);
      var ip := tasks[id].ip;
      v3UpgradeAttempted := v3UpgradeAttempted + {ip};
      deferredV3Upgrade := deferredV3Upgrade - {ip};
      v3UpgradeInFlight := v3UpgradeInFlight - {ip};
      tasks := tasks - {id};
      nodeV3UpgradeLocks := nodeV3UpgradeLocks[k := LockAt(nodeV3UpgradeLocks, k).(holder := None)];
    }
  }

  lemma {:induction false} TriggerAllAppend(s: State, ips: seq<Ip>, ip: Ip)
    ensures TriggerAll(s, ips + [ip]) == Trigger(TriggerAll(s, ips), ip)
    decreases |ips|
  {
    if ips == [] {
      assert TriggerAll(s, [ip]) == TriggerAll(Trigger(s, ip), []);
    } else {
      assert (ips + [ip])[1..] == ips[1..] + [ip];
      TriggerAllAppend(Trigger(s, ips[0]), ips[1..], ip);
    }
  }
}
