/** src/engine/hostname_registry.py: the one priority-aware writer of a node's host name. */
module HostnameRegistry {
  import opened Common
  import opened Text

  type NodeId = nat
  type Mac = string
  type Ip = string

  const JUNK := {"", "unknown device", "unknown", "n/a", "none", "localhost"}
  const MAX_HOSTNAME_LENGTH := 253

  /** The two columns of logical_nodes; a NULL priority counts as 0. */
  datatype Node = Node(hostname: Option<string>, priority: Option<int>)

  datatype Write = Write(hostname: string, priority: int)

  predicate Control(c: char) { (c as int) < 0x20 || c as int == 0x7f }

  /** is_usable_hostname */
  predicate Usable(value: string, u: Unicode) {
    var v := Strip(value, u.isSpace);
    && v != "" && u.lower(v) !in JUNK
    && |v| <= MAX_HOSTNAME_LENGTH
    && forall i :: 0 <= i < |v| ==> !Control(v[i])
  }

  /** The gate and the clean-up every write goes through. */
  datatype Rules = Rules(usable: string -> bool, clean: string -> string)

  function RulesOf(u: Unicode): Rules { Rules(s => Usable(s, u), s => Strip(s, u.isSpace)) }

  function Priority(n: Node): int { n.priority.GetOr(0) }

  predicate Accepted(n: Node, w: Write, r: Rules) { r.usable(w.hostname) && w.priority >= Priority(n) }

  /** One write: a tie overwrites, against the module comment at line 15. */
  function Apply(n: Node, w: Write, r: Rules): Node {
    if Accepted(n, w, r) then Node(Some(r.clean(w.hostname)), Some(w.priority)) else n
  }

  function ApplyAll(n: Node, ws: seq<Write>, r: Rules): Node {
    if ws == [] then n else Apply(ApplyAll(n, ws[..|ws| - 1], r), ws[|ws| - 1], r)
  }

  /** What the gate lets through and what it stores, character by character. */
  lemma UsableMeans(u: Unicode, s: string) returns (i: nat)
    ensures RulesOf(u).usable(s) <==>
      && RulesOf(u).clean(s) != ""
      && u.lower(RulesOf(u).clean(s)) !in {"", "unknown device", "unknown", "n/a", "none", "localhost"}
      && |RulesOf(u).clean(s)| <= 253
      && forall k :: 0 <= k < |RulesOf(u).clean(s)| ==> 0x20 <= RulesOf(u).clean(s)[k] as int != 0x7f
    ensures Stripped(RulesOf(u).clean(s), u.isSpace)
    ensures i + |RulesOf(u).clean(s)| <= |s| && s[i..i + |RulesOf(u).clean(s)|] == RulesOf(u).clean(s)
    ensures forall k :: 0 <= k < i || i + |RulesOf(u).clean(s)| <= k < |s| ==> u.isSpace(s[k])
  {
    hide Strip;
    i := StripExactly(s, u.isSpace);
  }

  // ----- the batch definition ---------------------------------------------------------

  /** The highest priority among the start and the usable writes. */
  ghost predicate IsHighest(start: int, ws: seq<Write>, r: Rules, p: int) {
    && p >= start
    && (forall i :: 0 <= i < |ws| && r.usable(ws[i].hostname) ==> ws[i].priority <= p)
    && (p == start || exists i :: UsableAt(ws, r, p, i))
  }

  predicate UsableAt(ws: seq<Write>, r: Rules, p: int, i: int) {
    0 <= i < |ws| && r.usable(ws[i].hostname) && ws[i].priority == p
  }

  ghost predicate LastAt(ws: seq<Write>, r: Rules, p: int, i: int) {
    UsableAt(ws, r, p, i) && forall j :: i < j < |ws| ==> !UsableAt(ws, r, p, j)
  }

  // ----- order ------------------------------------------------------------------------

  /** The writes of one priority, in order. */
  function AtPriority(ws: seq<Write>, p: int): seq<Write> {
    if ws == [] then []
    else AtPriority(ws[..|ws| - 1], p) + if ws[|ws| - 1].priority == p then [ws[|ws| - 1]] else []
  }

  /** The last usable write of a priority. */
  function LastName(ws: seq<Write>, r: Rules, p: int): Option<string> {
    if ws == [] then None
    else if UsableAt(ws, r, p, |ws| - 1) then Some(ws[|ws| - 1].hostname)
    else LastName(ws[..|ws| - 1], r, p)
  }

  lemma {:induction false} LastNameIsLast(ws: seq<Write>, r: Rules, p: int)
    ensures LastName(ws, r, p).None? ==> forall i :: !UsableAt(ws, r, p, i)
    ensures LastName(ws, r, p).Some? ==> exists i :: LastAt(ws, r, p, i) && ws[i].hostname == LastName(ws, r, p).value
  {
    if ws != [] {
      var rest := ws[..|ws| - 1];
      LastNameIsLast(rest, r, p);
      assert forall i :: 0 <= i < |rest| ==> (UsableAt(ws, r, p, i) <==> UsableAt(rest, r, p, i));
      if UsableAt(ws, r, p, |rest|) {
        assert LastAt(ws, r, p, |rest|);
      } else if LastName(rest, r, p).Some? {
        var i :| LastAt(rest, r, p, i) && rest[i].hostname == LastName(rest, r, p).value;
        assert LastAt(ws, r, p, i);
      } else {
        assert forall i :: !UsableAt(ws, r, p, i);
      }
    }
  }

  /** LastName sees only the writes of its own priority. */
  lemma {:induction false} LastNameWithin(ws: seq<Write>, r: Rules, p: int)
    ensures LastName(ws, r, p) == LastName(AtPriority(ws, p), r, p)
  {
    if ws != [] {
      var rest, w := ws[..|ws| - 1], ws[|ws| - 1];
      LastNameWithin(rest, r, p);
      var at := AtPriority(ws, p);
      if w.priority == p {
        assert at[|at| - 1] == w && at[..|at| - 1] == AtPriority(rest, p);
      } else {
        assert at == AtPriority(rest, p);
      }
    }
  }

  /** The result as a function of what each priority offers. */
  ghost predicate Decided(n: Node, ws: seq<Write>, r: Rules, after: Node) {
    var p := Priority(after);
    && p >= Priority(n) && (p == Priority(n) || LastName(ws, r, p).Some?)
    && (forall q :: LastName(ws, r, q).Some? ==> q <= p)
    && after == (match LastName(ws, r, p) case None => n case Some(h) => Node(Some(r.clean(h)), Some(p)))
  }

  lemma {:induction false} FromLastNames(n: Node, ws: seq<Write>, r: Rules)
    ensures Decided(n, ws, r, ApplyAll(n, ws, r))
  {
    if ws != [] {
      var rest, w := ws[..|ws| - 1], ws[|ws| - 1];
      FromLastNames(n, rest, r);
      forall q
        ensures LastName(ws, r, q) == if r.usable(w.hostname) && w.priority == q
          then Some(w.hostname) else LastName(rest, r, q)
      {
      }
    }
  }

  /** After any writes the priority is the highest there was, and the name is the last usable write at
      it; without a usable write at it the node is as it started. */
  lemma RegistryHolds(n: Node, ws: seq<Write>, r: Rules)
    ensures var p := Priority(ApplyAll(n, ws, r));
            && IsHighest(Priority(n), ws, r, p)
            && (forall i :: LastAt(ws, r, p, i) ==> ApplyAll(n, ws, r) == Node(Some(r.clean(ws[i].hostname)), Some(p)))
            && ((forall i :: !UsableAt(ws, r, p, i)) ==> ApplyAll(n, ws, r) == n)
  {
    FromLastNames(n, ws, r);
    var p := Priority(ApplyAll(n, ws, r));
    LastNameIsLast(ws, r, p);
    forall i | 0 <= i < |ws| && r.usable(ws[i].hostname) ensures ws[i].priority <= p {
      LastNameIsLast(ws, r, ws[i].priority);
      assert UsableAt(ws, r, ws[i].priority, i);
    }
  }

  /** Only the order of writes of equal priority matters: two runs that agree, priority by priority,
      end alike however their writes interleave. */
  lemma OrderAcrossPrioritiesIsIrrelevant(n: Node, ws: seq<Write>, vs: seq<Write>, r: Rules)
    requires forall p :: AtPriority(ws, p) == AtPriority(vs, p)
    ensures ApplyAll(n, ws, r) == ApplyAll(n, vs, r)
  {
    FromLastNames(n, ws, r);
    FromLastNames(n, vs, r);
    forall p ensures LastName(ws, r, p) == LastName(vs, r, p) {
      LastNameWithin(ws, r, p);
      LastNameWithin(vs, r, p);
    }
    DecidedOnce(n, ws, vs, r, ApplyAll(n, ws, r), ApplyAll(n, vs, r));
  }

  lemma DecidedOnce(n: Node, ws: seq<Write>, vs: seq<Write>, r: Rules, a: Node, b: Node)
    requires Decided(n, ws, r, a) && Decided(n, vs, r, b)
    requires forall p :: LastName(ws, r, p) == LastName(vs, r, p)
    ensures a == b
  {
    assert LastName(ws, r, Priority(a)) == LastName(vs, r, Priority(a));
    assert LastName(ws, r, Priority(b)) == LastName(vs, r, Priority(b));
  }

  /** Two usable writes of one priority: the later wins, so their order does matter. */
  lemma TiesOverwrite(n: Node, a: Write, b: Write, r: Rules)
    requires r.usable(a.hostname) && r.usable(b.hostname) && a.priority == b.priority >= Priority(n)
    ensures ApplyAll(n, [a, b], r).hostname == Some(r.clean(b.hostname))
  {
    assert [a, b][..1] == [a] && [a][..0] == [];
    assert ApplyAll(n, [a], r) == Apply(ApplyAll(n, [], r), a, r);
  }

  // ----- what is stored ---------------------------------------------------------------

  /** A name fit to store and to log. */
  predicate Tidy(name: string, u: Unicode) {
    && name != "" && Stripped(name, u.isSpace) && u.lower(name) !in JUNK && |name| <= MAX_HOSTNAME_LENGTH
    && forall i :: 0 <= i < |name| ==> !Control(name[i])
  }

  lemma {:induction false} StoredNamesAreTidy(n: Node, ws: seq<Write>, u: Unicode)
    requires n.hostname.Some? ==> Tidy(n.hostname.value, u)
    ensures ApplyAll(n, ws, RulesOf(u)).hostname.Some? ==> Tidy(ApplyAll(n, ws, RulesOf(u)).hostname.value, u)
  {
    if ws != [] {
      StoredNamesAreTidy(n, ws[..|ws| - 1], u);
    }
  }

  // ----- the writer and its two resolvers ---------------------------------------------

  datatype Route = ByNode(id: NodeId) | ByMac(mac: Mac) | ByIp(ip: Ip)

  /** l2_interfaces (None: NULL node_id) and l3_bindings */
  datatype Network = Network(l2: map<Mac, Option<NodeId>>, l3: map<Ip, Mac>)

  function Resolve(net: Network, route: Route): Option<NodeId> {
    match route
    case ByNode(id) => Some(id)
    case ByMac(mac) => if mac in net.l2 then net.l2[mac] else None
    case ByIp(ip) => if ip in net.l3 && net.l3[ip] in net.l2 then net.l2[net.l3[ip]] else None
  }

  type Nodes = map<NodeId, Node>

  predicate Happens(nodes: Nodes, net: Network, route: Route, w: Write, r: Rules) {
    var id := Resolve(net, route);
    id.Some? && id.value in nodes && Accepted(nodes[id.value], w, r)
  }

  function Called(nodes: Nodes, net: Network, route: Route, w: Write, r: Rules): Nodes {
    if Happens(nodes, net, route, w, r) then
      var id := Resolve(net, route).value;
      nodes[id := Apply(nodes[id], w, r)]
    else nodes
  }

  class Registry {
    const r: Rules
    var nodes: Nodes
    var net: Network

    method SetHostnameByNodeId(id: NodeId, hostname: string, priority: int) returns (written: bool)
      modifies this`nodes
      ensures written <==> r.usable(hostname) && id in old(nodes) && priority >= old(nodes)[id].priority.GetOr(0)
      ensures nodes == if written then old(nodes)[id := Node(Some(r.clean(hostname)), Some(priority))] else old(nodes)
      ensures nodes == Called(old(nodes), net, ByNode(id), Write(hostname, priority), r)
    {
      if !r.usable(hostname) || id !in nodes {
        return false;
      }
      var current := nodes[id].priority.GetOr(0);
      if priority < current {
        return false;
      }
      nodes := nodes[id := Node(Some(r.clean(hostname)), Some(priority))];
      return true;
    }

    method SetHostnameByMac(mac: Mac, hostname: string, priority: int) returns (written: bool)
      modifies this`nodes
      ensures written ==> mac in net.l2 && net.l2[mac].Some?
      ensures mac in net.l2 && net.l2[mac].Some? ==>
                var id := net.l2[mac].value;
                && (written <==>
                     r.usable(hostname) && id in old(nodes) && priority >= old(nodes)[id].priority.GetOr(0))
                && (written ==> nodes == old(nodes)[id := Node(Some(r.clean(hostname)), Some(priority))])
      ensures !written ==> nodes == old(nodes)
      ensures nodes == Called(old(nodes), net, ByMac(mac), Write(hostname, priority), r)
    {
      if !r.usable(hostname) || mac !in net.l2 || net.l2[mac].None? {
        return false;
      }
      written := SetHostnameByNodeId(net.l2[mac].value, hostname, priority);
    }

    method SetHostnameByIp(ip: Ip, hostname: string, priority: int) returns (written: bool)
      modifies this`nodes
      ensures written ==> ip in net.l3 && net.l3[ip] in net.l2 && net.l2[net.l3[ip]].Some?
      ensures ip in net.l3 && net.l3[ip] in net.l2 && net.l2[net.l3[ip]].Some? ==>
                var id := net.l2[net.l3[ip]].value;
                && (written <==>
                     r.usable(hostname) && id in old(nodes) && priority >= old(nodes)[id].priority.GetOr(0))
                && (written ==> nodes == old(nodes)[id := Node(Some(r.clean(hostname)), Some(priority))])
      ensures !written ==> nodes == old(nodes)
      ensures nodes == Called(old(nodes), net, ByIp(ip), Write(hostname, priority), r)
    {
      if !r.usable(hostname) || ip !in net.l3 || net.l3[ip] !in net.l2 || net.l2[net.l3[ip]].None? {
        return false;
      }
      written := SetHostnameByNodeId(net.l2[net.l3[ip]].value, hostname, priority);
    }
  }

  // ----- runs of calls ----------------------------------------------------------------

  /** A call, with the network it found; welding may move interfaces between calls. */
  datatype Call = Call(net: Network, route: Route, write: Write)

  function CalledAll(nodes: Nodes, calls: seq<Call>, r: Rules): Nodes {
    if calls == [] then nodes
    else
      var c := calls[|calls| - 1];
      Called(CalledAll(nodes, calls[..|calls| - 1], r), c.net, c.route, c.write, r)
  }

  /** The writes of a run that were routed to a node. */
  function WritesTo(calls: seq<Call>, id: NodeId): seq<Write> {
    if calls == [] then []
    else
      var c := calls[|calls| - 1];
      WritesTo(calls[..|calls| - 1], id) + if Resolve(c.net, c.route) == Some(id) then [c.write] else []
  }

  lemma CalledOne(nodes: Nodes, c: Call, r: Rules, id: NodeId)
    requires id in nodes
    ensures Called(nodes, c.net, c.route, c.write, r).Keys == nodes.Keys
    ensures Called(nodes, c.net, c.route, c.write, r)[id]
            == if Resolve(c.net, c.route) == Some(id) then Apply(nodes[id], c.write, r) else nodes[id]
  {
  }

  /** Through whichever route, each node ends as its own writes alone leave it, and calls neither
      create nor delete a node. */
  lemma {:induction false} NodesAreIndependent(nodes: Nodes, calls: seq<Call>, r: Rules, id: NodeId)
    requires id in nodes
    ensures CalledAll(nodes, calls, r).Keys == nodes.Keys
    ensures CalledAll(nodes, calls, r)[id] == ApplyAll(nodes[id], WritesTo(calls, id), r)
  {
    hide Happens, Resolve, Accepted, Called;
    if calls != [] {
      var rest, c := calls[..|calls| - 1], calls[|calls| - 1];
      NodesAreIndependent(nodes, rest, r, id);
      CalledOne(CalledAll(nodes, rest, r), c, r, id);
      var ws := WritesTo(calls, id);
      if Resolve(c.net, c.route) == Some(id) {
        assert ws[|ws| - 1] == c.write && ws[..|ws| - 1] == WritesTo(rest, id);
      } else {
        assert ws == WritesTo(rest, id);
      }
    }
  }
}
