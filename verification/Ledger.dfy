/** The device ledger's row transforms in src/api/server.py: placing each address in a subnet and
    marking the primary ones, collapsing stale bindings of one subnet, hiding noise addresses. */
module Ledger {
  import opened Common
  import opened Decimal
  import opened PseudoAddress

  type Mac = string

  /** An ip_address text: an IPv4 literal, a synthetic address whose first three octets are real, or
      anything else. */
  datatype Address = V4(n: nat) | Synthetic(prefix: nat) | Junk

  /** A CIDR network, its base a multiple of its size. */
  datatype Net = Net(base: nat, size: nat)

  /** A router_subnets row. */
  datatype Confirmed = Confirmed(net: Net, vlan: Option<int>)

  /** `lastSeen` is the text's rank in string order, 0 for NULL. */
  datatype Row = Row(mac: Mac, ip: Option<Address>, lastSeen: nat, subnet: Option<Net>, vlan: Option<int>,
      isPrimary: bool)

  type Key = (Mac, Option<Net>)

  const DOCKER_BRIDGE_RANGE := Net(0xAC10_0000, 0x10_0000)

  predicate In(n: nat, net: Net) { net.size > 0 && n / net.size == net.base / net.size }

  /** _is_real_ip */
  predicate Real(ip: Option<Address>) { ip.Some? && ip.value.V4? && !In(ip.value.n, DOCKER_BRIDGE_RANGE) }

  // ----- subnet_and_vlan --------------------------------------------------------------

  function Slash24(n: nat): Net { Net(n / 256 * 256, 256) }

  function Lookup(nets: seq<Confirmed>, n: nat): (Option<Net>, Option<int>) {
    if nets == [] then (Some(Slash24(n)), None)
    else if In(n, nets[0].net) then (Some(nets[0].net), nets[0].vlan)
    else Lookup(nets[1..], n)
  }

  function Place(nets: seq<Confirmed>, ip: Option<Address>): (Option<Net>, Option<int>) {
    match ip
    case None => (None, None)
    case Some(V4(n)) => if In(n, DOCKER_BRIDGE_RANGE) then (None, None) else Lookup(nets, n)
    case Some(Synthetic(prefix)) => Lookup(nets, prefix * 256 + 1)
    case Some(Junk) => (None, None)
  }

  /** A confirmed network is never the /24 guess of an address outside it. */
  lemma GuessIsOutside(n: nat, net: Net)
    requires net == Slash24(n)
    ensures In(n, net)
  {
    assert n / 256 * 256 / 256 == n / 256;
  }

  lemma {:induction false} LookupDecidesVlan(nets: seq<Confirmed>, m: nat, n: nat)
    requires Lookup(nets, m).0 == Lookup(nets, n).0
    ensures Lookup(nets, m).1 == Lookup(nets, n).1
  {
    if nets != [] {
      var net := nets[0].net;
      if In(m, net) == In(n, net) {
        if !In(m, net) {
          LookupDecidesVlan(nets[1..], m, n);
        }
      } else if In(m, net) {
        FoundElsewhere(nets[1..], n, net);
      } else {
        FoundElsewhere(nets[1..], m, net);
      }
    }
  }

  /** What a lookup finds contains the address. */
  lemma {:induction false} FoundElsewhere(nets: seq<Confirmed>, n: nat, net: Net)
    requires !In(n, net)
    ensures Lookup(nets, n).0 != Some(net)
  {
    if nets == [] {
      if net == Slash24(n) {
        GuessIsOutside(n, net);
      }
    } else {
      FoundElsewhere(nets[1..], n, net);
    }
  }

  /** Two addresses placed in one subnet carry one VLAN. */
  lemma SubnetDecidesVlan(nets: seq<Confirmed>, a: Option<Address>, b: Option<Address>)
    requires Place(nets, a).0 == Place(nets, b).0
    ensures Place(nets, a).1 == Place(nets, b).1
  {
    if Place(nets, a).0.Some? {
      var m := if a.value.V4? then a.value.n else a.value.prefix * 256 + 1;
      var n := if b.value.V4? then b.value.n else b.value.prefix * 256 + 1;
      LookupDecidesVlan(nets, m, n);
    } else {
      NeverNowhere(nets, a);
      NeverNowhere(nets, b);
    }
  }

  lemma NeverNowhere(nets: seq<Confirmed>, a: Option<Address>)
    ensures Place(nets, a).0.None? ==> Place(nets, a).1.None?
  {
    forall n: nat ensures Lookup(nets, n).0.Some? { LookupFinds(nets, n); }
  }

  lemma {:induction false} LookupFinds(nets: seq<Confirmed>, n: nat)
    ensures Lookup(nets, n).0.Some?
  {
    if nets != [] { LookupFinds(nets[1..], n); }
  }

  /** The number lies in the network's range. */
  lemma InMeans(n: nat, net: Net)
    requires net.size > 0 && net.base % net.size == 0
    ensures In(n, net) <==> net.base <= n < net.base + net.size
  {
    var d: int := n / net.size - net.base / net.size;
    assert n == n / net.size * net.size + n % net.size;
    assert net.base == net.base / net.size * net.size;
    assert n - net.base == d * net.size + n % net.size;
    if d > 0 {
      LargeMultiple(d, net.size);
    } else if d < 0 {
      LargeMultiple(-d, net.size);
      assert (-d) * net.size == -(d * net.size);
    }
  }

  lemma {:induction false} LargeMultiple(d: nat, size: nat)
    requires d > 0
    ensures d * size >= size
    decreases d
  {
    if d > 1 {
      LargeMultiple(d - 1, size);
      assert d * size == (d - 1) * size + size;
    }
  }

  /** Position `k` is the first confirmed network the number lies in. */
  ghost predicate FirstNet(nets: seq<Confirmed>, n: nat, k: int) {
    0 <= k < |nets| && In(n, nets[k].net) && forall j :: 0 <= j < k ==> !In(n, nets[j].net)
  }

  lemma {:induction false} LookupMeans(nets: seq<Confirmed>, n: nat)
    ensures forall k :: FirstNet(nets, n, k) ==> Lookup(nets, n) == (Some(nets[k].net), nets[k].vlan)
    ensures (forall k :: 0 <= k < |nets| ==> !In(n, nets[k].net)) ==>
      Lookup(nets, n) == (Some(Net(n - n % 256, 256)), None)
  {
    if nets == [] {
      assert n / 256 * 256 == n - n % 256;
    } else {
      LookupMeans(nets[1..], n);
      forall k | FirstNet(nets, n, k) ensures Lookup(nets, n) == (Some(nets[k].net), nets[k].vlan) {
        if k > 0 {
          assert !In(n, nets[0].net);
          assert forall j :: 0 <= j < k - 1 ==> nets[1..][j] == nets[j + 1];
          assert FirstNet(nets[1..], n, k - 1);
        }
      }
      assert forall k :: 0 <= k < |nets[1..]| ==> nets[1..][k] == nets[k + 1];
    }
  }

  /** Where a row is placed: a Docker-bridge address, junk or nothing nowhere; any other address, and the
      first host of a synthetic one's /24, in the first confirmed network that holds it, with that
      network's VLAN, else untagged in its own /24. */
  lemma PlaceMeans(nets: seq<Confirmed>, ip: Option<Address>)
    ensures ip.None? || ip.value.Junk? ==> Place(nets, ip) == (None, None)
    ensures ip.Some? && ip.value.V4? && 0xAC10_0000 <= ip.value.n < 0xAC20_0000 ==> Place(nets, ip) == (None, None)
    ensures ip.Some? && !ip.value.Junk? && !(ip.value.V4? && 0xAC10_0000 <= ip.value.n < 0xAC20_0000) ==>
      var n := if ip.value.V4? then ip.value.n else ip.value.prefix * 256 + 1;
      && (forall k :: FirstNet(nets, n, k) ==> Place(nets, ip) == (Some(nets[k].net), nets[k].vlan))
      && ((forall k :: 0 <= k < |nets| ==> !In(n, nets[k].net)) ==>
            Place(nets, ip) == (Some(Net(n - n % 256, 256)), None))
  {
    hide In, Lookup, FirstNet;
    if ip.Some? && ip.value.V4? {
      InMeans(ip.value.n, DOCKER_BRIDGE_RANGE);
      LookupMeans(nets, ip.value.n);
    } else if ip.Some? && ip.value.Synthetic? {
      LookupMeans(nets, ip.value.prefix * 256 + 1);
    }
  }

  /** An address is real if it is an IPv4 literal outside 172.16.0.0/12. */
  lemma RealMeans(ip: Option<Address>)
    ensures Real(ip) <==> ip.Some? && ip.value.V4? && !(0xAC10_0000 <= ip.value.n < 0xAC20_0000)
  {
    if ip.Some? && ip.value.V4? {
      InMeans(ip.value.n, DOCKER_BRIDGE_RANGE);
    }
  }

  /** A way to place addresses, and what makes one sensible: one VLAN for each subnet. */
  type Placing = Option<Address> -> (Option<Net>, Option<int>)

  ghost predicate Consistent(place: Placing) { forall a, b :: place(a).0 == place(b).0 ==> place(a).1 == place(b).1 }

  function SubnetAndVlan(nets: seq<Confirmed>): Placing { ip => Place(nets, ip) }

  lemma PlacingIsConsistent(nets: seq<Confirmed>)
    ensures Consistent(SubnetAndVlan(nets))
  {
    forall a, b | SubnetAndVlan(nets)(a).0 == SubnetAndVlan(nets)(b).0
      ensures SubnetAndVlan(nets)(a).1 == SubnetAndVlan(nets)(b).1
    {
      SubnetDecidesVlan(nets, a, b);
    }
  }

  // ----- _annotate_subnet_and_primary -------------------------------------------------

  function Placed(place: Placing, r: Row): Row {
    r.(subnet := place(r.ip).0, vlan := place(r.ip).1, isPrimary := false)
  }

  function AllPlaced(place: Placing, rows: seq<Row>): (placed: seq<Row>)
    ensures |placed| == |rows| && forall i :: 0 <= i < |rows| ==> placed[i] == Placed(place, rows[i])
  {
    seq(|rows|, i requires 0 <= i < |rows| => Placed(place, rows[i]))
  }

  predicate Candidate(rows: seq<Row>, mac: Mac, i: int) { 0 <= i < |rows| && rows[i].mac == mac && Real(rows[i].ip) }

  ghost predicate HasVlan(rows: seq<Row>, mac: Mac, vlan: Option<int>) {
    exists i :: Candidate(rows, mac, i) && rows[i].vlan == vlan
  }

  /** The first of the most recently seen candidates. */
  ghost predicate Latest(rows: seq<Row>, mac: Mac, i: int) {
    && Candidate(rows, mac, i)
    && (forall j :: Candidate(rows, mac, j) ==> rows[j].lastSeen <= rows[i].lastSeen)
    && (forall j :: 0 <= j < i && Candidate(rows, mac, j) ==> rows[j].lastSeen < rows[i].lastSeen)
  }

  /** Row `i` is in its device's primary set: on the VLAN its port was seen on, failing that
      untagged, failing that the latest. */
  ghost predicate InPrimarySet(rows: seq<Row>, physical: map<Mac, int>, i: int) {
    && 0 <= i < |rows| && Candidate(rows, rows[i].mac, i)
    && var mac := rows[i].mac;
       if mac in physical && HasVlan(rows, mac, Some(physical[mac])) then rows[i].vlan == Some(physical[mac])
       else if HasVlan(rows, mac, None) then rows[i].vlan.None?
       else Latest(rows, mac, i)
  }

  /** A row is primary when its address is that of a row in the set of its device. */
  ghost predicate IsPrimary(rows: seq<Row>, physical: map<Mac, int>, i: int)
    requires 0 <= i < |rows|
  {
    exists j :: InPrimarySet(rows, physical, j) && rows[j].mac == rows[i].mac && rows[j].ip == rows[i].ip
  }

  ghost predicate Annotated(place: Placing, physical: map<Mac, int>, rows: seq<Row>, after: seq<Row>) {
    var placed := AllPlaced(place, rows);
    && |after| == |rows|
    && (forall i :: 0 <= i < |rows| ==> after[i] == placed[i].(isPrimary := after[i].isPrimary))
    && (forall i {:trigger IsPrimary(placed, physical, i)} :: 0 <= i < |rows| ==>
      (after[i].isPrimary <==> IsPrimary(placed, physical, i)))
  }

  /** The primary_set of one device, as the rows' positions. */
  method PrimarySet(rows: seq<Row>, physical: map<Mac, int>, mac: Mac) returns (chosen: set<nat>)
    ensures forall i :: i in chosen <==> InPrimarySet(rows, physical, i) && rows[i].mac == mac
  {
    var candidates := set i | 0 <= i < |rows| && Candidate(rows, mac, i) :: i;
    if candidates == {} {
      return {};
    }
    chosen := if mac in physical then (set i | i in candidates && rows[i].vlan == Some(physical[mac])) else {};
    assert forall i :: Candidate(rows, mac, i) && mac in physical && rows[i].vlan == Some(physical[mac]) ==>
      i in chosen;
    if chosen != {} {
      var i :| i in chosen;
      assert HasVlan(rows, mac, Some(physical[mac]));
      return;
    }
    chosen := set i | i in candidates && rows[i].vlan.None?;
    assert forall i :: Candidate(rows, mac, i) && rows[i].vlan == None ==> i in chosen;
    if chosen != {} {
      var i :| i in chosen;
      assert HasVlan(rows, mac, None);
      return;
    }
    var best := FirstLatest(rows, mac, candidates);
    LatestIsOne(rows, mac);
    chosen := {best};
  }

  lemma LatestIsOne(rows: seq<Row>, mac: Mac)
    ensures forall i, j :: Latest(rows, mac, i) && Latest(rows, mac, j) ==> i == j
  {
  }

  /** max(candidates, key=last_seen) */
  method FirstLatest(rows: seq<Row>, mac: Mac, candidates: set<nat>) returns (best: nat)
    requires candidates != {} && forall i :: i in candidates <==> Candidate(rows, mac, i)
    ensures Latest(rows, mac, best)
  {
    var found := false;
    best := 0;
    for i := 0 to |rows|
      invariant found <==> exists j :: 0 <= j < i && Candidate(rows, mac, j)
      invariant found ==> best < i && Candidate(rows, mac, best)
      invariant found ==> forall j :: 0 <= j < i && Candidate(rows, mac, j) ==> rows[j].lastSeen <= rows[best].lastSeen
      invariant found ==> forall j :: 0 <= j < best && Candidate(rows, mac, j) ==>
        rows[j].lastSeen < rows[best].lastSeen
    {
      if i in candidates && (!found || rows[i].lastSeen > rows[best].lastSeen) {
        found, best := true, i;
      }
    }
    var c :| c in candidates;
    assert Candidate(rows, mac, c);
  }

  /** is_primary_ip of one row */
  method PrimaryFlag(rows: seq<Row>, physical: map<Mac, int>, i: nat) returns (primary: bool)
    requires i < |rows|
    ensures primary <==> IsPrimary(rows, physical, i)
  {
    var chosen := PrimarySet(rows, physical, rows[i].mac);
    primary := exists j :: j in chosen && 0 <= j < |rows| && rows[j].ip == rows[i].ip;
    if primary {
      var j :| j in chosen && 0 <= j < |rows| && rows[j].ip == rows[i].ip;
      assert InPrimarySet(rows, physical, j) && rows[j].mac == rows[i].mac;
    }
  }

  method AnnotateSubnetAndPrimary(place: Placing, physical: map<Mac, int>, rows: seq<Row>) returns (after: seq<Row>)
    ensures Annotated(place, physical, rows, after)
  {
    var placed := AllPlaced(place, rows);
    after := [];
    for i := 0 to |placed|
      invariant |after| == i
      invariant forall k :: 0 <= k < i ==> after[k] == placed[k].(isPrimary := after[k].isPrimary)
      invariant forall k {:trigger IsPrimary(placed, physical, k)} :: 0 <= k < i ==>
        (after[k].isPrimary <==> IsPrimary(placed, physical, k))
    {
      var primary := PrimaryFlag(placed, physical, i);
      after := after + [placed[i].(isPrimary := primary)];
    }
  }

  // ----- _collapse_stale_same_subnet_bindings -----------------------------------------

  function KeyOf(r: Row): Key { (r.mac, r.subnet) }

  /** Among the first `n` rows, row `i` is the one kept for its key: the first of the most recently seen. */
  ghost predicate WinnerIn(rows: seq<Row>, n: nat, i: int) {
    && 0 <= i < n <= |rows|
    && (forall j :: 0 <= j < n && KeyOf(rows[j]) == KeyOf(rows[i]) ==> rows[j].lastSeen <= rows[i].lastSeen)
    && (forall j :: 0 <= j < i && KeyOf(rows[j]) == KeyOf(rows[i]) ==> rows[j].lastSeen < rows[i].lastSeen)
  }

  ghost predicate HeldIn(rows: seq<Row>, n: nat, key: Key, r: Row) {
    exists i :: WinnerIn(rows, n, i) && KeyOf(rows[i]) == key && rows[i] == r
  }

  ghost predicate WinnerFor(rows: seq<Row>, key: Key, i: int) { WinnerIn(rows, |rows|, i) && KeyOf(rows[i]) == key }

  /** The row is the one kept for the key. */
  ghost predicate Held(rows: seq<Row>, key: Key, r: Row) { exists i :: WinnerFor(rows, key, i) && rows[i] == r }

  /** Some row of the first key stands before every row of the second. */
  ghost predicate Earlier(rows: seq<Row>, n: nat, k: Key, l: Key) { exists a :: StartsBefore(rows, n, k, l, a) }

  ghost predicate StartsBefore(rows: seq<Row>, n: nat, k: Key, l: Key, a: int) {
    0 <= a < n <= |rows| && KeyOf(rows[a]) == k && forall b :: 0 <= b <= a ==> KeyOf(rows[b]) != l
  }

  /** One row for each key, its winner, in the order the keys first appear. */
  ghost predicate Collapsed(rows: seq<Row>, after: seq<Row>) {
    && (forall i, j :: 0 <= i < j < |after| ==> KeyOf(after[i]) != KeyOf(after[j]))
    && (forall r :: r in after ==> Held(rows, KeyOf(r), r))
    && (forall i :: 0 <= i < |rows| ==> HasKey(after, KeyOf(rows[i])))
    && (forall i, j :: 0 <= i < j < |after| ==> Earlier(rows, |rows|, KeyOf(after[i]), KeyOf(after[j])))
  }

  ghost predicate HasKey(after: seq<Row>, key: Key) { exists r :: r in after && KeyOf(r) == key }

  /** The loop after `n` rows: the best row of each key, */
  ghost predicate BestHeld(rows: seq<Row>, n: nat, best: map<Key, Row>) {
    && n <= |rows|
    && (forall k :: k in best ==> HeldIn(rows, n, k, best[k]))
    && (forall i :: 0 <= i < n ==> KeyOf(rows[i]) in best)
  }

  /** and the keys in the order they first appeared. */
  ghost predicate OrderFits(rows: seq<Row>, n: nat, best: map<Key, Row>, order: seq<Key>) {
    && NoDuplicates(order) && (forall k :: k in order <==> k in best)
    && (forall i, j :: 0 <= i < j < |order| ==> Earlier(rows, n, order[i], order[j]))
  }

  predicate Beats(best: map<Key, Row>, r: Row) { KeyOf(r) !in best || r.lastSeen > best[KeyOf(r)].lastSeen }

  lemma NewWinner(rows: seq<Row>, n: nat, held: Option<Row>)
    requires n < |rows|
    requires held.Some? ==> HeldIn(rows, n, KeyOf(rows[n]), held.value) && rows[n].lastSeen > held.value.lastSeen
    requires held.None? ==> forall i :: 0 <= i < n ==> KeyOf(rows[i]) != KeyOf(rows[n])
    ensures HeldIn(rows, n + 1, KeyOf(rows[n]), rows[n])
  {
    if held.Some? {
      var i :| WinnerIn(rows, n, i) && KeyOf(rows[i]) == KeyOf(rows[n]) && rows[i] == held.value;
    }
    assert WinnerIn(rows, n + 1, n);
  }

  lemma OldWinner(rows: seq<Row>, n: nat, k: Key, held: Row)
    requires n < |rows| && HeldIn(rows, n, k, held) && (k == KeyOf(rows[n]) ==> rows[n].lastSeen <= held.lastSeen)
    ensures HeldIn(rows, n + 1, k, held)
  {
    var i :| WinnerIn(rows, n, i) && KeyOf(rows[i]) == k && rows[i] == held;
    assert WinnerIn(rows, n + 1, i);
  }

  lemma OrderGrows(rows: seq<Row>, n: nat, best: map<Key, Row>, k: Key)
    requires BestHeld(rows, n, best) && n < |rows| && KeyOf(rows[n]) !in best && k in best
    ensures Earlier(rows, n + 1, k, KeyOf(rows[n]))
  {
    assert HeldIn(rows, n, k, best[k]);
    var a :| WinnerIn(rows, n, a) && KeyOf(rows[a]) == k && rows[a] == best[k];
    assert StartsBefore(rows, n + 1, k, KeyOf(rows[n]), a);
  }

  lemma OrderStays(rows: seq<Row>, n: nat, k: Key, l: Key)
    requires Earlier(rows, n, k, l) && n < |rows|
    ensures Earlier(rows, n + 1, k, l)
  {
    var a :| StartsBefore(rows, n, k, l, a);
    assert StartsBefore(rows, n + 1, k, l, a);
  }

  function NextBest(best: map<Key, Row>, r: Row): map<Key, Row> { if Beats(best, r) then best[KeyOf(r) := r] else best }

  function NextOrder(best: map<Key, Row>, order: seq<Key>, r: Row): seq<Key> {
    if KeyOf(r) !in best then order + [KeyOf(r)] else order
  }

  lemma BestGrows(rows: seq<Row>, n: nat, best: map<Key, Row>)
    requires BestHeld(rows, n, best) && n < |rows|
    ensures BestHeld(rows, n + 1, NextBest(best, rows[n]))
  {
    hide HeldIn;
    var r := rows[n];
    var after := NextBest(best, r);
    forall k | k in after ensures HeldIn(rows, n + 1, k, after[k]) {
      if k == KeyOf(r) && Beats(best, r) {
        assert k in best ==> HeldIn(rows, n, k, best[k]);
        NewWinner(rows, n, if k in best then Some(best[k]) else None);
      } else {
        assert HeldIn(rows, n, k, best[k]);
        OldWinner(rows, n, k, best[k]);
      }
    }
  }

  lemma LineGrows(rows: seq<Row>, n: nat, best: map<Key, Row>, order: seq<Key>)
    requires BestHeld(rows, n, best) && OrderFits(rows, n, best, order) && n < |rows|
    ensures OrderFits(rows, n + 1, NextBest(best, rows[n]), NextOrder(best, order, rows[n]))
  {
    var line := NextOrder(best, order, rows[n]);
    forall i, j | 0 <= i < j < |line| ensures Earlier(rows, n + 1, line[i], line[j]) && line[i] != line[j] {
      assert order[i] in order;
      if j < |order| {
        OrderStays(rows, n, order[i], order[j]);
      } else {
        OrderGrows(rows, n, best, order[i]);
      }
    }
  }

  /** The loop. */
  method BestByKey(rows: seq<Row>) returns (best: map<Key, Row>, order: seq<Key>)
    ensures BestHeld(rows, |rows|, best) && OrderFits(rows, |rows|, best, order)
  {
    best, order := map[], [];
    for i := 0 to |rows|
      invariant BestHeld(rows, i, best) && OrderFits(rows, i, best, order)
    {
      var r := rows[i];
      BestGrows(rows, i, best);
      LineGrows(rows, i, best, order);
      if KeyOf(r) !in best {
        best, order := best[KeyOf(r) := r], order + [KeyOf(r)];
      } else if r.lastSeen > best[KeyOf(r)].lastSeen {
        best := best[KeyOf(r) := r];
      }
    }
  }

  method CollapseStaleSameSubnetBindings(rows: seq<Row>) returns (after: seq<Row>)
    ensures Collapsed(rows, after)
  {
    var best, order := BestByKey(rows);
    OrderIsKnown(rows, best, order);
    BestIsCollapsed(rows, best, order);
    after := InOrder(best, order);
  }

  /** [best_by_key[key] for key in order] */
  function InOrder(best: map<Key, Row>, order: seq<Key>): (after: seq<Row>)
    requires forall i :: 0 <= i < |order| ==> order[i] in best
    ensures |after| == |order| && forall i :: 0 <= i < |order| ==> after[i] == best[order[i]]
  {
    seq(|order|, i requires 0 <= i < |order| => best[order[i]])
  }

  lemma OrderIsKnown(rows: seq<Row>, best: map<Key, Row>, order: seq<Key>)
    requires OrderFits(rows, |rows|, best, order)
    ensures forall i :: 0 <= i < |order| ==> order[i] in best
  {
    forall i | 0 <= i < |order| ensures order[i] in best {
      assert order[i] in order;
    }
  }

  lemma BestIsCollapsed(rows: seq<Row>, best: map<Key, Row>, order: seq<Key>)
    requires BestHeld(rows, |rows|, best) && OrderFits(rows, |rows|, best, order)
    requires forall i :: 0 <= i < |order| ==> order[i] in best
    ensures Collapsed(rows, InOrder(best, order))
  {
    var after := InOrder(best, order);
    forall i | 0 <= i < |order| ensures KeyOf(after[i]) == order[i] && Held(rows, KeyOf(after[i]), after[i]) {
      assert HeldIn(rows, |rows|, order[i], best[order[i]]);
    }
    forall i | 0 <= i < |rows| ensures HasKey(after, KeyOf(rows[i])) {
      assert KeyOf(rows[i]) in order;
      var k :| 0 <= k < |order| && order[k] == KeyOf(rows[i]);
      assert after[k] in after;
    }
  }

  // ----- _filter_display_noise_ips ----------------------------------------------------

  function Hidden(r: Row): Row { if r.ip.Some? && !Real(r.ip) then r.(ip := None) else r }

  method FilterDisplayNoiseIps(rows: seq<Row>) returns (after: seq<Row>)
    ensures |after| == |rows| && forall i :: 0 <= i < |rows| ==> after[i] == Hidden(rows[i])
  {
    after := rows;
    for i := 0 to |rows|
      invariant |after| == |rows|
      invariant forall k :: 0 <= k < |rows| ==> after[k] == if k < i then Hidden(rows[k]) else rows[k]
    {
      if after[i].ip.Some? && !Real(after[i].ip) {
        after := after[i := after[i].(ip := None)];
      }
    }
  }

  // ----- the three together -----------------------------------------------------------

  ghost predicate Filtered(rows: seq<Row>, after: seq<Row>) {
    |after| == |rows| && forall i :: 0 <= i < |rows| ==> after[i] == Hidden(rows[i])
  }

  method EndpointLedger(nets: seq<Confirmed>, physical: map<Mac, int>, rows: seq<Row>)
    returns (annotated: seq<Row>, collapsed: seq<Row>, shown: seq<Row>)
    ensures Annotated(SubnetAndVlan(nets), physical, rows, annotated) && Collapsed(annotated, collapsed)
    ensures Filtered(collapsed, shown)
    ensures forall mac :: ShowsPrimary(shown, mac) <==> PrimarySubnetKeepsReal(annotated, mac)
  {
    annotated := AnnotateSubnetAndPrimary(SubnetAndVlan(nets), physical, rows);
    collapsed := CollapseStaleSameSubnetBindings(annotated);
    shown := FilterDisplayNoiseIps(collapsed);
    PlacingIsConsistent(nets);
    forall mac ensures ShowsPrimary(shown, mac) <==> PrimarySubnetKeepsReal(annotated, mac) {
      PrimaryShownIff(SubnetAndVlan(nets), physical, rows, annotated, collapsed, shown, mac);
    }
  }

  /** The device is shown with a primary address. */
  ghost predicate ShowsPrimary(shown: seq<Row>, mac: Mac) {
    exists r :: r in shown && r.mac == mac && r.isPrimary && r.ip.Some?
  }

  /** In the subnet of some primary row of the device the row kept has a real address. */
  ghost predicate PrimarySubnetKeepsReal(annotated: seq<Row>, mac: Mac) {
    exists p, w :: RealSuccessor(annotated, mac, p, w)
  }

  ghost predicate RealSuccessor(annotated: seq<Row>, mac: Mac, p: int, w: int) {
    && 0 <= p < |annotated| && annotated[p].mac == mac && annotated[p].isPrimary && Real(annotated[p].ip)
    && WinnerFor(annotated, KeyOf(annotated[p]), w) && Real(annotated[w].ip)
  }

  /** The row kept in a primary row's subnet is primary itself, if its address is real. */
  lemma SuccessorIsPrimary(place: Placing, physical: map<Mac, int>, rows: seq<Row>, annotated: seq<Row>, p: int, w: int)
    requires Consistent(place) && Annotated(place, physical, rows, annotated)
    requires 0 <= p < |annotated| && annotated[p].isPrimary && Real(annotated[p].ip)
    requires WinnerFor(annotated, KeyOf(annotated[p]), w) && Real(annotated[w].ip)
    ensures annotated[w].isPrimary
  {
    var placed := AllPlaced(place, rows);
    assert IsPrimary(placed, physical, p);
    var j :| InPrimarySet(placed, physical, j) && placed[j].mac == placed[p].mac && placed[j].ip == placed[p].ip;
    assert placed[j].subnet == placed[p].subnet && placed[j].vlan == placed[p].vlan;
    assert place(rows[j].ip).0 == place(rows[w].ip).0;
    var mac := placed[j].mac;
    assert Candidate(placed, mac, w) && placed[w].mac == mac && placed[w].vlan == placed[j].vlan;
    if !(mac in physical && HasVlan(placed, mac, Some(physical[mac]))) && !HasVlan(placed, mac, None) {
      assert annotated[j].lastSeen <= annotated[w].lastSeen;
      assert w == j;
    }
    assert InPrimarySet(placed, physical, w);
    assert IsPrimary(placed, physical, w);
  }

  lemma ShownSucceeds(annotated: seq<Row>, collapsed: seq<Row>, shown: seq<Row>, mac: Mac)
    requires Collapsed(annotated, collapsed) && Filtered(collapsed, shown) && ShowsPrimary(shown, mac)
    ensures PrimarySubnetKeepsReal(annotated, mac)
  {
    var r :| r in shown && r.mac == mac && r.isPrimary && r.ip.Some?;
    var i :| 0 <= i < |shown| && shown[i] == r;
    assert collapsed[i] == r && collapsed[i] in collapsed && Held(annotated, KeyOf(r), r);
    var w :| WinnerFor(annotated, KeyOf(r), w) && annotated[w] == r;
    assert RealSuccessor(annotated, mac, w, w);
  }

  lemma KeptIsShown(annotated: seq<Row>, collapsed: seq<Row>, shown: seq<Row>, mac: Mac, w: int)
    requires Collapsed(annotated, collapsed) && Filtered(collapsed, shown)
    requires WinnerIn(annotated, |annotated|, w) && annotated[w].mac == mac && annotated[w].isPrimary
    requires Real(annotated[w].ip)
    ensures ShowsPrimary(shown, mac)
  {
    assert HasKey(collapsed, KeyOf(annotated[w]));
    var r :| r in collapsed && KeyOf(r) == KeyOf(annotated[w]);
    assert Held(annotated, KeyOf(r), r);
    var v :| WinnerFor(annotated, KeyOf(r), v) && annotated[v] == r;
    assert v == w;
    var i :| 0 <= i < |collapsed| && collapsed[i] == r;
    assert shown[i] == r && shown[i] in shown;
  }

  /** Exactly when a device ends up with a primary address on display: when in the subnet of one of
      its primary rows the most recently seen row has a real address. */
  lemma PrimaryShownIff(place: Placing, physical: map<Mac, int>, rows: seq<Row>, annotated: seq<Row>,
      collapsed: seq<Row>, shown: seq<Row>, mac: Mac)
    requires Consistent(place) && Annotated(place, physical, rows, annotated) && Collapsed(annotated, collapsed)
    requires Filtered(collapsed, shown)
    ensures ShowsPrimary(shown, mac) <==> PrimarySubnetKeepsReal(annotated, mac)
  {
    if ShowsPrimary(shown, mac) {
      ShownSucceeds(annotated, collapsed, shown, mac);
    }
    if PrimarySubnetKeepsReal(annotated, mac) {
      var p, w :| RealSuccessor(annotated, mac, p, w);
      SuccessorIsPrimary(place, physical, rows, annotated, p, w);
      KeptIsShown(annotated, collapsed, shown, mac, w);
    }
  }

  /** A device with a real address always has a primary row before the collapse. */
  lemma SomePrimary(place: Placing, physical: map<Mac, int>, rows: seq<Row>, annotated: seq<Row>, mac: Mac, i: nat)
    returns (p: nat)
    requires Annotated(place, physical, rows, annotated)
    requires i < |rows| && rows[i].mac == mac && Real(rows[i].ip)
    ensures p < |annotated| && annotated[p].mac == mac && annotated[p].isPrimary && Real(annotated[p].ip)
  {
    var placed := AllPlaced(place, rows);
    p := SomeInSet(placed, physical, mac, i);
    assert IsPrimary(placed, physical, p);
  }

  lemma SomeInSet(rows: seq<Row>, physical: map<Mac, int>, mac: Mac, i: nat) returns (p: nat)
    requires Candidate(rows, mac, i)
    ensures InPrimarySet(rows, physical, p) && rows[p].mac == mac
  {
    if mac in physical && HasVlan(rows, mac, Some(physical[mac])) {
      p :| Candidate(rows, mac, p) && rows[p].vlan == Some(physical[mac]);
    } else if HasVlan(rows, mac, None) {
      p :| Candidate(rows, mac, p) && rows[p].vlan == None;
    } else {
      p := LatestExists(rows, mac, i, |rows|);
    }
  }

  lemma {:induction false} LatestExists(rows: seq<Row>, mac: Mac, i: nat, n: nat) returns (best: nat)
    requires i < n <= |rows| && Candidate(rows, mac, i)
    ensures best < n && Candidate(rows, mac, best)
    ensures forall j :: 0 <= j < n && Candidate(rows, mac, j) ==> rows[j].lastSeen <= rows[best].lastSeen
    ensures forall j :: 0 <= j < best && Candidate(rows, mac, j) ==> rows[j].lastSeen < rows[best].lastSeen
    decreases n
  {
    if exists j :: 0 <= j < n - 1 && Candidate(rows, mac, j) {
      var j :| 0 <= j < n - 1 && Candidate(rows, mac, j);
      best := LatestExists(rows, mac, j, n - 1);
      if Candidate(rows, mac, n - 1) && rows[n - 1].lastSeen > rows[best].lastSeen {
        best := n - 1;
      }
    } else {
      best := i;
    }
  }

  /** Nothing but a synthetic address is placed in the subnet of a real one: Docker-bridge addresses
      and junk have no subnet. */
  lemma OnlySyntheticIntrudes(nets: seq<Confirmed>, a: Option<Address>, b: Option<Address>)
    requires Real(a) && SubnetAndVlan(nets)(a).0 == SubnetAndVlan(nets)(b).0
    ensures Real(b) || (b.Some? && b.value.Synthetic?)
  {
    LookupFinds(nets, a.value.n);
  }

  ghost predicate HasSynthetic(rows: seq<Row>, mac: Mac) {
    exists k :: 0 <= k < |rows| && rows[k].mac == mac && rows[k].ip.Some? && rows[k].ip.value.Synthetic?
  }

  /** A device with a real address and no synthetic one is displayed with a primary address, whatever
      Docker-bridge addresses, junk and stale bindings it has besides. */
  lemma DeviceKeepsPrimary(nets: seq<Confirmed>, physical: map<Mac, int>, rows: seq<Row>,
                           annotated: seq<Row>, collapsed: seq<Row>, shown: seq<Row>, mac: Mac, i: nat)
    requires Annotated(SubnetAndVlan(nets), physical, rows, annotated)
    requires Collapsed(annotated, collapsed) && Filtered(collapsed, shown)
    requires i < |rows| && rows[i].mac == mac && Real(rows[i].ip) && !HasSynthetic(rows, mac)
    ensures ShowsPrimary(shown, mac)
  {
    var place := SubnetAndVlan(nets);
    var p := SomePrimary(place, physical, rows, annotated, mac, i);
    var w := KeptFor(annotated, collapsed, p);
    AnnotatedKeeps(place, physical, rows, annotated, p);
    AnnotatedKeeps(place, physical, rows, annotated, w);
    OnlySyntheticIntrudes(nets, rows[p].ip, rows[w].ip);
    assert RealSuccessor(annotated, mac, p, w);
    PlacingIsConsistent(nets);
    PrimaryShownIff(place, physical, rows, annotated, collapsed, shown, mac);
  }

  lemma AnnotatedKeeps(place: Placing, physical: map<Mac, int>, rows: seq<Row>, annotated: seq<Row>, k: int)
    requires Annotated(place, physical, rows, annotated) && 0 <= k < |annotated|
    ensures |rows| == |annotated|
    ensures annotated[k].mac == rows[k].mac && annotated[k].ip == rows[k].ip
    ensures annotated[k].lastSeen == rows[k].lastSeen
    ensures annotated[k].subnet == place(rows[k].ip).0
  {
  }

  lemma KeptFor(annotated: seq<Row>, collapsed: seq<Row>, p: nat) returns (w: nat)
    requires Collapsed(annotated, collapsed) && p < |annotated|
    ensures WinnerFor(annotated, KeyOf(annotated[p]), w)
  {
    assert HasKey(collapsed, KeyOf(annotated[p]));
    var r :| r in collapsed && KeyOf(r) == KeyOf(annotated[p]);
    assert Held(annotated, KeyOf(r), r);
    w :| WinnerFor(annotated, KeyOf(r), w) && annotated[w] == r;
  }

  // ----- when no address is left ------------------------------------------------------

  ghost predicate ShowsAddress(shown: seq<Row>, mac: Mac) { exists r :: r in shown && r.mac == mac && r.ip.Some? }

  ghost predicate KeepsRealRow(annotated: seq<Row>, mac: Mac) { exists w :: KeptReal(annotated, mac, w) }

  ghost predicate KeptReal(annotated: seq<Row>, mac: Mac, w: int) {
    WinnerIn(annotated, |annotated|, w) && annotated[w].mac == mac && Real(annotated[w].ip)
  }

  /** Exactly when a device is displayed with any address at all: when in one of its subnets the first
      of the most recently seen rows has a real one. */
  lemma AddressShownIff(annotated: seq<Row>, collapsed: seq<Row>, shown: seq<Row>, mac: Mac)
    requires Collapsed(annotated, collapsed) && Filtered(collapsed, shown)
    ensures ShowsAddress(shown, mac) <==> KeepsRealRow(annotated, mac)
  {
    if ShowsAddress(shown, mac) {
      var r :| r in shown && r.mac == mac && r.ip.Some?;
      var i :| 0 <= i < |shown| && shown[i] == r;
      assert collapsed[i] == r && collapsed[i] in collapsed && Held(annotated, KeyOf(r), r);
      var w :| WinnerFor(annotated, KeyOf(r), w) && annotated[w] == r;
      assert KeptReal(annotated, mac, w);
    }
    if KeepsRealRow(annotated, mac) {
      var w :| KeptReal(annotated, mac, w);
      KeptRealIsShown(annotated, collapsed, shown, mac, w);
    }
  }

  lemma KeptRealIsShown(annotated: seq<Row>, collapsed: seq<Row>, shown: seq<Row>, mac: Mac, w: int)
    requires Collapsed(annotated, collapsed) && Filtered(collapsed, shown) && KeptReal(annotated, mac, w)
    ensures ShowsAddress(shown, mac)
  {
    assert HasKey(collapsed, KeyOf(annotated[w]));
    var r :| r in collapsed && KeyOf(r) == KeyOf(annotated[w]);
    assert Held(annotated, KeyOf(r), r);
    var v :| WinnerFor(annotated, KeyOf(r), v) && annotated[v] == r;
    assert v == w;
    var i :| 0 <= i < |collapsed| && collapsed[i] == r;
    assert shown[i] == r && shown[i] in shown;
  }

  /** The text of an address as the ledger reads it. */
  function Parsed(s: string): Address {
    var parts := Split(s, '.');
    if LegalIpv4(s) then
      V4(((Value(parts[0]) * 256 + Value(parts[1])) * 256 + Value(parts[2])) * 256 + Value(parts[3]))
    else if |parts| == 4 && forall i :: 0 <= i < 3 ==> LegalOctet(parts[i]) then
      Synthetic((Value(parts[0]) * 256 + Value(parts[1])) * 256 + Value(parts[2]))
    else Junk
  }

  function Prefix(q: Quad): nat { (q.a as nat * 256 + q.b as nat) * 256 + q.c as nat }

  /** How the ledger reads the pseudo IP of a port. */
  lemma ParsedPseudo(q: Quad, port: nat)
    ensures PseudoIp(QuadText(q), port).Some?
    ensures Parsed(PseudoIp(QuadText(q), port).value)
            == if q.d == 0 && port <= 255 then V4(Prefix(q) * 256 + port) else Synthetic(Prefix(q))
  {
    PseudoIpOfQuad(q, port);
    PseudoIpIsNoAddress(q, port);
    FieldsHaveNoDots(q, port);
    SplitOfJoin(PseudoFields(q, port), '.');
    LegalPrint(q.a);
    LegalPrint(q.b);
    LegalPrint(q.c);
    ValueOfPrint(q.a);
    ValueOfPrint(q.b);
    ValueOfPrint(q.c);
    ValueOfPrint(q.d as nat * 1000 + port);
    var parts := Split(PseudoIp(QuadText(q), port).value, '.');
    assert parts == PseudoFields(q, port);
    assert parts[0] == Print(q.a) && parts[1] == Print(q.b) && parts[2] == Print(q.c);
  }

  /** With nothing confirmed the two addresses are guessed into one /24. */
  lemma SameSubnet(prefix: nat, port: nat)
    requires port <= 255 && Real(Some(V4(prefix * 256 + port)))
    ensures Place([], Some(V4(prefix * 256 + port))).0 == Place([], Some(Synthetic(prefix))).0
  {
    assert (prefix * 256 + port) / 256 == prefix == (prefix * 256 + 1) / 256;
  }

  /** The placeholders of ports p and p + 256 on a switch whose address ends in .0. They share a MAC,
      the first has a legal address and the second a synthetic one. */
  ghost predicate Placeholders(rows: seq<Row>, q: Quad, p: nat, i: nat, j: nat) {
    && q.d == 0 && p <= 255 && i < |rows| && j < |rows|
    && PseudoIp(QuadText(q), p).Some? && PseudoIp(QuadText(q), p + 256).Some?
    && rows[i].mac == PseudoMac(q, p) && rows[i].ip == Some(Parsed(PseudoIp(QuadText(q), p).value))
    && rows[j].mac == PseudoMac(q, p + 256) && rows[j].ip == Some(Parsed(PseudoIp(QuadText(q), p + 256).value))
  }

  /** Row `j` is kept rather than row `i`. */
  predicate KeptOver(rows: seq<Row>, i: nat, j: nat)
    requires i < |rows| && j < |rows|
  {
    rows[j].lastSeen > rows[i].lastSeen || (rows[j].lastSeen == rows[i].lastSeen && j < i)
  }

  /** A placeholder can lose its only legal address: of two such ports the synthetic one is seen last,
      or first in a tie, and placed in the same subnet, as it always is with nothing confirmed. The
      legal address is primary before the collapse and no address is displayed after it. */
  lemma PlaceholderLosesAddress(nets: seq<Confirmed>, physical: map<Mac, int>, rows: seq<Row>, annotated: seq<Row>,
                                collapsed: seq<Row>, shown: seq<Row>, q: Quad, p: nat, i: nat, j: nat)
    requires Annotated(SubnetAndVlan(nets), physical, rows, annotated)
    requires Collapsed(annotated, collapsed) && Filtered(collapsed, shown)
    requires Placeholders(rows, q, p, i, j) && KeptOver(rows, i, j) && Real(rows[i].ip)
    requires forall k :: 0 <= k < |rows| && rows[k].mac == PseudoMac(q, p) ==> k == i || k == j
    requires nets == [] || Place(nets, rows[i].ip).0 == Place(nets, rows[j].ip).0
    ensures i < |annotated| && annotated[i].isPrimary && Real(annotated[i].ip)
    ensures rows[j].mac == rows[i].mac && !ShowsAddress(shown, rows[i].mac)
  {
    hide PseudoIp, QuadText, Parsed, PseudoMac, Place, In, Collapsed, Filtered, Annotated;
    var place := SubnetAndVlan(nets);
    PseudoMacCollides(q, p, q, p + 256);
    ParsedPseudo(q, p);
    ParsedPseudo(q, p + 256);
    if nets == [] {
      SameSubnet(Prefix(q), p);
    }
    OneOfTwo(place, physical, rows, annotated, i, j);
    AddressShownIff(annotated, collapsed, shown, rows[i].mac);
  }

  /** Of a device's two rows in one subnet, one real and one not, the second is kept. */
  lemma OneOfTwo(place: Placing, physical: map<Mac, int>, rows: seq<Row>, annotated: seq<Row>, i: nat, j: nat)
    requires Annotated(place, physical, rows, annotated) && i < |rows| && j < |rows|
    requires rows[i].mac == rows[j].mac && place(rows[i].ip).0 == place(rows[j].ip).0
    requires KeptOver(rows, i, j) && Real(rows[i].ip) && !Real(rows[j].ip)
    requires forall k :: 0 <= k < |rows| && rows[k].mac == rows[i].mac ==> k == i || k == j
    ensures |annotated| == |rows| && annotated[i].isPrimary && Real(annotated[i].ip)
    ensures !KeepsRealRow(annotated, rows[i].mac)
  {
    var p := SomePrimary(place, physical, rows, annotated, rows[i].mac, i);
    AnnotatedKeeps(place, physical, rows, annotated, p);
    AnnotatedKeeps(place, physical, rows, annotated, i);
    AnnotatedKeeps(place, physical, rows, annotated, j);
    forall w ensures !KeptReal(annotated, rows[i].mac, w) {
      if 0 <= w < |annotated| {
        AnnotatedKeeps(place, physical, rows, annotated, w);
      }
    }
  }

  /** Every subnet a device was placed in is still shown once, noise included; only addresses that
      are not real are hidden. */
  lemma SubnetsKept(annotated: seq<Row>, collapsed: seq<Row>, shown: seq<Row>, i: nat)
    requires Collapsed(annotated, collapsed) && Filtered(collapsed, shown) && i < |annotated|
    ensures HasKey(shown, KeyOf(annotated[i]))
    ensures forall k, l :: 0 <= k < l < |shown| ==> KeyOf(shown[k]) != KeyOf(shown[l])
    ensures forall k :: 0 <= k < |shown| && shown[k].ip.Some? ==> Real(shown[k].ip)
  {
    hide Held, Earlier, Real;
    assert forall k :: 0 <= k < |shown| ==> KeyOf(shown[k]) == KeyOf(collapsed[k]);
    assert HasKey(collapsed, KeyOf(annotated[i]));
    var r :| r in collapsed && KeyOf(r) == KeyOf(annotated[i]);
    var k :| 0 <= k < |collapsed| && collapsed[k] == r;
    assert shown[k] in shown;
  }
}
