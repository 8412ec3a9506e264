/** Density-based edge resolution of src/pollers/mac_table_scraper.py: which switch port each MAC
    is plugged into, given every switch's forwarding table. */
module FdbEdges {
  type Ip = string
  type Port = string
  type Mac = string

  /** One forwarding-table sighting of a MAC. */
  datatype Loc = Loc(switch: Ip, port: Port, portName: string, linkSpeed: string, vlan: int)

  /** The "switch:port" key of raw_density, port_penalties and port_weights. */
  type Key = (Ip, Port)

  type Sightings = map<Mac, seq<Loc>>

  const BACKBONE := 10000

  function KeyOf(l: Loc): Key { (l.switch, l.port) }

  // ----- get_base_physical_port -------------------------------------------------------

  function Follow(stack: map<Port, Port>, p: Port, k: nat): Port {
    if k == 0 then p
    else
      var q := Follow(stack, p, k - 1);
      if q in stack then stack[q] else q
  }

  /** The walk from `p` ends after `k` moves: at a port stacked on nothing, or at the first port it
      meets again. */
  ghost predicate Stops(stack: map<Port, Port>, p: Port, k: nat) {
    && (forall i :: 0 <= i < k ==> Follow(stack, p, i) in stack)
    && (forall i, j :: 0 <= i < j < k ==> Follow(stack, p, i) != Follow(stack, p, j))
    && (Follow(stack, p, k) !in stack || Meets(stack, p, k))
  }

  ghost predicate Meets(stack: map<Port, Port>, p: Port, k: nat) {
    exists m :: 0 <= m < k && Follow(stack, p, m) == Follow(stack, p, k)
  }

  ghost predicate IsBase(stack: map<Port, Port>, p: Port, base: Port) {
    exists k: nat :: Stops(stack, p, k) && Follow(stack, p, k) == base
  }

  method GetBasePhysicalPort(stack: map<Port, Port>, p: Port) returns (current: Port)
    ensures IsBase(stack, p, current)
  {
    ghost var k: nat;
    current, k := p, 0;
    var visited := {};
    while current in stack && current !in visited
      invariant current == Follow(stack, p, k) && visited <= stack.Keys
      invariant forall q :: q in visited <==> exists i :: 0 <= i < k && Follow(stack, p, i) == q
      invariant forall i, j :: 0 <= i < j < k ==> Follow(stack, p, i) != Follow(stack, p, j)
      decreases stack.Keys - visited
    {
      visited := visited + {current};
      current := stack[current];
      k := k + 1;
    }
    assert forall i :: 0 <= i < k ==> Follow(stack, p, i) in visited;
    assert Stops(stack, p, k);
  }

  lemma StopsOnce(stack: map<Port, Port>, p: Port, k: nat, l: nat)
    requires Stops(stack, p, k) && Stops(stack, p, l)
    ensures k == l
  {
  }

  lemma {:induction false} FollowOn(stack: map<Port, Port>, p: Port, m: nat, i: nat)
    ensures Follow(stack, Follow(stack, p, m), i) == Follow(stack, p, m + i)
  {
    if i > 0 {
      FollowOn(stack, p, m, i - 1);
    }
  }

  lemma BaseOfBase(stack: map<Port, Port>, p: Port, k: nat, l: nat)
    requires Stops(stack, p, k) && Stops(stack, Follow(stack, p, k), l)
    ensures Follow(stack, Follow(stack, p, k), l) == Follow(stack, p, k)
  {
    var r := Follow(stack, p, k);
    if r in stack {
      var m :| 0 <= m < k && Follow(stack, p, m) == r;
      forall i: nat ensures Follow(stack, r, i) == Follow(stack, p, m + i) {
        FollowOn(stack, p, m, i);
      }
      assert Follow(stack, r, 0) == r && Follow(stack, r, k - m) == r;
      assert Meets(stack, r, k - m);
      assert Stops(stack, r, k - m);
      StopsOnce(stack, r, k - m, l);
    } else {
      assert Stops(stack, r, 0);
      StopsOnce(stack, r, 0, l);
    }
  }

  /** A port has one base port, and resolving a resolved port changes nothing, cycles in the stack
      table included. */
  lemma BaseIsIdempotent(stack: map<Port, Port>, p: Port, base: Port, again: Port)
    requires IsBase(stack, p, base) && (IsBase(stack, base, again) || IsBase(stack, p, again))
    ensures again == base
  {
    var k: nat :| Stops(stack, p, k) && Follow(stack, p, k) == base;
    if IsBase(stack, p, again) {
      var l: nat :| Stops(stack, p, l) && Follow(stack, p, l) == again;
      StopsOnce(stack, p, k, l);
    } else {
      var l: nat :| Stops(stack, base, l) && Follow(stack, base, l) == again;
      BaseOfBase(stack, p, k, l);
    }
  }

  // ----- collecting the sightings -----------------------------------------------------

  predicate SeenAt(locs: seq<Loc>, switch: Ip) { exists i :: 0 <= i < |locs| && locs[i].switch == switch }

  /** A MAC's sightings in arrival order, the first one of each switch only. */
  function LocsOf(batch: seq<(Mac, Loc)>, mac: Mac): seq<Loc> {
    if batch == [] then []
    else
      var before := LocsOf(batch[..|batch| - 1], mac);
      var (m, l) := batch[|batch| - 1];
      if m == mac && !SeenAt(before, l.switch) then before + [l] else before
  }

  predicate OnePerSwitch(locs: seq<Loc>) { forall i, j :: 0 <= i < j < |locs| ==> locs[i].switch != locs[j].switch }

  /** Every MAC in the table was sighted, once per switch at most. */
  predicate WellFormed(at: Sightings) { forall m :: m in at ==> at[m] != [] && OnePerSwitch(at[m]) }

  lemma {:induction false} LocsOfOnePerSwitch(batch: seq<(Mac, Loc)>, mac: Mac)
    ensures OnePerSwitch(LocsOf(batch, mac))
    ensures forall l :: l in LocsOf(batch, mac) ==> (mac, l) in batch
    ensures forall l :: (mac, l) in batch ==> SeenAt(LocsOf(batch, mac), l.switch)
  {
    if batch != [] {
      var n := |batch| - 1;
      var g := batch[..n];
      LocsOfOnePerSwitch(g, mac);
      assert forall x :: x in batch <==> x in g || x == batch[n];
      var before, after := LocsOf(g, mac), LocsOf(batch, mac);
      forall l | (mac, l) in batch ensures SeenAt(after, l.switch) {
        if SeenAt(before, l.switch) {
          var i :| 0 <= i < |before| && before[i].switch == l.switch;
          assert after[i].switch == l.switch;
        } else {
          assert after[|before|].switch == l.switch;
        }
      }
    }
  }

  /** Sighting `k` of the batch is the first one of its MAC on its switch. */
  predicate FirstSighting(batch: seq<(Mac, Loc)>, k: int) {
    && 0 <= k < |batch|
    && forall j :: 0 <= j < k ==> batch[j].0 != batch[k].0 || batch[j].1.switch != batch[k].1.switch
  }

  /** Sighting `i` of a MAC's list stands at `at[i]` in the batch, in the same order. */
  ghost predicate StandAt(batch: seq<(Mac, Loc)>, mac: Mac, locs: seq<Loc>, at: seq<nat>) {
    && |at| == |locs|
    && (forall i :: 0 <= i < |at| ==> at[i] < |batch| && batch[at[i]] == (mac, locs[i]))
    && (forall i, j :: 0 <= i < j < |at| ==> at[i] < at[j])
  }

  /** Which sightings are kept and in what order: the first one of each switch, as they arrived. */
  lemma {:induction false} LocsOfAreFirst(batch: seq<(Mac, Loc)>, mac: Mac) returns (at: seq<nat>)
    ensures StandAt(batch, mac, LocsOf(batch, mac), at)
    ensures TheFirst(batch, mac, at)
  {
    hide FirstSighting, LocsOf, StandAt, TheFirst;
    if batch == [] {
      at := [];
      NothingStands(mac);
    } else {
      var n := |batch| - 1;
      var earlier := LocsOfAreFirst(batch[..n], mac);
      FirstNext(batch, mac, earlier);
      StandsInPrefix(batch, mac, LocsOf(batch[..n], mac), earlier);
      LastIsFirst(batch, mac, earlier);
      if batch[n].0 == mac && FirstSighting(batch, n) {
        StandsNext(batch, mac, LocsOf(batch[..n], mac), earlier);
        at := earlier + [n];
      } else {
        at := earlier;
      }
    }
  }

  lemma NothingStands(mac: Mac)
    ensures StandAt([], mac, LocsOf([], mac), []) && TheFirst([], mac, [])
  {
  }

  lemma StandsInPrefix(batch: seq<(Mac, Loc)>, mac: Mac, locs: seq<Loc>, at: seq<nat>)
    requires batch != [] && StandAt(batch[..|batch| - 1], mac, locs, at)
    ensures StandAt(batch, mac, locs, at) && |at| == |locs| && forall i :: 0 <= i < |at| ==> at[i] < |batch| - 1
  {
  }

  lemma StandsNext(batch: seq<(Mac, Loc)>, mac: Mac, locs: seq<Loc>, at: seq<nat>)
    requires batch != [] && StandAt(batch, mac, locs, at) && batch[|batch| - 1].0 == mac
    requires forall i :: 0 <= i < |at| ==> at[i] < |batch| - 1
    ensures StandAt(batch, mac, locs + [batch[|batch| - 1].1], at + [|batch| - 1])
  {
  }

  /** `at` lists exactly the first sightings of the MAC. */
  ghost predicate TheFirst(batch: seq<(Mac, Loc)>, mac: Mac, at: seq<nat>) {
    forall k: nat :: k in at <==> FirstSighting(batch, k) && batch[k].0 == mac
  }

  lemma FirstNext(batch: seq<(Mac, Loc)>, mac: Mac, at: seq<nat>)
    requires batch != [] && TheFirst(batch[..|batch| - 1], mac, at)
    ensures var n := |batch| - 1;
            TheFirst(batch, mac, if batch[n].0 == mac && FirstSighting(batch, n) then at + [n] else at)
  {
    hide FirstSighting;
    var n := |batch| - 1;
    FirstInPrefix(batch, n);
    var after := if batch[n].0 == mac && FirstSighting(batch, n) then at + [n] else at;
    forall k: nat ensures k in after <==> FirstSighting(batch, k) && batch[k].0 == mac {
      assert k in after <==> k in at || (k == n && after == at + [n]);
    }
  }

  lemma FirstInPrefix(batch: seq<(Mac, Loc)>, n: nat)
    requires n <= |batch|
    ensures forall k :: 0 <= k < n ==> (FirstSighting(batch, k) <==> FirstSighting(batch[..n], k))
    ensures forall k :: FirstSighting(batch, k) ==> 0 <= k < |batch|
    ensures forall k :: FirstSighting(batch[..n], k) ==> 0 <= k < n
    ensures forall k :: 0 <= k < n ==> batch[..n][k] == batch[k]
  {
    forall k | 0 <= k < n ensures FirstSighting(batch, k) <==> FirstSighting(batch[..n], k) {
      assert forall j :: 0 <= j <= k ==> batch[j] == batch[..n][j];
    }
  }

  /** The last sighting is kept exactly when it is the first of its MAC on its switch. */
  lemma LastIsFirst(batch: seq<(Mac, Loc)>, mac: Mac, at: seq<nat>)
    requires batch != [] && StandAt(batch, mac, LocsOf(batch[..|batch| - 1], mac), at)
    requires forall i :: 0 <= i < |at| ==> at[i] < |batch| - 1
    ensures var before := LocsOf(batch[..|batch| - 1], mac);
            LocsOf(batch, mac) == if batch[|batch| - 1].0 == mac && FirstSighting(batch, |batch| - 1)
              then before + [batch[|batch| - 1].1] else before
  {
    var n := |batch| - 1;
    var g := batch[..n];
    var before := LocsOf(g, mac);
    if batch[n].0 == mac {
      if SeenAt(before, batch[n].1.switch) {
        var i :| 0 <= i < |before| && before[i].switch == batch[n].1.switch;
        assert batch[at[i]] == (mac, before[i]);
      } else {
        LocsOfOnePerSwitch(g, mac);
        forall j | 0 <= j < n ensures batch[j].0 != mac || batch[j].1.switch != batch[n].1.switch {
          assert g[j] in g;
        }
      }
    }
  }

  method CollectSightings(batch: seq<(Mac, Loc)>) returns (at: Sightings)
    ensures WellFormed(at)
    ensures forall m :: if m in at then at[m] == LocsOf(batch, m) else LocsOf(batch, m) == []
  {
    hide LocsOf, OnePerSwitch;
    at := map[];
    NoneYet(batch);
    var i := 0;
    while i < |batch|
      invariant 0 <= i <= |batch|
      invariant forall m :: if m in at then at[m] == LocsOf(batch[..i], m) != [] else LocsOf(batch[..i], m) == []
    {
      var (mac, l) := batch[i];
      LocsNext(batch, i);
      if mac !in at {
        at := at[mac := []];
      }
      if !SeenAt(at[mac], l.switch) {
        at := at[mac := at[mac] + [l]];
      }
      i := i + 1;
    }
    assert batch[..|batch|] == batch;
    forall m | m in at ensures OnePerSwitch(at[m]) {
      LocsOfOnePerSwitch(batch, m);
    }
  }

  lemma NoneYet(batch: seq<(Mac, Loc)>)
    ensures forall m :: LocsOf(batch[..0], m) == []
  {
  }

  lemma LocsNext(batch: seq<(Mac, Loc)>, i: nat)
    requires i < |batch|
    ensures forall m :: m != batch[i].0 ==> LocsOf(batch[..i + 1], m) == LocsOf(batch[..i], m)
    ensures var (mac, l) := batch[i]; var before := LocsOf(batch[..i], mac);
            LocsOf(batch[..i + 1], mac) == if SeenAt(before, l.switch) then before else before + [l]
  {
    assert batch[..i + 1][..i] == batch[..i];
  }

  // ----- density and penalties --------------------------------------------------------

  predicate Hits(locs: seq<Loc>, key: Key) { exists i :: 0 <= i < |locs| && KeyOf(locs[i]) == key }

  /** The MACs seen on a port. */
  function MacsOn(at: Sightings, macs: set<Mac>, key: Key): set<Mac> {
    set m | m in macs && m in at && Hits(at[m], key)
  }

  function Density(at: Sightings, key: Key): nat { |MacsOn(at, at.Keys, key)| }

  function DensityIn(density: map<Key, nat>, key: Key): nat { if key in density then density[key] else 0 }

  /** The batch definition of the penalties: an unclassified router port that hosts more than one
      MAC is backbone, and nothing else changes. */
  ghost predicate PenaltiesAre(penalties: map<Key, int>, prior: map<Key, int>, density: map<Key, nat>,
      routers: set<Ip>)
  {
    forall key ::
      && (key in penalties <==> key in prior || (key.0 in routers && DensityIn(density, key) > 1))
      && (key in penalties ==> penalties[key] == if key in prior then prior[key] else BACKBONE)
  }

  /** What raw_density holds after the MACs in `done` and the first `j` sightings of `mac`. */
  ghost predicate DensityIs(density: map<Key, nat>, at: Sightings, done: set<Mac>, mac: Mac, j: nat)
    requires mac in at && j <= |at[mac]|
  {
    forall key :: DensityIn(density, key) == |MacsOn(at, done, key)| + if Hits(at[mac][..j], key) then 1 else 0
  }

  ghost predicate DensityDone(density: map<Key, nat>, at: Sightings, done: set<Mac>) {
    forall key :: DensityIn(density, key) == |MacsOn(at, done, key)|
      && (key in density <==> DensityIn(density, key) > 0)
  }

  lemma NextHit(locs: seq<Loc>, j: nat)
    requires j < |locs| && OnePerSwitch(locs)
    ensures !Hits(locs[..j], KeyOf(locs[j]))
    ensures forall key :: Hits(locs[..j + 1], key) <==> Hits(locs[..j], key) || key == KeyOf(locs[j])
  {
    forall key ensures Hits(locs[..j + 1], key) <==> Hits(locs[..j], key) || key == KeyOf(locs[j]) {
      if Hits(locs[..j], key) {
        var i :| 0 <= i < j && KeyOf(locs[..j][i]) == key;
        assert KeyOf(locs[..j + 1][i]) == key;
      }
      if key == KeyOf(locs[j]) {
        assert KeyOf(locs[..j + 1][j]) == key;
      }
    }
  }

  lemma OneMoreMac(at: Sightings, done: set<Mac>, mac: Mac, key: Key)
    requires mac in at && mac !in done
    ensures |MacsOn(at, done + {mac}, key)| == |MacsOn(at, done, key)| + if Hits(at[mac], key) then 1 else 0
  {
    if Hits(at[mac], key) {
      assert MacsOn(at, done + {mac}, key) == MacsOn(at, done, key) + {mac};
    } else {
      assert MacsOn(at, done + {mac}, key) == MacsOn(at, done, key);
    }
  }

  function Bump(density: map<Key, nat>, key: Key): map<Key, nat> { density[key := DensityIn(density, key) + 1] }

  function Penalise(penalties: map<Key, int>, density: map<Key, nat>, routers: set<Ip>, key: Key): map<Key, int> {
    if key !in penalties && key.0 in routers && DensityIn(density, key) > 1
      then penalties[key := BACKBONE] else penalties
  }

  lemma BumpCounts(density: map<Key, nat>, at: Sightings, done: set<Mac>, mac: Mac, j: nat)
    requires WellFormed(at) && mac in at && j < |at[mac]| && DensityIs(density, at, done, mac, j)
    ensures DensityIs(Bump(density, KeyOf(at[mac][j])), at, done, mac, j + 1)
  {
    NextHit(at[mac], j);
  }

  lemma PenaliseKeeps(penalties: map<Key, int>, prior: map<Key, int>, density: map<Key, nat>, routers: set<Ip>,
      key: Key)
    requires PenaltiesAre(penalties, prior, density, routers)
    ensures PenaltiesAre(Penalise(penalties, Bump(density, key), routers, key), prior, Bump(density, key), routers)
  {
    var after := Bump(density, key);
    assert forall k :: DensityIn(after, k) == DensityIn(density, k) + if k == key then 1 else 0;
  }

  /** One MAC's sightings in the counting loop. */
  method CountMac(at: Sightings, mac: Mac, routers: set<Ip>, ghost prior: map<Key, int>, ghost done: set<Mac>,
                  density0: map<Key, nat>, penalties0: map<Key, int>)
    returns (density: map<Key, nat>, penalties: map<Key, int>)
    requires WellFormed(at) && mac in at && mac !in done
    requires DensityDone(density0, at, done) && PenaltiesAre(penalties0, prior, density0, routers)
    ensures DensityDone(density, at, done + {mac}) && PenaltiesAre(penalties, prior, density, routers)
  {
    hide DensityIs, DensityDone, PenaltiesAre, WellFormed, KeysCounted;
    density, penalties := density0, penalties0;
    var locs := at[mac];
    var j := 0;
    NoneCounted(density, at, done, mac);
    while j < |locs|
      invariant 0 <= j <= |locs|
      invariant DensityIs(density, at, done, mac, j)
      invariant KeysCounted(density)
      invariant PenaltiesAre(penalties, prior, density, routers)
    {
      var key := KeyOf(locs[j]);
      BumpCounts(density, at, done, mac, j);
      BumpKeys(density, key);
      PenaliseKeeps(penalties, prior, density, routers, key);
      density := density[key := DensityIn(density, key) + 1];
      if key !in penalties && locs[j].switch in routers && density[key] > 1 {
        penalties := penalties[key := BACKBONE];
      }
      j := j + 1;
    }
    MacCounted(density, at, done, mac);
  }

  /** A key is in the table once it was counted. */
  ghost predicate KeysCounted(density: map<Key, nat>) { forall key :: key in density <==> DensityIn(density, key) > 0 }

  lemma NoneCounted(density: map<Key, nat>, at: Sightings, done: set<Mac>, mac: Mac)
    requires DensityDone(density, at, done) && mac in at
    ensures DensityIs(density, at, done, mac, 0) && KeysCounted(density)
  {
  }

  lemma BumpKeys(density: map<Key, nat>, key: Key)
    requires KeysCounted(density)
    ensures KeysCounted(Bump(density, key))
  {
  }

  lemma MacCounted(density: map<Key, nat>, at: Sightings, done: set<Mac>, mac: Mac)
    requires mac in at && mac !in done && DensityIs(density, at, done, mac, |at[mac]|)
    requires KeysCounted(density)
    ensures DensityDone(density, at, done + {mac})
  {
    assert at[mac][..|at[mac]|] == at[mac];
    forall key ensures DensityIn(density, key) == |MacsOn(at, done + {mac}, key)| {
      OneMoreMac(at, done, mac, key);
    }
  }

  /** The counting loop over every MAC, in any order: the order leaves no trace in the result. */
  method CountAndPenalise(at: Sightings, routers: set<Ip>, prior: map<Key, int>)
    returns (density: map<Key, nat>, penalties: map<Key, int>)
    requires WellFormed(at)
    ensures forall key :: DensityIn(density, key) == Density(at, key) && (key in density <==> Density(at, key) > 0)
    ensures PenaltiesAre(penalties, prior, density, routers)
  {
    density, penalties := map[], prior;
    var todo := at.Keys;
    while todo != {}
      invariant todo <= at.Keys
      invariant DensityDone(density, at, at.Keys - todo) && PenaltiesAre(penalties, prior, density, routers)
      decreases todo
    {
      var mac :| mac in todo;
      density, penalties := CountMac(at, mac, routers, prior, at.Keys - todo, density, penalties);
      assert at.Keys - (todo - {mac}) == (at.Keys - todo) + {mac};
      todo := todo - {mac};
    }
    assert at.Keys - todo == at.Keys;
  }

  // ----- choosing the edge ------------------------------------------------------------

  /** What a port weighs, said without the loops: how many MACs it hosts, plus its prior penalty
      or, for an unclassified router port hosting several, the backbone penalty. */
  function Weight(at: Sightings, routers: set<Ip>, prior: map<Key, int>, key: Key): int {
    Density(at, key) +
      if key in prior then prior[key] else if key.0 in routers && Density(at, key) > 1 then BACKBONE else 0
  }

  /** The weight of a port, from the sightings themselves. */
  lemma WeightMeans(at: Sightings, routers: set<Ip>, prior: map<Key, int>, switch: Ip, port: Port)
    ensures var hosts := set m | m in at && exists i :: 0 <= i < |at[m]| && KeyOf(at[m][i]) == (switch, port);
            && (forall l: Loc :: KeyOf(l) == (switch, port) <==> l.switch == switch && l.port == port)
            && Weight(at, routers, prior, (switch, port)) ==
                 if (switch, port) in prior then |hosts| + prior[(switch, port)]
                 else if switch in routers && |hosts| >= 2 then |hosts| + 10000
                 else |hosts|
  {
    assert MacsOn(at, at.Keys, (switch, port)) ==
      set m | m in at && exists i :: 0 <= i < |at[m]| && KeyOf(at[m][i]) == (switch, port);
  }

  /** port_weights.get(key, 9999) */
  function WeightIn(weights: map<Key, int>, l: Loc): int { if KeyOf(l) in weights then weights[KeyOf(l)] else 9999 }

  /** A switch's own sighting that is not backbone. */
  predicate Good(weights: map<Key, int>, routers: set<Ip>, l: Loc) {
    l.switch !in routers && WeightIn(weights, l) < BACKBONE
  }

  ghost predicate AnyGood(weights: map<Key, int>, routers: set<Ip>, locs: seq<Loc>) {
    exists l :: l in locs && Good(weights, routers, l)
  }

  /** The sightings the choice is made among. */
  ghost predicate Candidate(weights: map<Key, int>, routers: set<Ip>, locs: seq<Loc>, l: Loc) {
    l in locs && (AnyGood(weights, routers, locs) ==> Good(weights, routers, l))
  }

  /** `best` is a lightest candidate. */
  ghost predicate Chosen(weights: map<Key, int>, routers: set<Ip>, locs: seq<Loc>, best: Loc) {
    && Candidate(weights, routers, locs, best)
    && (forall l :: Candidate(weights, routers, locs, l) ==> WeightIn(weights, best) <= WeightIn(weights, l))
    && (exists i :: EarliestAt(weights, routers, locs, best, i))
  }

  /** Among the candidates as light as `best` it is the first. */
  ghost predicate EarliestAt(weights: map<Key, int>, routers: set<Ip>, locs: seq<Loc>, best: Loc, i: int) {
    && 0 <= i < |locs| && locs[i] == best
    && forall j :: 0 <= j < i && Candidate(weights, routers, locs, locs[j]) ==>
         WeightIn(weights, best) < WeightIn(weights, locs[j])
  }

  /** `from` says where in `locs` each good one stands. */
  method GoodOnes(weights: map<Key, int>, routers: set<Ip>, locs: seq<Loc>)
    returns (good: seq<Loc>, ghost from: seq<nat>)
    ensures forall l :: l in good <==> l in locs && Good(weights, routers, l)
    ensures Picked(weights, routers, locs, |locs|, good, from)
  {
    good, from := [], [];
    var i := 0;
    while i < |locs|
      invariant 0 <= i <= |locs|
      invariant forall l :: l in good <==> l in locs[..i] && Good(weights, routers, l)
      invariant Picked(weights, routers, locs, i, good, from)
    {
      hide Good, Picked;
      assert forall l :: l in locs[..i + 1] <==> l in locs[..i] || l == locs[i];
      PickNext(weights, routers, locs, i, good, from);
      if Good(weights, routers, locs[i]) {
        good, from := good + [locs[i]], from + [i];
      }
      i := i + 1;
    }
    assert locs[..|locs|] == locs;
  }

  lemma PickNext(weights: map<Key, int>, routers: set<Ip>, locs: seq<Loc>, i: nat, good: seq<Loc>, from: seq<nat>)
    requires i < |locs| && Picked(weights, routers, locs, i, good, from)
    ensures if Good(weights, routers, locs[i]) then
              Picked(weights, routers, locs, i + 1, good + [locs[i]], from + [i])
            else Picked(weights, routers, locs, i + 1, good, from)
  {
    hide Good;
    var after := from + [i];
    forall j | 0 <= j < i + 1 && Good(weights, routers, locs[j]) && Good(weights, routers, locs[i]) ensures j in after {
      if j == i {
        assert after[|from|] == i;
      }
    }
  }

  /** `good` holds the good ones of the first `n` sightings, in their order. */
  ghost predicate Picked(weights: map<Key, int>, routers: set<Ip>, locs: seq<Loc>, n: nat, good: seq<Loc>,
      from: seq<nat>)
    requires n <= |locs|
  {
    && |from| == |good|
    && (forall k :: 0 <= k < |from| ==> from[k] < n && good[k] == locs[from[k]])
    && (forall k, j :: 0 <= k < j < |from| ==> from[k] < from[j])
    && (forall i :: 0 <= i < n && Good(weights, routers, locs[i]) ==> i in from)
  }

  /** min(candidates, key=weight): the first of the lightest */
  method Lightest(weights: map<Key, int>, locs: seq<Loc>) returns (best: nat)
    requires locs != []
    ensures best < |locs|
    ensures forall j :: 0 <= j < |locs| ==> WeightIn(weights, locs[best]) <= WeightIn(weights, locs[j])
    ensures forall j :: 0 <= j < best ==> WeightIn(weights, locs[best]) < WeightIn(weights, locs[j])
  {
    best := 0;
    var i := 1;
    while i < |locs|
      invariant best < i <= |locs|
      invariant forall j :: 0 <= j < i ==> WeightIn(weights, locs[best]) <= WeightIn(weights, locs[j])
      invariant forall j :: 0 <= j < best ==> WeightIn(weights, locs[best]) < WeightIn(weights, locs[j])
    {
      if WeightIn(weights, locs[i]) < WeightIn(weights, locs[best]) {
        best := i;
      }
      i := i + 1;
    }
  }

  method ChooseEdge(weights: map<Key, int>, routers: set<Ip>, locs: seq<Loc>) returns (best: Loc)
    requires locs != []
    ensures Chosen(weights, routers, locs, best)
    ensures WeightIn(weights, best) >= BACKBONE <==> forall l :: l in locs ==> WeightIn(weights, l) >= BACKBONE
  {
    hide Good, Picked, EarliestAt;
    var good, from := GoodOnes(weights, routers, locs);
    var candidates := if good != [] then good else locs;
    assert good != [] ==> good[0] in good;
    var i := Lightest(weights, candidates);
    best := candidates[i];
    assert best in candidates;
    if good != [] {
      EarliestPicked(weights, routers, locs, good, from, i);
    } else {
      EarliestOfAll(weights, routers, locs, i);
    }
    BackboneIff(weights, routers, locs, best);
  }

  lemma BackboneIff(weights: map<Key, int>, routers: set<Ip>, locs: seq<Loc>, best: Loc)
    requires Chosen(weights, routers, locs, best)
    ensures WeightIn(weights, best) >= BACKBONE <==> forall l :: l in locs ==> WeightIn(weights, l) >= BACKBONE
  {
    if l :| l in locs && WeightIn(weights, l) < BACKBONE {
      assert AnyGood(weights, routers, locs) || Candidate(weights, routers, locs, l);
    }
  }

  lemma EarliestOfAll(weights: map<Key, int>, routers: set<Ip>, locs: seq<Loc>, i: nat)
    requires i < |locs|
    requires forall j :: 0 <= j < i ==> WeightIn(weights, locs[i]) < WeightIn(weights, locs[j])
    ensures EarliestAt(weights, routers, locs, locs[i], i)
  {
  }

  lemma EarliestPicked(weights: map<Key, int>, routers: set<Ip>, locs: seq<Loc>, good: seq<Loc>, from: seq<nat>,
      i: nat)
    requires i < |good| && Picked(weights, routers, locs, |locs|, good, from) && AnyGood(weights, routers, locs)
    requires forall j :: 0 <= j < i ==> WeightIn(weights, good[i]) < WeightIn(weights, good[j])
    ensures EarliestAt(weights, routers, locs, good[i], from[i])
  {
    forall j | 0 <= j < from[i] && Good(weights, routers, locs[j])
      ensures WeightIn(weights, good[i]) < WeightIn(weights, locs[j])
    {
      var x :| 0 <= x < |from| && from[x] == j;
      assert x < i;
    }
  }

  method ResolveEdges(at: Sightings, weights: map<Key, int>, routers: set<Ip>)
    returns (edges: map<Mac, Loc>, purged: set<Mac>)
    requires WellFormed(at)
    ensures edges.Keys !! purged && edges.Keys + purged == at.Keys
    ensures forall m :: m in edges ==> Chosen(weights, routers, at[m], edges[m])
    ensures forall m :: m in at ==> (m in purged <==> forall l :: l in at[m] ==> WeightIn(weights, l) >= BACKBONE)
  {
    edges, purged := map[], {};
    var todo := at.Keys;
    while todo != {}
      invariant todo <= at.Keys && edges.Keys !! purged && edges.Keys + purged == at.Keys - todo
      invariant forall m :: m in edges ==> Chosen(weights, routers, at[m], edges[m])
      invariant forall m :: m in at && m !in todo ==>
        (m in purged <==> forall l :: l in at[m] ==> WeightIn(weights, l) >= BACKBONE)
      decreases todo
    {
      var mac :| mac in todo;
      var best := ChooseEdge(weights, routers, at[mac]);
      if WeightIn(weights, best) >= BACKBONE {
        purged := purged + {mac};
      } else {
        edges := edges[mac := best];
      }
      todo := todo - {mac};
    }
  }

  /** The weights table agrees with the ports' weights on every sighting. */
  ghost predicate WeighsRight(at: Sightings, routers: set<Ip>, prior: map<Key, int>, weights: map<Key, int>) {
    forall m, l :: m in at && l in at[m] ==> WeightIn(weights, l) == Weight(at, routers, prior, KeyOf(l))
  }

  /** port_weights */
  method PortWeights(at: Sightings, routers: set<Ip>, prior: map<Key, int>) returns (weights: map<Key, int>)
    requires WellFormed(at)
    ensures WeighsRight(at, routers, prior, weights)
  {
    var density, penalties := CountAndPenalise(at, routers, prior);
    weights := map key | key in density :: density[key] + if key in penalties then penalties[key] else 0;
    forall m, l | m in at && l in at[m] ensures WeightIn(weights, l) == Weight(at, routers, prior, KeyOf(l)) {
      SightedPortHasDensity(at, m, l);
      assert DensityIn(density, KeyOf(l)) == Density(at, KeyOf(l));
    }
  }

  /** The edge resolution of run_mac_table_scraper, from the switches' answers to the purge list:
      a MAC is purged exactly when every sighting of it weighs backbone; otherwise its edge is a
      lightest sighting, taken among the non-router ones below backbone whenever there is one. */
  method RunMacTableScraper(batch: seq<(Mac, Loc)>, routers: set<Ip>, prior: map<Key, int>)
    returns (edges: map<Mac, Loc>, purged: set<Mac>, at: Sightings)
    ensures forall m :: if m in at then at[m] == LocsOf(batch, m) else LocsOf(batch, m) == []
    ensures edges.Keys !! purged && edges.Keys + purged == at.Keys
    ensures forall m :: m in at ==> (m in purged <==> AllBackbone(at, routers, prior, at[m]))
    ensures forall m :: m in edges ==> EdgeOk(at, routers, prior, at[m], edges[m])
  {
    at := CollectSightings(batch);
    var weights := PortWeights(at, routers, prior);
    edges, purged := ResolveEdges(at, weights, routers);
    forall m | m in at
      ensures m in purged <==> AllBackbone(at, routers, prior, at[m])
      ensures m in edges ==> EdgeOk(at, routers, prior, at[m], edges[m])
    {
      assert forall l :: l in at[m] ==> WeightIn(weights, l) == Weight(at, routers, prior, KeyOf(l));
      if m in edges {
        EdgeFromChosen(at, routers, prior, weights, at[m], edges[m]);
      }
    }
  }

  ghost predicate AllBackbone(at: Sightings, routers: set<Ip>, prior: map<Key, int>, locs: seq<Loc>) {
    forall l :: l in locs ==> Weight(at, routers, prior, KeyOf(l)) >= BACKBONE
  }

  lemma SightedPortHasDensity(at: Sightings, m: Mac, l: Loc)
    requires m in at && l in at[m]
    ensures Density(at, KeyOf(l)) > 0
  {
    var i :| 0 <= i < |at[m]| && at[m][i] == l;
    assert KeyOf(at[m][i]) == KeyOf(l);
    assert m in MacsOn(at, at.Keys, KeyOf(l));
  }

  /** What an edge must be, in terms of the weights of the ports themselves. */
  ghost predicate EdgeOk(at: Sightings, routers: set<Ip>, prior: map<Key, int>, locs: seq<Loc>, best: Loc) {
    && best in locs && Weight(at, routers, prior, KeyOf(best)) < BACKBONE
    && (if CleanSwitch(at, routers, prior, locs) then
          best.switch !in routers && forall l :: l in locs && l.switch !in routers ==>
            Weight(at, routers, prior, KeyOf(best)) <= Weight(at, routers, prior, KeyOf(l))
        else
          forall l :: l in locs ==> Weight(at, routers, prior, KeyOf(best)) <= Weight(at, routers, prior, KeyOf(l)))
    && exists i :: FirstLightest(at, routers, prior, locs, best, i)
  }

  /** `best` is where a lightest sighting first arrived; router sightings do not compete when there is
      a clean one. */
  ghost predicate FirstLightest(at: Sightings, routers: set<Ip>, prior: map<Key, int>, locs: seq<Loc>, best: Loc,
      i: int)
  {
    && 0 <= i < |locs| && locs[i] == best
    && forall j :: 0 <= j < i && (CleanSwitch(at, routers, prior, locs) ==> locs[j].switch !in routers) ==>
         Weight(at, routers, prior, KeyOf(best)) < Weight(at, routers, prior, KeyOf(locs[j]))
  }

  ghost predicate CleanSwitch(at: Sightings, routers: set<Ip>, prior: map<Key, int>, locs: seq<Loc>) {
    exists l :: l in locs && l.switch !in routers && Weight(at, routers, prior, KeyOf(l)) < BACKBONE
  }

  lemma EdgeFromChosen(at: Sightings, routers: set<Ip>, prior: map<Key, int>, weights: map<Key, int>, locs: seq<Loc>,
      best: Loc)
    requires forall l :: l in locs ==> WeightIn(weights, l) == Weight(at, routers, prior, KeyOf(l))
    requires Chosen(weights, routers, locs, best) && !(forall l :: l in locs ==> WeightIn(weights, l) >= BACKBONE)
    ensures EdgeOk(at, routers, prior, locs, best)
  {
    if l :| l in locs && l.switch !in routers && Weight(at, routers, prior, KeyOf(l)) < BACKBONE {
      assert Good(weights, routers, l);
    }
    forall l | l in locs && l.switch !in routers && CleanSwitch(at, routers, prior, locs)
      ensures WeightIn(weights, best) <= WeightIn(weights, l)
    {
      if WeightIn(weights, l) < BACKBONE {
        assert Candidate(weights, routers, locs, l);
      }
    }
    forall l | l in locs && !CleanSwitch(at, routers, prior, locs)
      ensures WeightIn(weights, best) <= WeightIn(weights, l)
    {
      assert !AnyGood(weights, routers, locs);
      assert Candidate(weights, routers, locs, l);
    }
    EarliestIsFirst(at, routers, prior, weights, locs, best);
  }

  lemma EarliestIsFirst(at: Sightings, routers: set<Ip>, prior: map<Key, int>, weights: map<Key, int>, locs: seq<Loc>,
      best: Loc)
    requires forall l :: l in locs ==> WeightIn(weights, l) == Weight(at, routers, prior, KeyOf(l))
    requires Chosen(weights, routers, locs, best) && WeightIn(weights, best) < BACKBONE
    ensures exists i :: FirstLightest(at, routers, prior, locs, best, i)
  {
    hide Weight;
    var i :| EarliestAt(weights, routers, locs, best, i);
    forall j | 0 <= j < i && (CleanSwitch(at, routers, prior, locs) ==> locs[j].switch !in routers)
      ensures WeightIn(weights, best) < WeightIn(weights, locs[j])
    {
      assert locs[j] in locs;
      if AnyGood(weights, routers, locs) {
        var l :| l in locs && Good(weights, routers, l);
        assert Weight(at, routers, prior, KeyOf(l)) < BACKBONE;
        assert CleanSwitch(at, routers, prior, locs);
      }
    }
    assert FirstLightest(at, routers, prior, locs, best, i);
  }
}
