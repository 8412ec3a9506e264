/** Retiring l3_bindings rows in stage_arp_scrape of src/main.py, and repointing the links that
    name a retired IP to another IP of the same device first. */
module ArpPurge {
  import opened Common

  type Ip = string
  type Mac = string

  const NO_HARDWARE: Mac := "00:00:00:00:00:00"
  const ARP_CACHE_PURGE_AGE_SECONDS := 3 * 60 * 60

  datatype Source = RouterArpCache | Other

  datatype Binding = Binding(mac: Mac, source: Source, lastSeen: int)

  /** l3_bindings by its primary key. */
  type Bindings = map<Ip, Binding>

  /** An infrastructure_links row; (local, port) is UNIQUE. */
  datatype Link = Link(local: Ip, port: int, remote: Ip)

  predicate Unique(links: seq<Link>) {
    forall i, j :: 0 <= i < j < |links| && links[i].local == links[j].local ==> links[i].port != links[j].port
  }

  // ----- choosing the replacement -----------------------------------------------------

  predicate SameMac(b: Bindings, x: Ip, y: Ip) { x in b && y in b && b[x].mac == b[y].mac }

  /** Another IP of the MAC that no other IP of the MAC beats on last_seen. */
  ghost predicate Freshest(b: Bindings, ip: Ip, other: Ip) {
    SameMac(b, ip, other) && other != ip && forall x :: x != ip && SameMac(b, ip, x) ==>
      b[x].lastSeen <= b[other].lastSeen
  }

  ghost predicate Alone(b: Bindings, ip: Ip) { forall x :: x != ip ==> !SameMac(b, ip, x) }

  // ----- moves ------------------------------------------------------------------------

  /** One repointing: every link end that says `gone` says `heir` from now on. */
  datatype Move = Move(gone: Ip, heir: Ip)

  function Swap(m: Move, x: Ip): Ip { if x == m.gone then m.heir else x }

  function Repointed(links: seq<Link>, m: Move): seq<Link> {
    seq(|links|, i requires 0 <= i < |links| => Link(Swap(m, links[i].local), links[i].port, Swap(m, links[i].remote)))
  }

  /** Where a link end ends up after all the moves. */
  function Final(moves: seq<Move>, x: Ip): Ip {
    if moves == [] then x else Swap(moves[|moves| - 1], Final(moves[..|moves| - 1], x))
  }

  ghost predicate Moved(before: seq<Link>, after: seq<Link>, moves: seq<Move>) {
    |after| == |before| && forall i :: 0 <= i < |before| ==>
      after[i] == Link(Final(moves, before[i].local), before[i].port, Final(moves, before[i].remote))
  }

  ghost predicate DistinctGone(moves: seq<Move>) {
    forall i, j :: 0 <= i < j < |moves| ==> moves[i].gone != moves[j].gone
  }

  /** The moves the repointing loop makes for the retiring IPs: each IP that has a sibling once,
      to a freshest sibling, in any order. */
  ghost predicate MovesFor(b: Bindings, retiring: set<Ip>, moves: seq<Move>) {
    && DistinctGone(moves)
    && (forall i :: 0 <= i < |moves| ==> moves[i].gone in retiring && Freshest(b, moves[i].gone, moves[i].heir))
    && (forall ip :: ip in retiring && ip in b && !Alone(b, ip) ==> HasMove(moves, ip))
  }

  ghost predicate HasMove(moves: seq<Move>, ip: Ip) { exists i :: 0 <= i < |moves| && moves[i].gone == ip }

  /** A name no move takes away stays. */
  lemma {:induction false} FinalStays(moves: seq<Move>, x: Ip)
    requires forall i :: 0 <= i < |moves| ==> moves[i].gone != x
    ensures Final(moves, x) == x
  {
    if moves != [] {
      FinalStays(moves[..|moves| - 1], x);
    }
  }

  lemma {:induction false} FinalSplit(moves: seq<Move>, k: nat, x: Ip)
    requires k <= |moves|
    ensures Final(moves, x) == Final(moves[k..], Final(moves[..k], x))
    decreases |moves|
  {
    if k < |moves| {
      var n := |moves| - 1;
      FinalSplit(moves[..n], k, x);
      assert moves[..n][..k] == moves[..k];
      assert moves[k..][..n - k] == moves[..n][k..] && moves[k..][n - k] == moves[n];
    } else {
      assert moves[..k] == moves && moves[k..] == [];
    }
  }

  /** A name is carried along by its own move and whatever follows it. */
  lemma FinalAt(moves: seq<Move>, k: nat)
    requires k < |moves| && DistinctGone(moves)
    ensures Final(moves, moves[k].gone) == Final(moves[k + 1..], moves[k].heir)
  {
    var x := moves[k].gone;
    FinalSplit(moves, k + 1, x);
    FinalStays(moves[..k], x);
    assert moves[..k + 1][..k] == moves[..k];
  }

  // ----- when a repointed link survives -----------------------------------------------

  /** Every other binding of the device is older. */
  ghost predicate StrictlyFreshest(b: Bindings, top: Ip) {
    top in b && forall x :: x != top && SameMac(b, top, x) ==> b[x].lastSeen < b[top].lastSeen
  }

  /** Following the replacements forward in loop order ends outside `dead`: the replacement of move `k`
      has a later move of its own that does, or has none and is not in `dead` itself. */
  ghost predicate EndsOutside(moves: seq<Move>, dead: set<Ip>, k: nat)
    requires k < |moves|
    decreases |moves| - k
  {
    || (exists t :: k < t < |moves| && moves[t].gone == moves[k].heir && EndsOutside(moves, dead, t))
    || (moves[k].heir !in dead && forall t :: k < t < |moves| ==> moves[t].gone != moves[k].heir)
  }

  /** Exactly when one loop order hands an IP's links to a row that is not deleted, whatever is
      deleted: every repointed IP, or only those the router's cache was the source of. */
  lemma {:induction false} HandedOverIff(moves: seq<Move>, dead: set<Ip>, k: nat)
    requires DistinctGone(moves) && k < |moves|
    ensures Final(moves, moves[k].gone) !in dead <==> EndsOutside(moves, dead, k)
    decreases |moves| - k
  {
    hide Final;
    if t :| k < t < |moves| && moves[t].gone == moves[k].heir {
      LandsNext(moves, k, t);
      HandedOverIff(moves, dead, t);
      OnlyMoveOf(moves, t);
    } else {
      LandsHere(moves, k);
    }
  }

  lemma LandsHere(moves: seq<Move>, k: nat)
    requires DistinctGone(moves) && k < |moves| && forall t :: k < t < |moves| ==> moves[t].gone != moves[k].heir
    ensures Final(moves, moves[k].gone) == moves[k].heir
  {
    hide Final;
    FinalAt(moves, k);
    FinalStays(moves[k + 1..], moves[k].heir);
  }

  lemma LandsNext(moves: seq<Move>, k: nat, t: nat)
    requires DistinctGone(moves) && k < t < |moves| && moves[t].gone == moves[k].heir
    ensures Final(moves, moves[k].gone) == Final(moves, moves[t].gone)
  {
    hide Final;
    var rest := moves[k + 1..];
    FinalAt(moves, k);
    assert rest[t - k - 1] == moves[t] && rest[t - k..] == moves[t + 1..];
    FinalAt(rest, t - k - 1);
    FinalAt(moves, t);
  }

  lemma OnlyMoveOf(moves: seq<Move>, t: nat)
    requires DistinctGone(moves) && t < |moves|
    ensures forall u :: 0 <= u < |moves| && moves[u].gone == moves[t].gone ==> u == t
  {
  }

  /** No repointed IP of the device could be given a replacement that is deleted. */
  ghost predicate NoDeadHeir(b: Bindings, retiring: set<Ip>, dead: set<Ip>, ip: Ip) {
    forall x, h :: x in retiring && SameMac(b, ip, x) && Freshest(b, x, h) ==> h !in dead
  }

  /** In every order of the loop every repointed IP of the device hands its links to a row of the
      device that is not deleted. */
  ghost predicate AlwaysHandsOver(b: Bindings, retiring: set<Ip>, dead: set<Ip>, ip: Ip) {
    forall moves, x :: MovesFor(b, retiring, moves) && x in retiring && SameMac(b, ip, x) ==>
      Final(moves, x) !in dead && SameMac(b, ip, Final(moves, x))
  }

  /** Exactly when the hand-over works in every order, read off the tables before the loop runs, ties in
      last_seen included: for a device with several IPs, when no repointed IP of it has a deleted one
      among its freshest others. */
  lemma AlwaysHandsOverIff(b: Bindings, retiring: set<Ip>, dead: set<Ip>, ip: Ip)
    requires dead <= retiring && !Alone(b, ip)
    ensures AlwaysHandsOver(b, retiring, dead, ip) <==> NoDeadHeir(b, retiring, dead, ip)
  {
    hide Final, MovesFor, Freshest, Alone, SameMac;
    if NoDeadHeir(b, retiring, dead, ip) {
      forall moves, x | MovesFor(b, retiring, moves) && x in retiring && SameMac(b, ip, x)
        ensures Final(moves, x) !in dead && SameMac(b, ip, Final(moves, x))
      {
        HandsOver(b, retiring, dead, moves, ip, x);
      }
    } else {
      var x, h :| x in retiring && SameMac(b, ip, x) && Freshest(b, x, h) && h in dead;
      var moves := LastMoveIs(b, retiring, x, h);
    }
  }

  lemma HandsOver(b: Bindings, retiring: set<Ip>, dead: set<Ip>, moves: seq<Move>, ip: Ip, x: Ip)
    requires NoDeadHeir(b, retiring, dead, ip) && !Alone(b, ip)
    requires MovesFor(b, retiring, moves) && x in retiring && SameMac(b, ip, x)
    ensures Final(moves, x) !in dead && SameMac(b, ip, Final(moves, x))
  {
    hide Final;
    NotAlone(b, ip, x);
    assert HasMove(moves, x);
    var k :| 0 <= k < |moves| && moves[k].gone == x;
    var j := LandsOnHeir(b, moves, k);
    assert SameMac(b, ip, moves[j].gone) && Freshest(b, moves[j].gone, moves[j].heir);
  }

  /** The links of a repointed IP end on the replacement of some move of its device. */
  lemma {:induction false} LandsOnHeir(b: Bindings, moves: seq<Move>, k: nat) returns (j: nat)
    requires DistinctGone(moves) && k < |moves|
    requires forall i :: 0 <= i < |moves| ==> SameMac(b, moves[i].gone, moves[i].heir)
    ensures j < |moves| && Final(moves, moves[k].gone) == moves[j].heir && SameMac(b, moves[k].gone, moves[j].gone)
    decreases |moves| - k
  {
    hide Final;
    if t :| k < t < |moves| && moves[t].gone == moves[k].heir {
      LandsNext(moves, k, t);
      j := LandsOnHeir(b, moves, t);
    } else {
      LandsHere(moves, k);
      j := k;
    }
  }

  lemma NotAlone(b: Bindings, ip: Ip, x: Ip)
    requires SameMac(b, ip, x) && !Alone(b, ip)
    ensures !Alone(b, x)
  {
    var y :| y != ip && SameMac(b, ip, y);
    assert SameMac(b, x, y) && SameMac(b, x, ip);
  }

  lemma {:induction false} SomeOrder(b: Bindings, rows: set<Ip>) returns (moves: seq<Move>)
    requires rows <= b.Keys
    ensures MovesFor(b, rows, moves)
  {
    hide Freshest;
    if rows == {} {
      moves := [];
    } else {
      var x :| x in rows;
      moves := SomeOrder(b, rows - {x});
      assert rows - {x} + {x} == rows;
      if !Alone(b, x) {
        var h := SomeFreshest(b, x);
        OneMoreMove(b, rows - {x}, moves, Move(x, h));
        moves := moves + [Move(x, h)];
      }
    }
  }

  lemma SomeFreshest(b: Bindings, x: Ip) returns (h: Ip)
    requires !Alone(b, x)
    ensures Freshest(b, x, h)
  {
    var others := set y | y in b && y != x && SameMac(b, x, y);
    var y :| y != x && SameMac(b, x, y);
    assert y in others;
    h := FreshestExists(b, others);
    forall z | z != x && SameMac(b, x, z) ensures z in others {
    }
  }

  lemma FreshestBound(b: Bindings, x: Ip, h: Ip)
    requires Freshest(b, x, h)
    ensures x in b && h in b && x != h && !Alone(b, x)
  {
  }

  /** The loop can handle `x` last and choose any of its freshest others. */
  lemma LastMoveIs(b: Bindings, retiring: set<Ip>, x: Ip, h: Ip) returns (moves: seq<Move>)
    requires x in retiring && Freshest(b, x, h)
    ensures MovesFor(b, retiring, moves) && Final(moves, x) == h
  {
    hide Freshest, Alone, HasMove, Final;
    var rows := set ip | ip in retiring && ip in b;
    FreshestBound(b, x, h);
    var others := SomeOrder(b, rows - {x});
    moves := others + [Move(x, h)];
    OneMoreMove(b, rows - {x}, others, Move(x, h));
    assert rows - {x} + {x} == rows;
    MovesForKnown(b, retiring, rows, moves);
    LandsHere(moves, |others|);
  }

  /** For a device whose kept row `top` is fresher than every other repointed one of it: always, if
      `top` is not repointed itself; if it is, exactly when none of its own replacements is deleted. */
  lemma FreshestSurvives(b: Bindings, retiring: set<Ip>, dead: set<Ip>, ip: Ip, top: Ip)
    requires dead <= retiring && !Alone(b, ip) && SameMac(b, ip, top) && top !in dead
    requires forall x :: x in retiring && x != top && SameMac(b, ip, x) ==> b[x].lastSeen < b[top].lastSeen
    ensures AlwaysHandsOver(b, retiring, dead, ip) <==>
      top !in retiring || forall h :: Freshest(b, top, h) ==> h !in dead
  {
    AlwaysHandsOverIff(b, retiring, dead, ip);
    forall x, h | x in retiring && x != top && SameMac(b, ip, x) && Freshest(b, x, h) ensures h !in dead {
      assert SameMac(b, x, top);
    }
  }

  /** The replacement of move `t` has its own move later. */
  ghost predicate MovesOn(moves: seq<Move>, t: nat)
    requires t < |moves|
  {
    exists u :: t < u < |moves| && moves[u].gone == moves[t].heir
  }

  /** In one order, for a device with a strictly freshest IP `top`: all links end on `top`, unless `top`
      is repointed, not before this IP, and its replacement not after it; then they end there. */
  lemma HandedOverWithFreshest(b: Bindings, retiring: set<Ip>, dead: set<Ip>, moves: seq<Move>,
                               ip: Ip, top: Ip, k: nat, t: nat)
    requires MovesFor(b, retiring, moves) && SameMac(b, ip, top) && StrictlyFreshest(b, top)
    requires k < |moves| && moves[k].gone == ip
    requires top in retiring ==> t < |moves| && moves[t].gone == top
    ensures EndsOutside(moves, dead, k) <==>
      if top !in retiring || t < k || MovesOn(moves, t) then top !in dead else moves[t].heir !in dead
  {
    hide EndsOutside, Final;
    HandedOverIff(moves, dead, k);
    if top in retiring {
      OnlyMoveOf(moves, t);
      TopLands(b, retiring, moves, top, t);
    }
    if ip != top {
      assert Freshest(b, ip, moves[k].heir);
      assert moves[k].heir == top;
      if top in retiring && k < t {
        LandsNext(moves, k, t);
      } else {
        LandsHere(moves, k);
      }
    }
  }

  lemma TopLands(b: Bindings, retiring: set<Ip>, moves: seq<Move>, top: Ip, t: nat)
    requires MovesFor(b, retiring, moves) && StrictlyFreshest(b, top) && t < |moves| && moves[t].gone == top
    ensures Final(moves, top) == if MovesOn(moves, t) then top else moves[t].heir
  {
    hide Final;
    if MovesOn(moves, t) {
      var u :| t < u < |moves| && moves[u].gone == moves[t].heir;
      LandsNext(moves, t, u);
      assert Freshest(b, top, moves[u].gone) && Freshest(b, moves[u].gone, moves[u].heir);
      assert SameMac(b, moves[u].gone, top);
      OnlyMoveOf(moves, t);
      LandsHere(moves, u);
    } else {
      LandsHere(moves, t);
    }
  }

  // ----- collisions -------------------------------------------------------------------

  /** A link of each IP on one port. */
  ghost predicate SharePort(links: seq<Link>, x: Ip, y: Ip) {
    exists i, j :: 0 <= i < |links| && 0 <= j < |links| && links[i].local == x && links[j].local == y
      && links[i].port == links[j].port
  }

  /** Exactly when one repointing meets a taken (switch, port) key: when the two IPs have links on
      one port. */
  lemma RepointingCollidesIff(links: seq<Link>, m: Move)
    requires Unique(links) && m.gone != m.heir
    ensures Unique(Repointed(links, m)) <==> !SharePort(links, m.gone, m.heir)
  {
    var after := Repointed(links, m);
    if SharePort(links, m.gone, m.heir) {
      var i, j :| 0 <= i < |links| && 0 <= j < |links| && links[i].local == m.gone && links[j].local == m.heir
                  && links[i].port == links[j].port;
      assert after[i].local == after[j].local && after[i].port == after[j].port && i != j;
    } else {
      forall i, j | 0 <= i < j < |after| && after[i].local == after[j].local ensures after[i].port != after[j].port {
        assert links[i].local == links[j].local || (links[i].local == m.gone && links[j].local == m.heir)
               || (links[j].local == m.gone && links[i].local == m.heir);
      }
    }
  }

  /** No port number is used by links of two IPs of the same device: then repointing a local end
      to another IP of its device never meets a taken key. */
  ghost predicate PortsApart(b: Bindings, links: seq<Link>) {
    forall i, j :: 0 <= i < j < |links| && SameMac(b, links[i].local, links[j].local) ==> links[i].port != links[j].port
  }

  lemma RepointingKeepsApart(b: Bindings, links: seq<Link>, m: Move)
    requires PortsApart(b, links) && Unique(links) && SameMac(b, m.gone, m.heir)
    ensures PortsApart(b, Repointed(links, m)) && Unique(Repointed(links, m))
  {
    var after := Repointed(links, m);
    forall i, j | 0 <= i < j < |links|
      && (after[i].local == after[j].local || SameMac(b, after[i].local, after[j].local))
      ensures after[i].port != after[j].port
    {
      assert links[i].local == links[j].local || SameMac(b, links[i].local, links[j].local);
    }
  }

  /** Some link of a repointed IP and one of its chosen replacement stand on one port. */
  ghost predicate Collided(b: Bindings, retiring: set<Ip>, links: seq<Link>) {
    exists x, h :: x in retiring && Freshest(b, x, h) && SharePort(links, x, h)
  }

  lemma CollidedAmong(b: Bindings, some: set<Ip>, all: set<Ip>, links: seq<Link>)
    requires Collided(b, some, links) && some <= all
    ensures Collided(b, all, links)
  {
  }

  lemma FewerStayApart(b: Bindings, c: Bindings, links: seq<Link>)
    requires PortsApart(b, links) && forall ip :: ip in c ==> ip in b && c[ip] == b[ip]
    ensures PortsApart(c, links)
  {
  }

  lemma MovedOnce(before: seq<Link>, mid: seq<Link>, moves: seq<Move>, m: Move)
    requires Moved(before, mid, moves)
    ensures Moved(before, Repointed(mid, m), moves + [m])
  {
    assert (moves + [m])[..|moves|] == moves;
  }

  lemma NoMoves(b: Bindings, links: seq<Link>)
    ensures Moved(links, links, []) && MovesFor(b, {}, [])
  {
  }

  lemma MovesForKnown(b: Bindings, retiring: set<Ip>, rows: set<Ip>, moves: seq<Move>)
    requires rows == set ip | ip in retiring && ip in b
    ensures MovesFor(b, rows, moves) ==> MovesFor(b, retiring, moves)
  {
  }

  // ----- the two tables and the statements that change them ---------------------------

  class Topology {
    var bindings: Bindings
    var links: seq<Link>

    /** SELECT ip_address ... WHERE mac_address = ? AND ip_address != ? ORDER BY last_seen DESC LIMIT 1 */
    method Replacement(ip: Ip) returns (best: Option<Ip>)
      requires ip in bindings
      ensures best.Some? ==> Freshest(bindings, ip, best.value)
      ensures best.None? ==> Alone(bindings, ip)
    {
      best := None;
      var all := set x | x in bindings && x != ip && bindings[x].mac == bindings[ip].mac;
      var todo := all;
      while todo != {}
        invariant todo <= all
        invariant best.None? ==> todo == all
        invariant best.Some? ==> best.value in all && forall x :: x in all - todo ==>
          bindings[x].lastSeen <= bindings[best.value].lastSeen
        decreases todo
      {
        var x :| x in todo;
        if best.None? || bindings[x].lastSeen > bindings[best.value].lastSeen {
          best := Some(x);
        }
        todo := todo - {x};
      }
      forall x | x != ip && SameMac(bindings, ip, x) ensures x in all {
      }
    }

    /** One turn of the repointing loop. */
    method RepointOne(ip: Ip, ghost before: seq<Link>, ghost done: set<Ip>, ghost moves0: seq<Move>)
      returns (ok: bool, ghost moves: seq<Move>)
      requires ip in bindings && ip !in done && Unique(links) && Moved(before, links, moves0)
      requires MovesFor(bindings, done, moves0)
      modifies this`links
      ensures ok ==> Unique(links) && Moved(before, links, moves) && MovesFor(bindings, done + {ip}, moves)
      ensures PortsApart(bindings, old(links)) ==> ok && PortsApart(bindings, links)
      ensures !ok ==> Collided(bindings, done + {ip}, links)
    {
      moves := moves0;
      var best := Replacement(ip);
      if best.Some? {
        var m := Move(ip, best.value);
        var after := Repointed(links, m);
        MovedOnce(before, links, moves, m);
        OneMoreMove(bindings, done, moves, m);
        if PortsApart(bindings, links) {
          RepointingKeepsApart(bindings, links, m);
        }
        if !UniqueHolds(after) {
          RepointingCollidesIff(links, m);
          return false, moves;
        }
        links, moves := after, moves + [m];
      }
      return true, moves;
    }

    /** _repoint_infrastructure_links_before_purge. Returns false on the UNIQUE violation that
        aborts the stage; `moves` is the order in which the loop handled the retiring rows. */
    method RepointBeforePurge(retiring: set<Ip>) returns (ok: bool, ghost moves: seq<Move>)
      requires Unique(links)
      modifies this`links
      ensures ok ==> Unique(links) && Moved(old(links), links, moves) && MovesFor(bindings, retiring, moves)
      ensures PortsApart(bindings, old(links)) ==> ok && PortsApart(bindings, links)
      ensures !ok ==> Collided(bindings, retiring, links)
    {
      hide Unique, Moved, MovesFor, PortsApart, Collided;
      moves, ok := [], true;
      var rows := set ip | ip in retiring && ip in bindings;
      var todo := rows;
      NoMoves(bindings, links);
      assert rows - todo == {};
      while todo != {} && ok
        invariant todo <= rows
        invariant ok ==> Unique(links) && Moved(old(links), links, moves) && MovesFor(bindings, rows - todo, moves)
        invariant PortsApart(bindings, old(links)) ==> ok && PortsApart(bindings, links)
        invariant !ok ==> Collided(bindings, rows - todo, links)
        decreases |todo|, ok
      {
        var ip :| ip in todo;
        ok, moves := RepointOne(ip, old(links), rows - todo, moves);
        assert rows - (todo - {ip}) == (rows - todo) + {ip};
        todo := todo - {ip};
      }
      assert rows - todo == rows || !ok;
      MovesForKnown(bindings, retiring, rows, moves);
      if !ok {
        CollidedAmong(bindings, rows - todo, retiring, links);
      }
    }

    /** DELETE FROM l3_bindings WHERE discovery_source = 'ROUTER_ARP_CACHE' AND last_seen <= cutoff,
        with the repointing before it. */
    method PurgeAged(now: int) returns (ok: bool, ghost moves: seq<Move>)
      requires Unique(links)
      modifies this
      ensures PortsApart(old(bindings), old(links)) ==> ok
      ensures !ok ==> bindings == old(bindings) && Collided(bindings, AgedOut(bindings, now), links)
      ensures ok ==> Unique(links) && bindings == Unaged(old(bindings), now)
                     && Moved(old(links), links, moves) && MovesFor(old(bindings), AgedOut(old(bindings), now), moves)
      ensures ok ==> LinksSafe(old(bindings), now, old(links), links)
    {
      ghost var before := links;
      var aging := AgedOut(bindings, now);
      ok, moves := RepointBeforePurge(aging);
      if ok {
        AllLinksSafe(bindings, now, before, links, moves);
        bindings := bindings - aging;
      }
    }

    /** ARP-2: rows the router itself flagged, minus the ones it confirmed this cycle. Links are
        repointed for every flagged IP, rows deleted only if the router's cache was their source: so a
        link may be led from a row that stays to one that goes. */
    method RetireFlagged(flagged: set<Ip>) returns (ok: bool, ghost moves: seq<Move>)
      requires Unique(links)
      modifies this
      ensures PortsApart(old(bindings), old(links)) ==> ok && PortsApart(bindings, links)
      ensures !ok ==> bindings == old(bindings) && Collided(bindings, flagged, links)
      ensures ok ==> Unique(links) && Moved(old(links), links, moves) && MovesFor(old(bindings), flagged, moves)
      ensures ok ==> bindings == old(bindings) - Retired(old(bindings), flagged)
      ensures ok ==> LinksRetired(old(bindings), flagged, old(links), links)
    {
      ghost var before := links;
      ok, moves := RepointBeforePurge(flagged);
      if ok {
        AllLinksRetired(bindings, flagged, before, links, moves);
        ghost var all := bindings;
        bindings := bindings - Retired(bindings, flagged);
        if PortsApart(all, links) {
          FewerStayApart(all, bindings, links);
        }
      }
    }

    /** The upserts of one cycle, in whatever order the dict yields them. */
    method Ingest(accepted: map<Mac, Ip>, now: int)
      modifies this`bindings
      ensures Ingested(old(bindings), bindings, accepted, accepted.Keys, now)
    {
      var todo := accepted.Keys;
      while todo != {}
        invariant todo <= accepted.Keys
        invariant Ingested(old(bindings), bindings, accepted, accepted.Keys - todo, now)
        decreases todo
      {
        var m :| m in todo;
        todo := todo - {m};
        if m == NO_HARDWARE {
          continue;
        }
        bindings := bindings[accepted[m] := Binding(m, RouterArpCache, now)];
      }
    }

    /** The database half of stage_arp_scrape: ingest, retire what the router flagged, purge what
        aged out. What was confirmed this cycle survives it, no aged row does, nothing is ever bound
        to the all-zero MAC, and of every link end it says where both retirements leave it. */
    method StageArpScrape(valid: map<Mac, Ip>, flagged: set<Ip>, subnetsKnown: bool, inSubnet: Ip -> bool, now: int)
      returns (ok: bool, ghost ingested: Bindings)
      requires Unique(links)
      modifies this
      ensures ok ==> Unique(links)
      ensures PortsApart(ingested, old(links)) ==> ok
      ensures ok ==> forall m :: m in Accepted(valid, subnetsKnown, inSubnet) && m != NO_HARDWARE ==>
        valid[m] in bindings && Confirmed(bindings, Accepted(valid, subnetsKnown, inSubnet), valid[m], now)
      ensures ok ==> AgedOut(bindings, now) == {}
      ensures ok ==> forall ip :: ip in bindings && bindings[ip].mac == NO_HARDWARE ==>
        ip in old(bindings) && old(bindings)[ip].mac == NO_HARDWARE
      ensures ok ==> forall m :: m in valid && m != NO_HARDWARE && (subnetsKnown ==> inSubnet(valid[m])) ==>
        valid[m] in bindings && Reported(valid, valid[m], bindings[valid[m]], now)
      ensures ok ==> forall ip :: ip in bindings && (ip !in old(bindings) || bindings[ip] != old(bindings)[ip]) ==>
        (subnetsKnown ==> inSubnet(ip)) && Reported(valid, ip, bindings[ip], now)
      ensures ok ==> forall ip :: ip in old(bindings) ==>
        (ip !in bindings <==> Removed(valid, flagged, subnetsKnown, inSubnet, ip, old(bindings)[ip], now))
      ensures var accepted := Accepted(valid, subnetsKnown, inSubnet);
              Ingested(old(bindings), ingested, accepted, accepted.Keys, now)
      ensures ok ==> var stale := StaleIps(valid, flagged, subnetsKnown, inSubnet);
                     && bindings == Unaged(ingested - Retired(ingested, stale), now)
                     && LinksStaged(ingested, stale, now, old(links), links)
    {
      hide Unique, Moved, MovesFor, LinksRetired, LinksSafe, LinksStaged, Reported, Removed, PortsApart, Collided;
      ghost var rows := bindings;
      var accepted := Accepted(valid, subnetsKnown, inSubnet);
      Ingest(accepted, now);
      ingested := bindings;
      var stale := StaleIps(valid, flagged, subnetsKnown, inSubnet);
      ghost var before, moves := links, [];
      ok := true;
      if stale != {} {
        ok, moves := RetireFlagged(stale);
      } else {
        NothingRetired(bindings, links);
      }
      if ok {
        ghost var mid := links;
        ok, moves := PurgeAged(now);
        if ok {
          AllLinksStaged(ingested, stale, now, before, mid, links);
          StagedRows(rows, ingested, bindings, valid, flagged, subnetsKnown, inSubnet, now);
        }
      }
    }
  }

  /** The row of a binding the router reported this cycle. */
  predicate Reported(valid: map<Mac, Ip>, ip: Ip, row: Binding, now: int) {
    && row.source == RouterArpCache && row.lastSeen == now
    && row.mac in valid && valid[row.mac] == ip && row.mac != "00:00:00:00:00:00"
  }

  /** The router reported hardware at the address. */
  ghost predicate HasReport(valid: map<Mac, Ip>, ip: Ip) {
    exists m :: m in valid && valid[m] == ip && m != "00:00:00:00:00:00"
  }

  /** The stage removes a row the router was the source of, if the router reports no hardware at its address
      on a known subnet now, and it is 3 hours old or the router flagged the address on a known
      subnet and lists it for no MAC at all. */
  ghost predicate Removed(valid: map<Mac, Ip>, flagged: set<Ip>, subnetsKnown: bool, inSubnet: Ip -> bool,
                          ip: Ip, row: Binding, now: int)
  {
    && row.source == RouterArpCache
    && !(HasReport(valid, ip) && (subnetsKnown ==> inSubnet(ip)))
    && (row.lastSeen <= now - 3 * 60 * 60
        || (ip in flagged && subnetsKnown && inSubnet(ip) && forall m :: m in valid ==> valid[m] != ip))
  }

  lemma StaleMeans(valid: map<Mac, Ip>, flagged: set<Ip>, subnetsKnown: bool, inSubnet: Ip -> bool, ip: Ip)
    ensures ip in StaleIps(valid, flagged, subnetsKnown, inSubnet) <==>
      ip in flagged && subnetsKnown && inSubnet(ip) && forall m :: m in valid ==> valid[m] != ip
  {
    var accepted := Accepted(valid, subnetsKnown, inSubnet);
    if m :| m in valid && valid[m] == ip && inSubnet(ip) {
      assert m in accepted && accepted[m] == ip;
      assert ip in accepted.Values;
    }
    if ip in accepted.Values {
      var m :| m in accepted && accepted[m] == ip;
      assert m in valid && valid[m] == ip;
    }
  }

  lemma StagedRows(before: Bindings, ingested: Bindings, after: Bindings, valid: map<Mac, Ip>, flagged: set<Ip>,
                   subnetsKnown: bool, inSubnet: Ip -> bool, now: int)
    requires var accepted := Accepted(valid, subnetsKnown, inSubnet);
             && Ingested(before, ingested, accepted, accepted.Keys, now)
             && after == Unaged(ingested - Retired(ingested, StaleIps(valid, flagged, subnetsKnown, inSubnet)), now)
    ensures forall m :: m in valid && m != NO_HARDWARE && (subnetsKnown ==> inSubnet(valid[m])) ==>
      valid[m] in after && Reported(valid, valid[m], after[valid[m]], now)
    ensures forall ip :: ip in after && (ip !in before || after[ip] != before[ip]) ==>
      (subnetsKnown ==> inSubnet(ip)) && Reported(valid, ip, after[ip], now)
    ensures forall ip :: ip in before ==>
      (ip !in after <==> Removed(valid, flagged, subnetsKnown, inSubnet, ip, before[ip], now))
  {
    var accepted := Accepted(valid, subnetsKnown, inSubnet);
    forall m | m in valid && m != NO_HARDWARE && (subnetsKnown ==> inSubnet(valid[m]))
      ensures valid[m] in after && Reported(valid, valid[m], after[valid[m]], now)
    {
      assert m in accepted && accepted[m] == valid[m];
      assert Confirmed(ingested, accepted, valid[m], now);
    }
    forall ip | ip in before
      ensures ip !in after <==> Removed(valid, flagged, subnetsKnown, inSubnet, ip, before[ip], now)
    {
      if HasReport(valid, ip) && (subnetsKnown ==> inSubnet(ip)) {
        var m :| m in valid && valid[m] == ip && m != NO_HARDWARE;
        assert ip in after;
      } else {
        assert ingested[ip] == before[ip];
        StaleMeans(valid, flagged, subnetsKnown, inSubnet, ip);
      }
    }
  }

  /** global_arp_data after the NET-2 filter */
  function Accepted(valid: map<Mac, Ip>, subnetsKnown: bool, inSubnet: Ip -> bool): map<Mac, Ip> {
    if subnetsKnown then map m | m in valid && inSubnet(valid[m]) :: valid[m] else valid
  }

  /** immediately_stale_ips: what the router flagged on a known subnet and did not confirm elsewhere. */
  function StaleIps(valid: map<Mac, Ip>, flagged: set<Ip>, subnetsKnown: bool, inSubnet: Ip -> bool): set<Ip> {
    if subnetsKnown then (set ip | ip in flagged && inSubnet(ip)) - Accepted(valid, subnetsKnown, inSubnet).Values
    else {}
  }

  /** After the upserts for the MACs `done`: every new or changed row is a confirmed one, no row is
      lost, and each of these MACs' IPs has a confirmed row. */
  ghost predicate Ingested(before: Bindings, after: Bindings, accepted: map<Mac, Ip>, done: set<Mac>, now: int) {
    && (forall ip :: ip in after && (ip !in before || after[ip] != before[ip]) ==> Confirmed(after, accepted, ip, now))
    && (forall ip :: ip in before ==> ip in after)
    && (forall m :: m in done && m in accepted && m != NO_HARDWARE ==>
          accepted[m] in after && Confirmed(after, accepted, accepted[m], now))
  }

  /** The row was written this cycle for one of the MACs the router reported at this IP. */
  predicate Confirmed(b: Bindings, accepted: map<Mac, Ip>, ip: Ip, now: int)
    requires ip in b
  {
    && b[ip].source == RouterArpCache && b[ip].lastSeen == now
    && b[ip].mac in accepted && accepted[b[ip].mac] == ip && b[ip].mac != NO_HARDWARE
  }

  predicate UniqueHolds(links: seq<Link>)
    ensures UniqueHolds(links) <==> Unique(links)
  {
    forall i :: 0 <= i < |links| ==> forall j :: i < j < |links| && links[i].local == links[j].local ==>
      links[i].port != links[j].port
  }

  lemma OneMoreMove(b: Bindings, retiring: set<Ip>, moves: seq<Move>, m: Move)
    requires MovesFor(b, retiring, moves) && m.gone !in retiring && Freshest(b, m.gone, m.heir)
    ensures MovesFor(b, retiring + {m.gone}, moves + [m])
  {
    var after := moves + [m];
    forall ip | ip in retiring + {m.gone} && ip in b && !Alone(b, ip) ensures HasMove(after, ip) {
      if ip == m.gone {
        assert after[|moves|].gone == ip;
      } else {
        assert HasMove(moves, ip);
        var i :| 0 <= i < |moves| && moves[i].gone == ip;
        assert after[i].gone == ip;
      }
    }
  }

  // ----- what the age purge guarantees ------------------------------------------------

  /** A binding the router's ARP cache was the source of. */
  predicate FromRouter(b: Bindings, ip: Ip) { ip in b && b[ip].source == RouterArpCache }

  /** The rows the flagged retirement deletes. */
  function Retired(b: Bindings, flagged: set<Ip>): set<Ip> { set ip | ip in flagged && FromRouter(b, ip) }

  /** One link end before and after the flagged retirement: it stays on its device, stays where it is
      if it was not flagged, and where no possible replacement is deleted it names a row that stays. */
  ghost predicate EndRetired(b: Bindings, flagged: set<Ip>, was: Ip, here: Ip) {
    && (here == was || SameMac(b, was, here))
    && (was !in flagged || Alone(b, was) ==> here == was)
    && (was in flagged && !Alone(b, was) && NoDeadHeir(b, flagged, Retired(b, flagged), was) ==>
          here in b - Retired(b, flagged) && SameMac(b, was, here))
  }

  ghost predicate LinksRetired(b: Bindings, flagged: set<Ip>, before: seq<Link>, after: seq<Link>) {
    |after| == |before| && forall i :: 0 <= i < |after| ==>
      after[i].port == before[i].port && EndRetired(b, flagged, before[i].local, after[i].local)
        && EndRetired(b, flagged, before[i].remote, after[i].remote)
  }

  lemma EachEndRetired(b: Bindings, flagged: set<Ip>, moves: seq<Move>, was: Ip)
    requires MovesFor(b, flagged, moves)
    ensures EndRetired(b, flagged, was, Final(moves, was))
  {
    hide Final, HasMove;
    FinalSameMac(b, moves, was);
    if was !in flagged || Alone(b, was) {
      FinalStays(moves, was);
    } else if NoDeadHeir(b, flagged, Retired(b, flagged), was) {
      assert SameMac(b, was, was);
      HandsOver(b, flagged, Retired(b, flagged), moves, was, was);
    }
  }

  lemma AllLinksRetired(b: Bindings, flagged: set<Ip>, before: seq<Link>, after: seq<Link>, moves: seq<Move>)
    requires MovesFor(b, flagged, moves) && Moved(before, after, moves)
    ensures LinksRetired(b, flagged, before, after)
  {
    forall x ensures EndRetired(b, flagged, x, Final(moves, x)) {
      EachEndRetired(b, flagged, moves, x);
    }
  }

  lemma NothingRetired(b: Bindings, links: seq<Link>)
    ensures LinksRetired(b, {}, links, links) && b - Retired(b, {}) == b
  {
  }

  predicate Aged(b: Binding, now: int) { b.source == RouterArpCache && b.lastSeen <= now - ARP_CACHE_PURGE_AGE_SECONDS }

  function AgedOut(b: Bindings, now: int): set<Ip> { set ip | ip in b && Aged(b[ip], now) }

  function Unaged(b: Bindings, now: int): Bindings { b - AgedOut(b, now) }

  /** The device keeps a binding newer than the cutoff. */
  ghost predicate KeepsNewer(b: Bindings, ip: Ip, now: int) {
    exists x :: SameMac(b, ip, x) && b[x].lastSeen > now - ARP_CACHE_PURGE_AGE_SECONDS
  }

  lemma {:induction false} FreshestExists(b: Bindings, among: set<Ip>) returns (top: Ip)
    requires among != {} && forall x :: x in among ==> x in b
    ensures top in among && forall x :: x in among ==> b[x].lastSeen <= b[top].lastSeen
  {
    top :| top in among;
    assert forall x :: x in among ==> x == top || x in among - {top};
    if among - {top} != {} {
      var t := FreshestExists(b, among - {top});
      top := if b[t].lastSeen > b[top].lastSeen then t else top;
    }
  }

  /** Link safety of the age purge: a link end that named a retired IP whose device keeps a newer
      binding names a surviving IP of that device afterwards; any other end that named a surviving
      IP is unchanged. So no link end names a retired IP of such a device. */
  lemma AgePurgeLinkSafety(b: Bindings, now: int, moves: seq<Move>, x: Ip)
    requires MovesFor(b, AgedOut(b, now), moves)
    ensures x in AgedOut(b, now) && KeepsNewer(b, x, now) ==>
      Final(moves, x) in Unaged(b, now) && SameMac(b, x, Final(moves, x))
    ensures x !in AgedOut(b, now) ==> Final(moves, x) == x
    ensures Final(moves, x) == x || SameMac(b, x, Final(moves, x))
    ensures Final(moves, x) in AgedOut(b, now) ==> !KeepsNewer(b, Final(moves, x), now)
  {
    var gone := AgedOut(b, now);
    if x in gone && KeepsNewer(b, x, now) {
      var all := set y | y in b && SameMac(b, x, y);
      assert x in all;
      var top := FreshestExists(b, all);
      var newer :| SameMac(b, x, newer) && b[newer].lastSeen > now - ARP_CACHE_PURGE_AGE_SECONDS;
      assert newer in all;
      assert newer != x;
      FreshestSurvives(b, gone, gone, x, top);
      assert SameMac(b, x, x);
    }
    if x !in gone {
      FinalStays(moves, x);
    }
    FinalSameMac(b, moves, x);
  }

  /** One link end before and after the age purge. */
  ghost predicate EndSafe(b: Bindings, now: int, was: Ip, here: Ip) {
    && (here == was || SameMac(b, was, here))
    && (was in AgedOut(b, now) && KeepsNewer(b, was, now) ==> here in Unaged(b, now) && SameMac(b, was, here))
    && (was !in AgedOut(b, now) ==> here == was)
    && (here in AgedOut(b, now) ==> !KeepsNewer(b, here, now))
  }

  ghost predicate LinksSafe(b: Bindings, now: int, before: seq<Link>, after: seq<Link>) {
    |after| == |before| && forall i :: 0 <= i < |after| ==>
      after[i].port == before[i].port && EndSafe(b, now, before[i].local, after[i].local)
        && EndSafe(b, now, before[i].remote, after[i].remote)
  }

  lemma AllLinksSafe(b: Bindings, now: int, before: seq<Link>, after: seq<Link>, moves: seq<Move>)
    requires MovesFor(b, AgedOut(b, now), moves) && Moved(before, after, moves)
    ensures LinksSafe(b, now, before, after)
  {
    forall x ensures EndSafe(b, now, x, Final(moves, x)) {
      AgePurgeLinkSafety(b, now, moves, x);
    }
  }

  // ----- both retirements of one cycle ------------------------------------------------

  /** The device has a row that both retirements keep for its own sake. */
  ghost predicate KeepsCurrent(b: Bindings, stale: set<Ip>, ip: Ip, now: int) {
    exists x :: SameMac(b, ip, x) && x !in Retired(b, stale) && b[x].lastSeen > now - ARP_CACHE_PURGE_AGE_SECONDS
  }

  /** One link end before and after both: it stays on its device, does not move unless its row is
      flagged or aged, and names a row left in the table if the device keeps a current one and no
      possible replacement in the first retirement is deleted by it. */
  ghost predicate EndStaged(b: Bindings, stale: set<Ip>, now: int, was: Ip, here: Ip) {
    && (here == was || SameMac(b, was, here))
    && (was !in stale && was !in AgedOut(b, now) ==> here == was)
    && (KeepsCurrent(b, stale, was, now) && (was in stale ==> NoDeadHeir(b, stale, Retired(b, stale), was)) ==>
          here in Unaged(b - Retired(b, stale), now) && SameMac(b, was, here))
  }

  ghost predicate LinksStaged(b: Bindings, stale: set<Ip>, now: int, before: seq<Link>, after: seq<Link>) {
    |after| == |before| && forall i :: 0 <= i < |after| ==>
      after[i].port == before[i].port && EndStaged(b, stale, now, before[i].local, after[i].local)
        && EndStaged(b, stale, now, before[i].remote, after[i].remote)
  }

  lemma EachEndStaged(b: Bindings, stale: set<Ip>, now: int, was: Ip, mid: Ip, here: Ip)
    requires EndRetired(b, stale, was, mid) && EndSafe(b - Retired(b, stale), now, mid, here)
    ensures EndStaged(b, stale, now, was, here)
  {
    hide NoDeadHeir;
    var left := b - Retired(b, stale);
    if KeepsCurrent(b, stale, was, now) && (was in stale ==> NoDeadHeir(b, stale, Retired(b, stale), was)) {
      var x :| SameMac(b, was, x) && x !in Retired(b, stale) && b[x].lastSeen > now - ARP_CACHE_PURGE_AGE_SECONDS;
      assert was in stale && Alone(b, was) ==> x == was;
      assert mid in left;
      assert SameMac(left, mid, x);
      assert KeepsNewer(left, mid, now);
    }
  }

  lemma AllLinksStaged(b: Bindings, stale: set<Ip>, now: int, before: seq<Link>, mid: seq<Link>, after: seq<Link>)
    requires LinksRetired(b, stale, before, mid) && LinksSafe(b - Retired(b, stale), now, mid, after)
    ensures LinksStaged(b, stale, now, before, after)
  {
    hide EndRetired, EndSafe, EndStaged;
    forall i | 0 <= i < |after|
      ensures EndStaged(b, stale, now, before[i].local, after[i].local)
      ensures EndStaged(b, stale, now, before[i].remote, after[i].remote)
    {
      EachEndStaged(b, stale, now, before[i].local, mid[i].local, after[i].local);
      EachEndStaged(b, stale, now, before[i].remote, mid[i].remote, after[i].remote);
    }
  }

  /** A device the router confirmed in this cycle loses no link end to either retirement, if no row
      the router flagged was learned in this very second: both conditions of EndStaged hold for it. */
  lemma ConfirmedDeviceKeepsLinks(before: Bindings, b: Bindings, accepted: map<Mac, Ip>, stale: set<Ip>, now: int,
                                  was: Ip, c: Ip)
    requires Ingested(before, b, accepted, accepted.Keys, now) && stale !! accepted.Values
    requires SameMac(b, was, c) && Confirmed(b, accepted, c, now)
    requires forall x :: x in stale && FromRouter(before, x) ==> before[x].lastSeen < now
    ensures KeepsCurrent(b, stale, was, now) && NoDeadHeir(b, stale, Retired(b, stale), was)
  {
    assert c in accepted.Values;
    assert c !in stale;
    forall r | r in Retired(b, stale) ensures b[r].lastSeen < now {
      assert r !in accepted.Values;
      assert r in before && b[r] == before[r];
    }
    forall x, h | x in stale && SameMac(b, was, x) && Freshest(b, x, h) ensures h !in Retired(b, stale) {
      assert SameMac(b, x, c);
    }
  }

  lemma {:induction false} FinalSameMac(b: Bindings, moves: seq<Move>, x: Ip)
    requires forall i :: 0 <= i < |moves| ==> SameMac(b, moves[i].gone, moves[i].heir)
    ensures Final(moves, x) == x || SameMac(b, x, Final(moves, x))
  {
    if moves != [] {
      FinalSameMac(b, moves[..|moves| - 1], x);
    }
  }

  /** Without a newer binding the handover can fail although the device survives: its freshest IP
      and another one are retired together, and the survivor was learned from another source. */
  lemma RetiredTogetherLoseTheLink()
    ensures var b := map["a" := Binding("m", RouterArpCache, 3), "b" := Binding("m", RouterArpCache, 2),
      "c" := Binding("m", Other, 1)];
            var moves := [Move("a", "b"), Move("b", "a")];
            MovesFor(b, {"a", "b"}, moves) && Final(moves, "b") == "a" && Final(moves, "a") == "a" && "c" !in {"a", "b"}
  {
    var b := map["a" := Binding("m", RouterArpCache, 3), "b" := Binding("m", RouterArpCache, 2),
      "c" := Binding("m", Other, 1)];
    var moves := [Move("a", "b"), Move("b", "a")];
    assert moves[..1] == [Move("a", "b")];
    assert Final(moves[..1][..0], "a") == "a";
    assert Final(moves[..1], "a") == "b" && Final(moves[..1], "b") == "b";
    assert moves[0].gone == "a" && moves[1].gone == "b";
    assert HasMove(moves, "a") && HasMove(moves, "b");
  }

  /** The flagged retirement can lose the links of a device whose freshest row survives it: the row
      stays, since a local sweep was its source, but is flagged too and repointed last, to the row
      that goes. In the other order both links end on it. */
  lemma FlaggedButKeptLosesTheLinks()
    ensures var b := map["a" := Binding("m", RouterArpCache, 2), "c" := Binding("m", Other, 3)];
            var last, first := [Move("a", "c"), Move("c", "a")], [Move("c", "a"), Move("a", "c")];
            && StrictlyFreshest(b, "c") && Retired(b, {"a", "c"}) == {"a"}
            && MovesFor(b, {"a", "c"}, last) && Final(last, "a") == "a" && Final(last, "c") == "a"
            && MovesFor(b, {"a", "c"}, first) && Final(first, "a") == "c" && Final(first, "c") == "c"
  {
    var b := map["a" := Binding("m", RouterArpCache, 2), "c" := Binding("m", Other, 3)];
    TwoMoves(b, "a", "c");
    TwoMoves(b, "c", "a");
  }

  lemma TwoMoves(b: Bindings, x: Ip, y: Ip)
    requires x != y && b.Keys == {x, y} && b[x].mac == b[y].mac
    ensures var moves := [Move(x, y), Move(y, x)];
            MovesFor(b, {x, y}, moves) && Final(moves, x) == x && Final(moves, y) == x
  {
    var moves := [Move(x, y), Move(y, x)];
    assert moves[0].gone == x && moves[1].gone == y;
    assert HasMove(moves, x) && HasMove(moves, y);
    LandsNext(moves, 0, 1);
    LandsHere(moves, 1);
  }
}
