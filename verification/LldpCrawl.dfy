/** The layered crawl of run_lldp_scraper in src/pollers/lldp_scraper.py: node deduplication, the
    cap on discovered targets, and what the crawl has visited when it stops. */
module LldpCrawl {
  import opened Common

  type Ip = string
  type NodeId = int

  const MAX_DISCOVERED_TARGETS_PER_CRAWL := 500
  const MAX_LAYERS := 10

  /** What the network and the database answer during one crawl. `nodeOf` may change from layer to
      layer, since the database keeps being written while the crawl runs. */
  datatype World = World(
    nodeOf: (nat, Ip) -> Option<NodeId>,
    qualified: set<Ip>,
    neighbours: Ip -> set<Ip>)

  /** One LLDP poll that was made, in which layer and for which resolved node. */
  datatype Poll = Poll(ip: Ip, layer: nat, node: Option<NodeId>)

  // ----- reachability -----------------------------------------------------------------

  /** Step `i` of the trail leaves a polled, qualified switch for one of its neighbours. */
  ghost predicate Hop(w: World, polled: set<Ip>, p: seq<Ip>, i: int)
    requires 0 < i < |p|
  {
    p[i - 1] in polled && p[i - 1] in w.qualified && p[i] in w.neighbours(p[i - 1])
  }

  /** `p` leads from an initial target to its last element over polled, qualified switches. */
  ghost predicate Trail(w: World, initial: set<Ip>, polled: set<Ip>, p: seq<Ip>) {
    p != [] && p[0] in initial && forall i :: 0 < i < |p| ==> Hop(w, polled, p, i)
  }

  ghost predicate Found(w: World, initial: set<Ip>, polled: set<Ip>, ip: Ip) {
    exists p :: Trail(w, initial, polled, p) && p[|p| - 1] == ip
  }

  ghost predicate AllFound(w: World, initial: set<Ip>, polled: set<Ip>, seen: set<Ip>) {
    forall ip {:trigger Found(w, initial, polled, ip)} :: ip in seen ==> Found(w, initial, polled, ip)
  }

  lemma FoundStart(w: World, initial: set<Ip>, polled: set<Ip>)
    ensures AllFound(w, initial, polled, initial)
  {
    forall ip | ip in initial ensures Found(w, initial, polled, ip) {
      assert Trail(w, initial, polled, [ip]);
    }
  }

  lemma FoundNext(w: World, initial: set<Ip>, polled: set<Ip>, seen: set<Ip>, from: Ip)
    requires AllFound(w, initial, polled, seen) && from in seen && from in polled && from in w.qualified
    ensures AllFound(w, initial, polled, seen + w.neighbours(from))
  {
    assert Found(w, initial, polled, from);
    var p :| Trail(w, initial, polled, p) && p[|p| - 1] == from;
    forall ip | ip in w.neighbours(from) ensures Found(w, initial, polled, ip) {
      var q := p + [ip];
      forall i | 0 < i < |q| ensures Hop(w, polled, q, i) {
        if i < |p| {
          assert Hop(w, polled, p, i);
        }
      }
      assert Trail(w, initial, polled, q) && q[|q| - 1] == ip;
    }
  }

  lemma FoundMore(w: World, initial: set<Ip>, polled: set<Ip>, more: set<Ip>, seen: set<Ip>)
    requires AllFound(w, initial, polled, seen) && polled <= more
    ensures AllFound(w, initial, more, seen)
  {
    forall ip | ip in seen ensures Found(w, initial, more, ip) {
      assert Found(w, initial, polled, ip);
      var p :| Trail(w, initial, polled, p) && p[|p| - 1] == ip;
      forall i | 0 < i < |p| ensures Hop(w, more, p, i) {
        assert Hop(w, polled, p, i);
      }
      assert Trail(w, initial, more, p);
    }
  }

  // ----- what every layer keeps -------------------------------------------------------

  function Ips(polls: seq<Poll>): set<Ip> { set i | 0 <= i < |polls| :: polls[i].ip }

  /** Each poll carries the node its address had in its layer. */
  ghost predicate NodesAsFound(w: World, polls: seq<Poll>) {
    forall i :: 0 <= i < |polls| ==> polls[i].node == w.nodeOf(polls[i].layer, polls[i].ip)
  }

  /** No IP and no resolved node is polled twice. */
  ghost predicate NoRepeats(polls: seq<Poll>) {
    forall i, j :: 0 <= i < j < |polls| ==>
      polls[i].ip != polls[j].ip && (polls[i].node.Some? ==> polls[i].node != polls[j].node)
  }

  /** The neighbours of every polled, qualified switch of the given layers were seen. */
  ghost predicate Explored(w: World, polls: seq<Poll>, seen: set<Ip>, below: nat) {
    forall i :: 0 <= i < |polls| && polls[i].layer < below && polls[i].ip in w.qualified ==>
      w.neighbours(polls[i].ip) <= seen
  }

  function Bound(initial: set<Ip>): nat {
    if |initial| > MAX_DISCOVERED_TARGETS_PER_CRAWL then |initial| else MAX_DISCOVERED_TARGETS_PER_CRAWL
  }

  /** Between layers: seen is exactly processed plus queued, which are disjoint; every poll was of a
      processed IP; and unless the cap was reached nothing found so far was dropped. */
  ghost predicate LayerInv(w: World, initial: set<Ip>, layer: nat, queued: set<Ip>, processed: set<Ip>, seen: set<Ip>,
                           nodes: set<NodeId>, polls: seq<Poll>)
  {
    && seen == processed + queued && processed !! queued && initial <= seen
    && Ips(polls) <= processed && NoRepeats(polls) && NodesAsFound(w, polls)
    && (forall i :: 0 <= i < |polls| ==>
      polls[i].layer < layer && (polls[i].node.Some? ==> polls[i].node.value in nodes))
    && |seen| <= Bound(initial)
    && (|seen| < MAX_DISCOVERED_TARGETS_PER_CRAWL ==> Explored(w, polls, seen, layer))
    && AllFound(w, initial, Ips(polls), seen)
  }

  /** A processed IP was polled itself, or skipped because its node had been polled. */
  ghost predicate Covered(w: World, polls: seq<Poll>, ip: Ip) {
    ip in Ips(polls) || SkippedSibling(w, polls, ip)
  }

  ghost predicate SkippedSibling(w: World, polls: seq<Poll>, ip: Ip) {
    exists k: nat, i :: 0 <= i < |polls| && w.nodeOf(k, ip).Some? && w.nodeOf(k, ip) == polls[i].node
  }

  lemma IpsAppend(polls: seq<Poll>, p: Poll)
    ensures Ips(polls + [p]) == Ips(polls) + {p.ip}
  {
    var q := polls + [p];
    forall ip | ip in Ips(polls) ensures ip in Ips(q) {
      var i :| 0 <= i < |polls| && polls[i].ip == ip;
      assert q[i].ip == ip;
    }
    assert q[|polls|] == p;
  }

  lemma CoveredAppend(w: World, polls: seq<Poll>, p: Poll, ip: Ip)
    requires Covered(w, polls, ip)
    ensures Covered(w, polls + [p], ip)
  {
    IpsAppend(polls, p);
    if ip !in Ips(polls) {
      var k: nat, i :| 0 <= i < |polls| && w.nodeOf(k, ip).Some? && w.nodeOf(k, ip) == polls[i].node;
      assert (polls + [p])[i] == polls[i];
    }
  }

  /** Every node in processed_node_ids has its poll. */
  ghost predicate NodesPolled(polls: seq<Poll>, nodes: set<NodeId>) {
    && (forall i :: 0 <= i < |polls| && polls[i].node.Some? ==> polls[i].node.value in nodes)
    && (forall n :: n in nodes ==> NodePolled(polls, n))
  }

  ghost predicate NodePolled(polls: seq<Poll>, n: NodeId) { exists i :: 0 <= i < |polls| && polls[i].node == Some(n) }

  lemma NodesPolledAppend(polls: seq<Poll>, nodes: set<NodeId>, p: Poll)
    requires NodesPolled(polls, nodes)
    ensures NodesPolled(polls + [p], if p.node.Some? then nodes + {p.node.value} else nodes)
  {
    var q := polls + [p];
    forall n | n in (if p.node.Some? then nodes + {p.node.value} else nodes) ensures NodePolled(q, n) {
      if p.node == Some(n) {
        assert q[|polls|].node == Some(n);
      } else {
        assert NodePolled(polls, n);
        var i :| 0 <= i < |polls| && polls[i].node == Some(n);
        assert q[i].node == Some(n);
      }
    }
  }

  // ----- one layer --------------------------------------------------------------------

  lemma SkipCovers(w: World, polls: seq<Poll>, nodes: set<NodeId>, ip: Ip, layer: nat)
    requires NodesPolled(polls, nodes) && w.nodeOf(layer, ip).Some? && w.nodeOf(layer, ip).value in nodes
    ensures Covered(w, polls, ip)
  {
    assert NodePolled(polls, w.nodeOf(layer, ip).value);
    assert SkippedSibling(w, polls, ip);
  }

  lemma PollCovers(w: World, polls: seq<Poll>, p: Poll)
    ensures Ips(polls + [p]) == Ips(polls) + {p.ip} && Covered(w, polls + [p], p.ip)
    ensures forall x :: Covered(w, polls, x) ==> Covered(w, polls + [p], x)
  {
    IpsAppend(polls, p);
    forall x | Covered(w, polls, x) ensures Covered(w, polls + [p], x) {
      CoveredAppend(w, polls, p, x);
    }
  }

  lemma NewPoll(polls: seq<Poll>, nodes: set<NodeId>, p: Poll)
    requires NoRepeats(polls) && NodesPolled(polls, nodes) && p.ip !in Ips(polls)
    requires p.node.Some? ==> p.node.value !in nodes
    ensures NoRepeats(polls + [p])
  {
    assert forall i :: 0 <= i < |polls| ==> polls[i].ip in Ips(polls);
  }

  /** The deduplication loop and the polls of one batch, taken in any order. */
  method PollBatch(w: World, layer: nat, batch: set<Ip>, nodes0: set<NodeId>, polls0: seq<Poll>)
    returns (nodes: set<NodeId>, polls: seq<Poll>)
    requires NoRepeats(polls0) && NodesPolled(polls0, nodes0) && Ips(polls0) !! batch && NodesAsFound(w, polls0)
    requires forall i :: 0 <= i < |polls0| ==> polls0[i].layer < layer
    ensures polls0 <= polls && NoRepeats(polls) && NodesPolled(polls, nodes) && NodesAsFound(w, polls)
    ensures Ips(polls) <= Ips(polls0) + batch
    ensures forall i :: |polls0| <= i < |polls| ==> polls[i].layer == layer
    ensures forall ip :: ip in batch ==> Covered(w, polls, ip)
    ensures forall ip :: Covered(w, polls0, ip) ==> Covered(w, polls, ip)
  {
    hide Covered, SkippedSibling, NodesPolled;
    nodes, polls := nodes0, polls0;
    var todo := batch;
    while todo != {}
      invariant todo <= batch && polls0 <= polls && NoRepeats(polls) && NodesPolled(polls, nodes)
      invariant NodesAsFound(w, polls)
      invariant Ips(polls) <= Ips(polls0) + (batch - todo)
      invariant forall i :: |polls0| <= i < |polls| ==> polls[i].layer == layer
      invariant forall ip :: ip in batch - todo ==> Covered(w, polls, ip)
      invariant forall ip :: Covered(w, polls0, ip) ==> Covered(w, polls, ip)
      decreases todo
    {
      var ip :| ip in todo;
      todo := todo - {ip};
      var node := w.nodeOf(layer, ip);
      if node.Some? && node.value in nodes {
        SkipCovers(w, polls, nodes, ip, layer);
      } else {
        var p := Poll(ip, layer, node);
        PollCovers(w, polls, p);
        NodesPolledAppend(polls, nodes, p);
        NewPoll(polls, nodes, p);
        polls := polls + [p];
        if node.Some? {
          nodes := nodes + {node.value};
        }
      }
    }
  }

  /** One qualified switch's neighbours: new ones are queued until the cap is reached. */
  method Enqueue(found: set<Ip>, processed: set<Ip>, queued0: set<Ip>, seen0: set<Ip>)
    returns (queued: set<Ip>, seen: set<Ip>)
    requires seen0 == processed + queued0 && processed !! queued0
    ensures seen == processed + queued && processed !! queued && queued0 <= queued && seen <= seen0 + found
    ensures |seen| <= MAX_DISCOVERED_TARGETS_PER_CRAWL || seen == seen0
    ensures |seen| < MAX_DISCOVERED_TARGETS_PER_CRAWL ==> found <= seen
  {
    queued, seen := queued0, seen0;
    var todo := found;
    while todo != {}
      invariant todo <= found && seen == processed + queued && processed !! queued && queued0 <= queued
      invariant seen <= seen0 + found
      invariant |seen| <= MAX_DISCOVERED_TARGETS_PER_CRAWL || seen == seen0
      invariant |seen| < MAX_DISCOVERED_TARGETS_PER_CRAWL ==> found - todo <= seen
      decreases todo
    {
      var ip :| ip in todo;
      todo := todo - {ip};
      if ip in processed || ip in queued {
        continue;
      }
      if ip !in seen && |seen| >= MAX_DISCOVERED_TARGETS_PER_CRAWL {
        continue;
      }
      queued := queued + {ip};
      seen := seen + {ip};
    }
  }

  /** The discovery loop over the batch's qualified switches. */
  method Discover(w: World, ghost initial: set<Ip>, polls: seq<Poll>, first: nat, processed: set<Ip>, seen0: set<Ip>)
    returns (queued: set<Ip>, seen: set<Ip>)
    requires first <= |polls| && seen0 == processed && initial <= seen0 && |seen0| <= Bound(initial)
    requires AllFound(w, initial, Ips(polls), seen0)
    requires forall i :: 0 <= i < |polls| ==> polls[i].ip in processed
    ensures seen == processed + queued && processed !! queued && seen0 <= seen && |seen| <= Bound(initial)
    ensures AllFound(w, initial, Ips(polls), seen)
    ensures |seen| < MAX_DISCOVERED_TARGETS_PER_CRAWL ==>
              forall i :: first <= i < |polls| && polls[i].ip in w.qualified ==> w.neighbours(polls[i].ip) <= seen
  {
    queued, seen := {}, seen0;
    var i := first;
    while i < |polls|
      invariant first <= i <= |polls|
      invariant seen == processed + queued && processed !! queued && seen0 <= seen && |seen| <= Bound(initial)
      invariant AllFound(w, initial, Ips(polls), seen)
      invariant |seen| < MAX_DISCOVERED_TARGETS_PER_CRAWL ==>
                  forall k :: first <= k < i && polls[k].ip in w.qualified ==> w.neighbours(polls[k].ip) <= seen
    {
      var ip := polls[i].ip;
      if ip in w.qualified {
        assert ip in Ips(polls);
        FoundNext(w, initial, Ips(polls), seen, ip);
        var before := seen;
        queued, seen := Enqueue(w.neighbours(ip), processed, queued, seen);
        Grows(before, seen);
      }
      i := i + 1;
    }
  }

  lemma Grows(a: set<Ip>, b: set<Ip>)
    requires a <= b
    ensures |a| <= |b|
  {
    assert b == a + (b - a);
  }

  // ----- the crawl --------------------------------------------------------------------

  ghost predicate AllCovered(w: World, polls: seq<Poll>, processed: set<Ip>) {
    forall ip :: ip in processed ==> Covered(w, polls, ip)
  }

  /** One turn of the crawl loop: the batch is polled and processed, and the next one is queued. */
  method CrawlLayer(w: World, ghost initial: set<Ip>, layer: nat, batch: set<Ip>, processed0: set<Ip>, seen0: set<Ip>,
                    nodes0: set<NodeId>, polls0: seq<Poll>)
    returns (queued: set<Ip>, processed: set<Ip>, seen: set<Ip>, nodes: set<NodeId>, polls: seq<Poll>)
    requires LayerInv(w, initial, layer, batch, processed0, seen0, nodes0, polls0)
    requires NodesPolled(polls0, nodes0) && AllCovered(w, polls0, processed0)
    ensures LayerInv(w, initial, layer + 1, queued, processed, seen, nodes, polls)
    ensures NodesPolled(polls, nodes) && AllCovered(w, polls, processed)
  {
    hide AllFound, Covered, NodesPolled, NoRepeats, Ips;
    var first := |polls0|;
    nodes, polls := PollBatch(w, layer, batch, nodes0, polls0);
    IpsGrow(polls0, polls);
    FoundMore(w, initial, Ips(polls0), Ips(polls), seen0);
    processed := processed0 + batch;
    IpsHold(polls);
    NodesOf(polls, nodes);
    queued, seen := Discover(w, initial, polls, first, processed, seen0);
    Grows(seen0, seen);
  }

  method RunLldpScraper(w: World, initial: set<Ip>)
    returns (processed: set<Ip>, queued: set<Ip>, seen: set<Ip>, polls: seq<Poll>, layers: nat)
    ensures seen == processed + queued && processed !! queued && initial <= seen
    ensures Ips(polls) <= processed && NoRepeats(polls) && NodesAsFound(w, polls)
    ensures forall ip :: ip in processed ==> Covered(w, polls, ip)
    ensures |seen| <= (if |initial| > 500 then |initial| else 500) && layers <= 10
    ensures queued == {} || layers == 10
    ensures AllFound(w, initial, Ips(polls), seen)
    ensures queued == {} && |seen| < 500 ==>
              forall i :: 0 <= i < |polls| && polls[i].ip in w.qualified ==> w.neighbours(polls[i].ip) <= processed
  {
    hide AllFound, Covered, NodesPolled, NoRepeats, NodesAsFound, Ips, LayerInv;
    processed, queued, seen, polls := {}, initial, initial, [];
    var nodes: set<NodeId> := {};
    layers := 0;
    CrawlStarts(w, initial);
    while queued != {} && layers < MAX_LAYERS
      invariant LayerInv(w, initial, layers, queued, processed, seen, nodes, polls) && NodesPolled(polls, nodes)
      invariant layers <= MAX_LAYERS && AllCovered(w, polls, processed)
      decreases MAX_LAYERS - layers
    {
      queued, processed, seen, nodes, polls := CrawlLayer(w, initial, layers, queued, processed, seen, nodes, polls);
      layers := layers + 1;
    }
    CrawlEnds(w, initial, layers, queued, processed, seen, nodes, polls);
  }

  lemma CrawlStarts(w: World, initial: set<Ip>)
    ensures LayerInv(w, initial, 0, initial, {}, initial, {}, []) && NodesPolled([], {})
  {
    NothingPolled();
    FoundStart(w, initial, Ips([]));
  }

  lemma CrawlEnds(w: World, initial: set<Ip>, layers: nat, queued: set<Ip>, processed: set<Ip>, seen: set<Ip>,
                  nodes: set<NodeId>, polls: seq<Poll>)
    requires LayerInv(w, initial, layers, queued, processed, seen, nodes, polls)
    ensures seen == processed + queued && processed !! queued && initial <= seen
    ensures Ips(polls) <= processed && NoRepeats(polls) && NodesAsFound(w, polls) && |seen| <= Bound(initial)
    ensures AllFound(w, initial, Ips(polls), seen)
    ensures queued == {} && |seen| < MAX_DISCOVERED_TARGETS_PER_CRAWL ==>
              forall i :: 0 <= i < |polls| && polls[i].ip in w.qualified ==> w.neighbours(polls[i].ip) <= processed
  {
    hide AllFound, NoRepeats, Ips;
  }

  lemma NothingPolled()
    ensures Ips([]) == {} && NoRepeats([]) && NodesPolled([], {})
  {
  }

  lemma IpsHold(polls: seq<Poll>)
    ensures forall i :: 0 <= i < |polls| ==> polls[i].ip in Ips(polls)
  {
  }

  lemma NodesOf(polls: seq<Poll>, nodes: set<NodeId>)
    requires NodesPolled(polls, nodes)
    ensures forall i :: 0 <= i < |polls| && polls[i].node.Some? ==> polls[i].node.value in nodes
  {
  }

  lemma IpsGrow(p: seq<Poll>, q: seq<Poll>)
    requires p <= q
    ensures Ips(p) <= Ips(q)
  {
    forall ip | ip in Ips(p) ensures ip in Ips(q) {
      var i :| 0 <= i < |p| && p[i].ip == ip;
      assert q[i].ip == ip;
    }
  }

  /** Drained below the cap, the processed set is the least one: any set that holds the initial
      targets and the neighbours of its polled, qualified switches contains it. */
  lemma DrainedIsLeast(w: World, initial: set<Ip>, polls: seq<Poll>, processed: set<Ip>, closed: set<Ip>)
    requires AllFound(w, initial, Ips(polls), processed) && initial <= closed
    requires forall ip :: ip in closed && ip in Ips(polls) && ip in w.qualified ==> w.neighbours(ip) <= closed
    ensures processed <= closed
  {
    forall ip | ip in processed ensures ip in closed {
      assert Found(w, initial, Ips(polls), ip);
      var p :| Trail(w, initial, Ips(polls), p) && p[|p| - 1] == ip;
      TrailStaysIn(w, initial, Ips(polls), closed, p, |p| - 1);
    }
  }

  lemma {:induction false} TrailStaysIn(w: World, initial: set<Ip>, polled: set<Ip>, closed: set<Ip>, p: seq<Ip>,
      k: nat)
    requires initial <= closed && Trail(w, initial, polled, p) && k < |p|
    requires forall ip :: ip in closed && ip in polled && ip in w.qualified ==> w.neighbours(ip) <= closed
    ensures p[k] in closed
  {
    if k > 0 {
      TrailStaysIn(w, initial, polled, closed, p, k - 1);
      assert Hop(w, polled, p, k);
    }
  }
}
