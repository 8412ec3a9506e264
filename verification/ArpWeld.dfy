/** run_arp_confirmed_weld_pass of src/engine/unification.py: merging the nodes of hardware-near
    MACs that the router's own ARP cache confirmed, as a coarsening of the node partition. */
module ArpWeld {
  import opened Common

  type Mac = string
  type NodeId = int

  const PROXIMITY := 16
  const MERGE_CAP := 5

  /** l2_interfaces: each MAC's node_id, None for NULL. */
  type Nodes = map<Mac, Option<NodeId>>

  /** mac_to_int, None where it raises ValueError. */
  type Parse = Mac -> Option<int>

  predicate Welded(l2: Nodes, m: Mac) { m in l2 && l2[m].Some? }

  predicate Shares(l2: Nodes, a: Mac, b: Mac) { Welded(l2, a) && Welded(l2, b) && l2[a] == l2[b] }

  predicate Near(confirmed: set<Mac>, parse: Parse, a: Mac, b: Mac) {
    && a in confirmed && b in confirmed && parse(a).Some? && parse(b).Some?
    && -PROXIMITY <= parse(a).value - parse(b).value <= PROXIMITY
  }

  /** Near: both confirmed by the router and at most 16 apart. */
  lemma NearMeans(confirmed: set<Mac>, parse: Parse, a: Mac, b: Mac)
    ensures Near(confirmed, parse, a, b) <==>
      && {a, b} <= confirmed && parse(a).Some? && parse(b).Some?
      && (parse(a).value <= parse(b).value <= parse(a).value + 16
          || parse(b).value <= parse(a).value <= parse(b).value + 16)
  {
  }

  // ----- chains of shared-before or near steps ----------------------------------------

  predicate Link(l2: Nodes, confirmed: set<Mac>, parse: Parse, a: Mac, b: Mac) {
    Shares(l2, a, b) || (Welded(l2, a) && Welded(l2, b) && Near(confirmed, parse, a, b))
  }

  ghost predicate Path(l2: Nodes, confirmed: set<Mac>, parse: Parse, p: seq<Mac>) {
    p != [] && forall i, j :: 0 <= i < |p| && j == i + 1 && j < |p| ==> Link(l2, confirmed, parse, p[i], p[j])
  }

  ghost predicate Chained(l2: Nodes, confirmed: set<Mac>, parse: Parse, a: Mac, b: Mac) {
    exists p :: Path(l2, confirmed, parse, p) && p[0] == a && p[|p| - 1] == b
  }

  lemma LinkIsChain(l2: Nodes, confirmed: set<Mac>, parse: Parse, a: Mac, b: Mac)
    requires Link(l2, confirmed, parse, a, b)
    ensures Chained(l2, confirmed, parse, a, b)
  {
    assert Path(l2, confirmed, parse, [a, b]) && [a, b][0] == a && [a, b][1] == b;
  }

  lemma ChainsCompose(l2: Nodes, confirmed: set<Mac>, parse: Parse, a: Mac, b: Mac, c: Mac)
    requires Chained(l2, confirmed, parse, a, b) && Chained(l2, confirmed, parse, b, c)
    ensures Chained(l2, confirmed, parse, a, c)
  {
    var p :| Path(l2, confirmed, parse, p) && p[0] == a && p[|p| - 1] == b;
    var q :| Path(l2, confirmed, parse, q) && q[0] == b && q[|q| - 1] == c;
    var r := p + q[1..];
    forall i, j | 0 <= i < |r| && j == i + 1 && j < |r| ensures Link(l2, confirmed, parse, r[i], r[j]) {
      if j < |p| {
        assert r[i] == p[i] && r[j] == p[j];
      } else {
        var k := i - (|p| - 1);
        assert r[j] == q[k + 1];
        assert r[i] == q[k];
        assert Link(l2, confirmed, parse, q[k], q[k + 1]);
      }
    }
    assert r[0] == a && r[|r| - 1] == c;
  }

  // ----- one merge --------------------------------------------------------------------

  /** UPDATE l2_interfaces SET node_id = keeper WHERE node_id = loser */
  function Merged(l2: Nodes, keeper: NodeId, loser: NodeId): Nodes {
    map m | m in l2 :: if l2[m] == Some(loser) then Some(keeper) else l2[m]
  }

  /** DELETE FROM logical_nodes WHERE id = gone, cascading to l2_interfaces */
  function Cascade(l2: Nodes, gone: NodeId): Nodes { map m | m in l2 && l2[m] != Some(gone) :: l2[m] }

  /** How a later partition relates to the one the pass started from. */
  ghost predicate Coarser(before: Nodes, after: Nodes, confirmed: set<Mac>, parse: Parse) {
    && SameMacs(before, after)
    && (forall a, b :: Shares(before, a, b) ==> Shares(after, a, b))
    && OnlyChains(before, after, confirmed, parse)
    && SmallestSurvives(before, after)
  }

  ghost predicate SameMacs(before: Nodes, after: Nodes) {
    after.Keys == before.Keys && forall m :: Welded(after, m) <==> Welded(before, m)
  }

  ghost predicate OnlyChains(before: Nodes, after: Nodes, confirmed: set<Mac>, parse: Parse) {
    forall a, b {:trigger Chained(before, confirmed, parse, a, b)} :: Shares(after, a, b) ==>
      Chained(before, confirmed, parse, a, b)
  }

  /** A merged node keeps the smallest id that any of its MACs had. */
  ghost predicate SmallestSurvives(before: Nodes, after: Nodes) {
    && (forall a, b :: Shares(after, a, b) && Welded(before, b) ==> after[a].value <= before[b].value)
    && (forall a {:trigger KeepsSomeId(before, after, a)} :: Welded(after, a) ==> KeepsSomeId(before, after, a))
  }

  ghost predicate KeepsSomeId(before: Nodes, after: Nodes, a: Mac)
    requires Welded(after, a)
  {
    exists b :: Shares(after, a, b) && Welded(before, b) && before[b] == after[a]
  }

  lemma CoarserSelf(l2: Nodes, confirmed: set<Mac>, parse: Parse)
    ensures Coarser(l2, l2, confirmed, parse)
  {
    forall a, b | Shares(l2, a, b) ensures Chained(l2, confirmed, parse, a, b) {
      LinkIsChain(l2, confirmed, parse, a, b);
    }
    forall a | Welded(l2, a) ensures KeepsSomeId(l2, l2, a) {
      assert Shares(l2, a, a);
    }
  }

  /** Cascading after the update deletes nothing: no MAC is lost. */
  lemma CascadeLosesNothing(l2: Nodes, keeper: NodeId, loser: NodeId)
    requires keeper != loser
    ensures Cascade(Merged(l2, keeper, loser), loser) == Merged(l2, keeper, loser)
  {
  }

  lemma MergeChains(before: Nodes, mid: Nodes, confirmed: set<Mac>, parse: Parse, a: Mac, b: Mac, x: Mac, y: Mac)
    requires SameMacs(before, mid) && OnlyChains(before, mid, confirmed, parse) && Near(confirmed, parse, a, b)
    requires Shares(mid, x, a) && Shares(mid, b, y)
    ensures Chained(before, confirmed, parse, x, y) && Chained(before, confirmed, parse, y, x)
  {
    LinkIsChain(before, confirmed, parse, a, b);
    LinkIsChain(before, confirmed, parse, b, a);
    assert Shares(mid, a, x) && Shares(mid, y, b);
    ChainsCompose(before, confirmed, parse, x, a, b);
    ChainsCompose(before, confirmed, parse, x, b, y);
    ChainsCompose(before, confirmed, parse, y, b, a);
    ChainsCompose(before, confirmed, parse, y, a, x);
  }

  /** Merging the nodes of two near MACs, the smaller id kept, is one more coarsening. */
  lemma MergeCoarsens(before: Nodes, mid: Nodes, confirmed: set<Mac>, parse: Parse, a: Mac, b: Mac)
    requires Coarser(before, mid, confirmed, parse) && Near(confirmed, parse, a, b)
    requires Welded(mid, a) && Welded(mid, b) && mid[a].value < mid[b].value
    ensures Coarser(before, Merged(mid, mid[a].value, mid[b].value), confirmed, parse)
  {
    var after := Merged(mid, mid[a].value, mid[b].value);
    assert OnlyChains(before, after, confirmed, parse) by { MergeOnlyChains(before, mid, confirmed, parse, a, b); }
    assert SmallestSurvives(before, after) by { MergeKeepsSmallest(before, mid, a, b); }
  }

  lemma MergeOnlyChains(before: Nodes, mid: Nodes, confirmed: set<Mac>, parse: Parse, a: Mac, b: Mac)
    requires SameMacs(before, mid) && OnlyChains(before, mid, confirmed, parse) && Near(confirmed, parse, a, b)
    requires Welded(mid, a) && Welded(mid, b)
    ensures OnlyChains(before, Merged(mid, mid[a].value, mid[b].value), confirmed, parse)
  {
    var after := Merged(mid, mid[a].value, mid[b].value);
    forall x, y | Shares(after, x, y) ensures Chained(before, confirmed, parse, x, y) {
      if !Shares(mid, x, y) {
        if Shares(mid, x, a) {
          MergeChains(before, mid, confirmed, parse, a, b, x, y);
        } else {
          MergeChains(before, mid, confirmed, parse, a, b, y, x);
        }
      }
    }
  }

  lemma MergeKeepsSmallest(before: Nodes, mid: Nodes, a: Mac, b: Mac)
    requires SmallestSurvives(before, mid) && SameMacs(before, mid)
    requires Welded(mid, a) && Welded(mid, b) && mid[a].value < mid[b].value
    ensures SmallestSurvives(before, Merged(mid, mid[a].value, mid[b].value))
  {
    var after := Merged(mid, mid[a].value, mid[b].value);
    forall x, y | Shares(after, x, y) && Welded(before, y) ensures after[x].value <= before[y].value {
      assert Shares(mid, y, y);
    }
    forall x | Welded(after, x) ensures KeepsSomeId(before, after, x) {
      var from := if mid[x] == mid[b] then a else x;
      assert KeepsSomeId(before, mid, from);
      var y :| Shares(mid, from, y) && Welded(before, y) && before[y] == mid[from];
      assert Shares(after, x, y) && before[y] == after[x];
    }
  }

  // ----- the pass ---------------------------------------------------------------------

  /** No two confirmed near MACs sit in different nodes. */
  ghost predicate Fixpoint(l2: Nodes, confirmed: set<Mac>, parse: Parse) {
    forall a, b :: Welded(l2, a) && Welded(l2, b) && Near(confirmed, parse, a, b) ==> Shares(l2, a, b)
  }

  /** At a fixpoint the partition is exactly the closure: two MACs share a node if and only if a
      chain of shared-before or near steps links them. */
  lemma FixpointIsClosure(before: Nodes, after: Nodes, confirmed: set<Mac>, parse: Parse, a: Mac, b: Mac)
    requires Coarser(before, after, confirmed, parse) && Fixpoint(after, confirmed, parse) && Welded(before, a)
    ensures Shares(after, a, b) <==> Chained(before, confirmed, parse, a, b)
  {
    if Chained(before, confirmed, parse, a, b) {
      var p :| Path(before, confirmed, parse, p) && p[0] == a && p[|p| - 1] == b;
      PathStaysInNode(before, after, confirmed, parse, p, |p| - 1);
    }
  }

  lemma {:induction false} PathStaysInNode(before: Nodes, after: Nodes, confirmed: set<Mac>, parse: Parse, p: seq<Mac>,
      k: nat)
    requires Coarser(before, after, confirmed, parse) && Fixpoint(after, confirmed, parse)
    requires Path(before, confirmed, parse, p) && k < |p| && Welded(before, p[0])
    ensures Shares(after, p[0], p[k])
  {
    if k > 0 {
      PathStaysInNode(before, after, confirmed, parse, p, k - 1);
      assert Link(before, confirmed, parse, p[k - 1], p[k]);
    }
  }

  class NodeTable {
    var nodes: set<NodeId>
    var l2: Nodes

    /** The foreign key of l2_interfaces. */
    ghost predicate Valid()
      reads this
    {
      forall m :: Welded(l2, m) ==> l2[m].value in nodes
    }

    /** The SELECT: every confirmed, welded MAC once, in any order. */
    method Rows(confirmed: set<Mac>) returns (rows: seq<Mac>)
      ensures SameElements(rows, set m | m in confirmed && Welded(l2, m))
    {
      rows := [];
      var all := set m | m in confirmed && Welded(l2, m);
      var todo := all;
      while todo != {}
        invariant todo <= all && SameElements(rows, all - todo)
        decreases todo
      {
        var m :| m in todo;
        rows := rows + [m];
        todo := todo - {m};
      }
    }

    /** The double loop over the rows: the first pair that is near and in different nodes. */
    method FindPair(rows: seq<Mac>, confirmed: set<Mac>, parse: Parse) returns (found: Option<(Mac, Mac)>)
      requires forall m :: m in rows ==> m in confirmed && Welded(l2, m)
      ensures found.Some? ==>
                var (a, b) := found.value;
                Welded(l2, a) && Welded(l2, b) && Near(confirmed, parse, a, b) && !Shares(l2, a, b)
      ensures found.None? ==> forall a, b :: a in rows && b in rows && Near(confirmed, parse, a, b) ==> Shares(l2, a, b)
    {
      var i := 0;
      while i < |rows|
        invariant 0 <= i <= |rows|
        invariant forall k, j :: 0 <= k < i && k < j < |rows| && Near(confirmed, parse, rows[k], rows[j]) ==>
          Shares(l2, rows[k], rows[j])
      {
        var a := rows[i];
        assert a in rows;
        var j := i + 1;
        while j < |rows|
          invariant i < j <= |rows|
          invariant forall k :: i < k < j && Near(confirmed, parse, a, rows[k]) ==> Shares(l2, a, rows[k])
        {
          var b := rows[j];
          assert b in rows;
          if l2[a] != l2[b] && parse(a).Some? && parse(b).Some?
            && -PROXIMITY <= parse(a).value - parse(b).value <= PROXIMITY {
            return Some((a, b));
          }
          j := j + 1;
        }
        i := i + 1;
      }
      assert forall a, b :: a in rows && b in rows && Near(confirmed, parse, a, b) ==> Shares(l2, a, b) by {
        forall a, b | a in rows && b in rows && Near(confirmed, parse, a, b) ensures Shares(l2, a, b) {
          var k :| 0 <= k < |rows| && rows[k] == a;
          var j :| 0 <= j < |rows| && rows[j] == b;
          assert Near(confirmed, parse, rows[j], rows[k]);
        }
      }
      return None;
    }

    /** The UPDATE and the cascading DELETE of one merge. */
    method Merge(keeper: NodeId, loser: NodeId)
      requires Valid() && keeper in nodes && loser in nodes && keeper != loser
      modifies this
      ensures Valid() && l2 == Merged(old(l2), keeper, loser) && nodes == old(nodes) - {loser}
    {
      l2 := Merged(l2, keeper, loser);
      CascadeLosesNothing(old(l2), keeper, loser);
      nodes := nodes - {loser};
      l2 := Cascade(l2, loser);
    }

    method RunArpConfirmedWeldPass(confirmed: set<Mac>, parse: Parse) returns (merges: nat)
      requires Valid()
      modifies this
      ensures Valid() && merges <= 5
      ensures Coarser(old(l2), l2, confirmed, parse)
      ensures nodes <= old(nodes) && |nodes| == |old(nodes)| - merges
      ensures merges < 5 ==> Fixpoint(l2, confirmed, parse)
    {
      merges := 0;
      CoarserSelf(l2, confirmed, parse);
      var round := 0;
      while round < MERGE_CAP
        invariant Valid() && merges == round <= MERGE_CAP
        invariant Coarser(old(l2), l2, confirmed, parse)
        invariant nodes <= old(nodes) && |nodes| == |old(nodes)| - merges
      {
        var rows := Rows(confirmed);
        var pair := FindPair(rows, confirmed, parse);
        if pair.None? {
          forall a, b | Welded(l2, a) && Welded(l2, b) && Near(confirmed, parse, a, b) ensures Shares(l2, a, b) {
            assert a in rows && b in rows;
          }
          return;
        }
        var (x, y) := pair.value;
        var (a, b) := if l2[x].value < l2[y].value then (x, y) else (y, x);
        MergeCoarsens(old(l2), l2, confirmed, parse, a, b);
        Merge(l2[a].value, l2[b].value);
        merges := merges + 1;
        round := round + 1;
      }
    }
  }
}
