/** run_inventory_snapshot_sync of src/engine/unification.py: every discovered device becomes one
    inventory row, under the lowest MAC of its node, without losing what a human entered. */
module SnapshotSync {
  import opened Common

  /** MAC addresses in their string order. */
  type Mac = nat
  type Cell = Option<string>

  /** The human columns, in the order of the source's list; the first two are back-filled. */
  datatype Column = UserGivenName | ConfirmedDeviceType | Notes | Location | AssetTag
                  | SerialNumber | Model | PurchaseDate | WarrantyExpiry

  const COLUMNS: seq<Column> := [UserGivenName, ConfirmedDeviceType, Notes, Location, AssetTag,
                                 SerialNumber, Model, PurchaseDate, WarrantyExpiry]

  /** What discovery knows; `rest` stands for the other last_known columns. */
  datatype Data = Data(hostname: Cell, deviceType: Cell, ip: Cell, rest: string)

  /** A verified_devices row: the human cells (absent key: NULL) and the last snapshot. */
  datatype Row = Row(human: map<Column, Cell>, lastKnown: Option<Data>)
  type Table = map<Mac, Row>

  /** One row of the join over l2_interfaces; an interface with two IPs gives two. */
  datatype Interface = Interface(mac: Mac, node: Option<nat>, data: Data)

  datatype Group = Node(id: nat) | Lone(mac: Mac)

  predicate Empty(c: Cell) { c.None? || c.value == "" }

  function GroupOf(r: Interface): Group { if r.node.Some? then Node(r.node.value) else Lone(r.mac) }

  function MacsOf(rows: seq<Interface>, g: Group): set<Mac> { set r | r in rows && GroupOf(r) == g :: r.mac }

  /** mac_address is the key of l2_interfaces, so a MAC is in one node. */
  ghost predicate OneNodeEach(rows: seq<Interface>) {
    forall r, s :: r in rows && s in rows && r.mac == s.mac ==> r.node == s.node
  }

  function Cells(t: Table, m: Mac, c: Column): Cell {
    if m in t && c in t[m].human then t[m].human[c] else None
  }

  function Offered(d: Data, c: Column): Cell {
    match c
    case UserGivenName => d.hostname
    case ConfirmedDeviceType => d.deviceType
    case _ => None
  }

  predicate BackFilled(c: Column) { c.UserGivenName? || c.ConfirmedDeviceType? }

  // ----- what the fold leaves in one cell ---------------------------------------------

  /** The canonical value stands; an empty one takes a stray's non-empty value if there is one. */
  ghost predicate Folded(t: Table, canonical: Mac, strays: set<Mac>, c: Column, now: Cell) {
    var own := Cells(t, canonical, c);
    if !Empty(own) || AllEmpty(t, strays, c) then now == own
    else !Empty(now) && exists s :: s in strays && Cells(t, s, c) == now
  }

  predicate AllEmpty(t: Table, strays: set<Mac>, c: Column) { forall s :: s in strays ==> Empty(Cells(t, s, c)) }

  /** What the whole pass leaves in a human cell of the group's row. */
  ghost predicate Settled(t: Table, canonical: Mac, strays: set<Mac>, d: Data, c: Column, now: Cell) {
    if BackFilled(c) && Empty(Cells(t, canonical, c)) && AllEmpty(t, strays, c) then now == Offered(d, c)
    else Folded(t, canonical, strays, c, now)
  }

  /** In t1 one group of t0 is consolidated: strays gone, cells folded. */
  ghost predicate GroupFolded(t0: Table, t1: Table, canonical: Mac, strays: set<Mac>) {
    && (forall s :: s in strays ==> s !in t1)
    && (canonical in t0 ==> canonical in t1)
    && (canonical in t1 ==> t1[canonical].lastKnown == if canonical in t0 then t0[canonical].lastKnown else None)
    && (forall c :: Folded(t0, canonical, strays, c, Cells(t1, canonical, c)))
  }

  predicate Same(t0: Table, t1: Table, m: Mac) { (m in t0 <==> m in t1) && (m in t0 ==> t0[m] == t1[m]) }

  // ----- the groups -------------------------------------------------------------------

  function Groups(rows: seq<Interface>): set<Group> { set r | r in rows :: GroupOf(r) }

  function Canonical(rows: seq<Interface>, g: Group): Mac
    requires g in Groups(rows)
  {
    var r :| r in rows && GroupOf(r) == g;
    assert r.mac in MacsOf(rows, g);
    Lowest(MacsOf(rows, g))
  }

  function Strays(rows: seq<Interface>, g: Group): set<Mac>
    requires g in Groups(rows)
  {
    MacsOf(rows, g) - {Canonical(rows, g)}
  }

  /** The snapshot of a group after the rows so far: the first row, until one with an address. */
  function Best(rows: seq<Interface>, g: Group): (best: Option<Data>)
    ensures best.None? <==> g !in Groups(rows)
  {
    if rows == [] then None
    else
      var before, r := Best(rows[..|rows| - 1], g), rows[|rows| - 1];
      if GroupOf(r) == g && (before.None? || (!Empty(r.data.ip) && Empty(before.value.ip)))
        then Some(r.data) else before
  }

  /** What that means: the first row of the group that has an address, or else its first row. */
  lemma {:induction false} BestIsFirstAddressed(rows: seq<Interface>, g: Group) returns (i: nat)
    requires g in Groups(rows)
    ensures i < |rows| && GroupOf(rows[i]) == g && Best(rows, g) == Some(rows[i].data)
    ensures forall j :: 0 <= j < i && GroupOf(rows[j]) == g ==> Empty(rows[j].data.ip)
    ensures Empty(rows[i].data.ip) ==> forall j :: 0 <= j < |rows| && GroupOf(rows[j]) == g ==>
      i <= j && Empty(rows[j].data.ip)
  {
    var n := |rows| - 1;
    var before := rows[..n];
    assert forall j :: 0 <= j < n ==> before[j] == rows[j];
    if g in Groups(before) {
      i := BestIsFirstAddressed(before, g);
      if GroupOf(rows[n]) == g && !Empty(rows[n].data.ip) && Empty(rows[i].data.ip) {
        i := n;
      }
    } else {
      i := n;
      assert forall j :: 0 <= j < n ==> before[j] in before && GroupOf(before[j]) in Groups(before);
    }
  }

  /** The pass on one group, from t0 to t1. */
  ghost predicate GroupSynced(t0: Table, t1: Table, rows: seq<Interface>, g: Group)
    requires g in Groups(rows)
  {
    var canonical, strays := Canonical(rows, g), Strays(rows, g);
    && (forall s :: s in strays ==> s !in t1)
    && canonical in t1 && t1[canonical].lastKnown == Best(rows, g)
    && (forall c :: Settled(t0, canonical, strays, Best(rows, g).value, c, Cells(t1, canonical, c)))
  }

  ghost predicate Undiscovered(rows: seq<Interface>, m: Mac) { forall r :: r in rows ==> r.mac != m }

  /** The whole pass: every group consolidated, every row of an undiscovered MAC untouched. */
  ghost predicate Synced(t0: Table, rows: seq<Interface>, t1: Table) {
    && (forall g :: g in Groups(rows) ==> GroupSynced(t0, t1, rows, g))
    && (forall m :: Undiscovered(rows, m) ==> Same(t0, t1, m))
  }

  // ----- the methods ------------------------------------------------------------------

  class Inventory {
    var verified: Table

    /** The first non-empty cell of a column among the stray rows, in the order SQLite gave them. */
    method FirstStray(strays: seq<Row>, c: Column) returns (v: Cell)
      ensures Empty(v) ==> forall i :: 0 <= i < |strays| && c in strays[i].human ==> Empty(strays[i].human[c])
      ensures !Empty(v) ==> exists i :: 0 <= i < |strays| && c in strays[i].human && strays[i].human[c] == v
    {
      for i := 0 to |strays|
        invariant forall k :: 0 <= k < i && c in strays[k].human ==> Empty(strays[k].human[c])
      {
        if c in strays[i].human && !Empty(strays[i].human[c]) {
          return strays[i].human[c];
        }
      }
      return None;
    }

    /** The rows of the stray MACs, in some order. */
    method StrayRows(strays: set<Mac>) returns (found: seq<Row>)
      ensures forall i :: 0 <= i < |found| ==> OfStray(verified, strays, found[i])
      ensures forall s :: s in strays && s in verified ==> verified[s] in found
    {
      found := [];
      var todo := strays;
      while todo != {}
        invariant todo <= strays
        invariant forall i :: 0 <= i < |found| ==> OfStray(verified, strays, found[i])
        invariant forall s :: s in strays && s !in todo && s in verified ==> verified[s] in found
        decreases todo
      {
        var s :| s in todo;
        todo := todo - {s};
        if s in verified {
          found := found + [verified[s]];
        }
      }
    }

    /** What the inner loop collects: the non-empty stray value for each empty canonical column. */
    method Fill(found: seq<Row>, own: map<Column, Cell>) returns (fill: map<Column, Cell>)
      ensures forall c :: c in fill ==> !Empty(fill[c]) && (c in own ==> Empty(own[c])) && OneHas(found, c, fill[c])
      ensures forall c :: c !in fill && (c in own ==> Empty(own[c])) ==> NoneHas(found, c)
    {
      fill := map[];
      for i := 0 to |COLUMNS|
        invariant forall c :: c in fill ==> !Empty(fill[c]) && (c in own ==> Empty(own[c])) && OneHas(found, c, fill[c])
        invariant forall k :: 0 <= k < i && COLUMNS[k] !in fill && (COLUMNS[k] in own ==> Empty(own[COLUMNS[k]])) ==>
          NoneHas(found, COLUMNS[k])
      {
        var c := COLUMNS[i];
        if c in own && !Empty(own[c]) {
          continue;
        }
        var v := FirstStray(found, c);
        if !Empty(v) {
          fill := fill[c := v];
        }
      }
      forall c: Column | c !in fill && (c in own ==> Empty(own[c])) ensures NoneHas(found, c) {
        ColumnsComplete(c);
        var k :| 0 <= k < |COLUMNS| && COLUMNS[k] == c;
      }
    }

    /** One turn of the clean-up loop: fold the strays into the canonical row, then drop them. */
    method FoldGroup(canonical: Mac, strays: set<Mac>)
      requires canonical !in strays
      modifies this
      ensures GroupFolded(old(verified), verified, canonical, strays)
      ensures forall m :: m != canonical && m !in strays ==> Same(old(verified), verified, m)
    {
      ghost var t0 := verified;
      var found := StrayRows(strays);
      if found == [] {
        assert forall s :: s in strays ==> s !in verified;
        return;
      }
      var own := if canonical in verified then verified[canonical].human else map[];
      var fill := Fill(found, own);
      if fill.Keys != {} {
        var base := if canonical in verified then verified[canonical] else Row(map[], None);
        verified := verified[canonical := base.(human := base.human + fill)];
      }
      verified := verified - strays;
      forall c: Column ensures Folded(t0, canonical, strays, c, Cells(verified, canonical, c)) {
        FoldedCell(t0, canonical, strays, found, own, fill, c);
        assert Cells(verified, canonical, c) == if c in fill then fill[c] else Cells(t0, canonical, c);
      }
    }

    /** The upsert of one device. */
    method Upsert(m: Mac, d: Data)
      modifies this
      ensures verified == Upserted(old(verified), m, d)
    {
      if m !in verified {
        verified := verified[m := Row(map[UserGivenName := d.hostname, ConfirmedDeviceType := d.deviceType], Some(d))];
      } else {
        var human := verified[m].human;
        if UserGivenName !in human || Empty(human[UserGivenName]) {
          human := human[UserGivenName := d.hostname];
        }
        if ConfirmedDeviceType !in human || Empty(human[ConfirmedDeviceType]) {
          human := human[ConfirmedDeviceType := d.deviceType];
        }
        verified := verified[m := Row(human, Some(d))];
      }
    }

    /** The grouping loop. */
    method Collect(rows: seq<Interface>) returns (best: map<Group, Data>, macs: map<Group, set<Mac>>)
      ensures Collected(rows, best, macs)
    {
      hide Best, MacsOf, Groups;
      best, macs := map[], map[];
      NothingCollected();
      assert rows[..0] == [];
      for i := 0 to |rows|
        invariant Collected(rows[..i], best, macs)
      {
        var r := rows[i];
        var key := GroupOf(r);
        CollectStep(rows[..i], r, best, macs);
        assert rows[..i + 1] == rows[..i] + [r];
        macs := macs[key := (if key in macs then macs[key] else {}) + {r.mac}];
        if key !in best || (!Empty(r.data.ip) && Empty(best[key].ip)) {
          best := best[key := r.data];
        }
      }
      assert rows[..|rows|] == rows;
    }

    /** The clean-up loop over all groups. */
    method FoldAll(rows: seq<Interface>, macs: map<Group, set<Mac>>)
      requires OneNodeEach(rows) && GroupMacs(rows, macs)
      modifies this
      ensures FoldedSoFar(old(verified), verified, rows, {})
    {
      ghost var t0 := verified;
      var todo := macs.Keys;
      while todo != {}
        invariant FoldedSoFar(t0, verified, rows, todo)
        decreases todo
      {
        var g :| g in todo;
        ghost var before := verified;
        GroupSplit(rows, macs, g);
        var canonical := Lowest(macs[g]);
        FoldGroup(canonical, macs[g] - {canonical});
        FoldTurn(t0, before, verified, rows, todo, g);
        todo := todo - {g};
      }
    }

    /** The upserts of all groups. */
    method UpsertAll(rows: seq<Interface>, best: map<Group, Data>, macs: map<Group, set<Mac>>, ghost t0: Table)
      requires OneNodeEach(rows) && GroupMacs(rows, macs) && Collected(rows, best, macs)
      requires FoldedSoFar(t0, verified, rows, {})
      modifies this
      ensures Synced(t0, rows, verified)
    {
      var todo := macs.Keys;
      while todo != {}
        invariant SyncedSoFar(t0, verified, rows, todo)
        decreases todo
      {
        var g :| g in todo;
        GroupSplit(rows, macs, g);
        UpsertTurn(t0, verified, rows, todo, g);
        Upsert(Lowest(macs[g]), best[g]);
        todo := todo - {g};
      }
    }

    method RunInventorySnapshotSync(rows: seq<Interface>) returns (synced: nat)
      requires OneNodeEach(rows)
      modifies this
      ensures Synced(old(verified), rows, verified)
      ensures synced == |Groups(rows)|
    {
      ghost var t0 := verified;
      if rows == [] {
        return 0;
      }
      var best, macs := Collect(rows);
      FoldAll(rows, macs);
      UpsertAll(rows, best, macs, t0);
      return |best.Keys|;
    }
  }

  ghost predicate Untouched(t0: Table, t1: Table, macs: set<Mac>) { forall m :: m in macs ==> Same(t0, t1, m) }

  ghost predicate Collected(rows: seq<Interface>, best: map<Group, Data>, macs: map<Group, set<Mac>>) {
    && best.Keys == macs.Keys == Groups(rows)
    && forall g :: g in best ==> Best(rows, g) == Some(best[g]) && macs[g] == MacsOf(rows, g)
  }

  ghost predicate GroupMacs(rows: seq<Interface>, macs: map<Group, set<Mac>>) {
    macs.Keys == Groups(rows) && forall g :: g in macs ==> macs[g] == MacsOf(rows, g)
  }

  lemma GroupSplit(rows: seq<Interface>, macs: map<Group, set<Mac>>, g: Group)
    requires GroupMacs(rows, macs) && g in macs
    ensures macs[g] != {} && Lowest(macs[g]) == Canonical(rows, g) && macs[g] - {Lowest(macs[g])} == Strays(rows, g)
  {
    CanonicalIsOfGroup(rows, g);
    assert macs[g] == MacsOf(rows, g);
  }

  /** The clean-up loop with `todo` still to do. */
  ghost predicate FoldedSoFar(t0: Table, t: Table, rows: seq<Interface>, todo: set<Group>) {
    && todo <= Groups(rows)
    && (forall g :: g in Groups(rows) && g !in todo ==> GroupFolded(t0, t, Canonical(rows, g), Strays(rows, g)))
    && (forall g :: g in todo ==> Untouched(t0, t, MacsOf(rows, g)))
    && (forall m :: Undiscovered(rows, m) ==> Same(t0, t, m))
  }

  /** The upsert loop with `todo` still to do. */
  ghost predicate SyncedSoFar(t0: Table, t: Table, rows: seq<Interface>, todo: set<Group>) {
    && todo <= Groups(rows)
    && (forall g :: g in Groups(rows) && g !in todo ==> GroupSynced(t0, t, rows, g))
    && (forall g :: g in todo ==> GroupFolded(t0, t, Canonical(rows, g), Strays(rows, g)))
    && (forall m :: Undiscovered(rows, m) ==> Same(t0, t, m))
  }

  lemma FoldTurn(t0: Table, before: Table, t1: Table, rows: seq<Interface>, todo: set<Group>, g: Group)
    requires OneNodeEach(rows) && FoldedSoFar(t0, before, rows, todo) && g in todo
    requires GroupFolded(before, t1, Canonical(rows, g), Strays(rows, g))
    requires forall m :: m != Canonical(rows, g) && m !in Strays(rows, g) ==> Same(before, t1, m)
    ensures FoldedSoFar(t0, t1, rows, todo - {g})
  {
    CanonicalIsOfGroup(rows, g);
    FoldedFrom(t0, before, t1, Canonical(rows, g), Strays(rows, g));
    FoldElsewhere(t0, before, t1, rows, g);
  }

  lemma UpsertTurn(t0: Table, before: Table, rows: seq<Interface>, todo: set<Group>, g: Group)
    requires OneNodeEach(rows) && SyncedSoFar(t0, before, rows, todo) && g in todo
    ensures SyncedSoFar(t0, Upserted(before, Canonical(rows, g), Best(rows, g).value), rows, todo - {g})
  {
    var t1 := Upserted(before, Canonical(rows, g), Best(rows, g).value);
    UpsertSettles(t0, before, rows, g);
    UpsertElsewhere(t0, before, t1, rows, g);
  }

  lemma NothingCollected()
    ensures Collected([], map[], map[])
  {
  }

  lemma OneMoreRow(rows: seq<Interface>, r: Interface, g: Group)
    ensures Groups(rows + [r]) == Groups(rows) + {GroupOf(r)}
    ensures MacsOf(rows + [r], g) == MacsOf(rows, g) + (if GroupOf(r) == g then {r.mac} else {})
    ensures g !in Groups(rows) ==> MacsOf(rows, g) == {}
    ensures (rows + [r])[..|rows|] == rows
  {
    assert forall x :: x in rows + [r] <==> x in rows || x == r;
  }

  lemma CollectStep(rows: seq<Interface>, r: Interface, best: map<Group, Data>, macs: map<Group, set<Mac>>)
    requires Collected(rows, best, macs)
    ensures var key := GroupOf(r);
            Collected(rows + [r],
                      if key !in best || (!Empty(r.data.ip) && Empty(best[key].ip)) then best[key := r.data] else best,
                      macs[key := (if key in macs then macs[key] else {}) + {r.mac}])
  {
    hide Groups, MacsOf, Empty;
    var key := GroupOf(r);
    OneMoreRow(rows, r, key);
    var macs1 := macs[key := (if key in macs then macs[key] else {}) + {r.mac}];
    var best1 := if key !in best || (!Empty(r.data.ip) && Empty(best[key].ip)) then best[key := r.data] else best;
    forall g | g in best1 ensures Best(rows + [r], g) == Some(best1[g]) && macs1[g] == MacsOf(rows + [r], g) {
      OneMoreRow(rows, r, g);
    }
  }

  lemma CanonicalIsOfGroup(rows: seq<Interface>, g: Group)
    requires g in Groups(rows)
    ensures Canonical(rows, g) in MacsOf(rows, g) && forall m :: m in MacsOf(rows, g) ==> Canonical(rows, g) <= m
    ensures Canonical(rows, g) !in Strays(rows, g) && MacsOf(rows, g) == {Canonical(rows, g)} + Strays(rows, g)
  {
  }

  lemma GroupsApart(rows: seq<Interface>, g: Group, h: Group)
    requires OneNodeEach(rows) && g in Groups(rows) && h in Groups(rows) && g != h
    ensures MacsOf(rows, g) !! MacsOf(rows, h)
    ensures Canonical(rows, g) in MacsOf(rows, g) && Strays(rows, g) <= MacsOf(rows, g)
  {
  }

  lemma FoldedFrom(t0: Table, before: Table, t1: Table, canonical: Mac, strays: set<Mac>)
    requires Untouched(t0, before, {canonical} + strays) && GroupFolded(before, t1, canonical, strays)
    ensures GroupFolded(t0, t1, canonical, strays)
  {
    forall c ensures Folded(t0, canonical, strays, c, Cells(t1, canonical, c)) {
      assert Folded(before, canonical, strays, c, Cells(t1, canonical, c));
      assert forall m :: m in {canonical} + strays ==> Cells(t0, m, c) == Cells(before, m, c);
    }
  }

  lemma FoldedStays(t0: Table, before: Table, t1: Table, canonical: Mac, strays: set<Mac>)
    requires GroupFolded(t0, before, canonical, strays) && Untouched(before, t1, {canonical} + strays)
    ensures GroupFolded(t0, t1, canonical, strays)
  {
    assert Same(before, t1, canonical);
    forall s | s in strays ensures s !in t1 { assert Same(before, t1, s); }
    forall c ensures Folded(t0, canonical, strays, c, Cells(t1, canonical, c)) {
      assert Folded(t0, canonical, strays, c, Cells(before, canonical, c));
    }
  }

  lemma SyncedStays(t0: Table, before: Table, t1: Table, rows: seq<Interface>, g: Group)
    requires g in Groups(rows) && GroupSynced(t0, before, rows, g) && Untouched(before, t1, MacsOf(rows, g))
    ensures GroupSynced(t0, t1, rows, g)
  {
    var canonical, strays := Canonical(rows, g), Strays(rows, g);
    CanonicalIsOfGroup(rows, g);
    assert Same(before, t1, canonical);
    forall s | s in strays ensures s !in t1 { assert Same(before, t1, s); }
    forall c ensures Settled(t0, canonical, strays, Best(rows, g).value, c, Cells(t1, canonical, c)) {
      assert Settled(t0, canonical, strays, Best(rows, g).value, c, Cells(before, canonical, c));
    }
  }

  lemma UpsertSettles(t0: Table, before: Table, rows: seq<Interface>, g: Group)
    requires g in Groups(rows) && GroupFolded(t0, before, Canonical(rows, g), Strays(rows, g))
    ensures GroupSynced(t0, Upserted(before, Canonical(rows, g), Best(rows, g).value), rows, g)
  {
    var canonical, strays, d := Canonical(rows, g), Strays(rows, g), Best(rows, g).value;
    var t1 := Upserted(before, canonical, d);
    forall c ensures Settled(t0, canonical, strays, d, c, Cells(t1, canonical, c)) {
      assert Folded(t0, canonical, strays, c, Cells(before, canonical, c));
      UpsertedCell(before, canonical, d, c);
    }
  }

  /** Work on one group leaves what holds of the others. */
  lemma OthersUntouched(before: Table, t1: Table, rows: seq<Interface>, g: Group, h: Group)
    requires OneNodeEach(rows) && g in Groups(rows) && h in Groups(rows) && g != h
    requires forall m :: m !in MacsOf(rows, g) ==> Same(before, t1, m)
    ensures Untouched(before, t1, MacsOf(rows, h)) && Untouched(before, t1, {Canonical(rows, h)} + Strays(rows, h))
  {
    GroupsApart(rows, g, h);
    CanonicalIsOfGroup(rows, h);
  }

  lemma FoldElsewhere(t0: Table, before: Table, t1: Table, rows: seq<Interface>, g: Group)
    requires OneNodeEach(rows) && g in Groups(rows)
    requires forall m :: m !in MacsOf(rows, g) ==> Same(before, t1, m)
    ensures forall m :: Undiscovered(rows, m) ==> Same(before, t1, m)
    ensures forall h :: h in Groups(rows) && h != g ==> Untouched(before, t1, MacsOf(rows, h))
    ensures forall h :: h in Groups(rows) && h != g && GroupFolded(t0, before, Canonical(rows, h), Strays(rows, h)) ==>
      GroupFolded(t0, t1, Canonical(rows, h), Strays(rows, h))
  {
    forall h | h in Groups(rows) && h != g
      ensures Untouched(before, t1, MacsOf(rows, h))
      ensures GroupFolded(t0, before, Canonical(rows, h), Strays(rows, h)) ==>
        GroupFolded(t0, t1, Canonical(rows, h), Strays(rows, h))
    {
      OthersUntouched(before, t1, rows, g, h);
      if GroupFolded(t0, before, Canonical(rows, h), Strays(rows, h)) {
        FoldedStays(t0, before, t1, Canonical(rows, h), Strays(rows, h));
      }
    }
  }

  lemma UpsertElsewhere(t0: Table, before: Table, t1: Table, rows: seq<Interface>, g: Group)
    requires OneNodeEach(rows) && g in Groups(rows)
    requires t1 == Upserted(before, Canonical(rows, g), Best(rows, g).value)
    ensures forall m :: Undiscovered(rows, m) ==> Same(before, t1, m)
    ensures forall h :: h in Groups(rows) && h != g && GroupSynced(t0, before, rows, h) ==> GroupSynced(t0, t1, rows, h)
    ensures forall h :: h in Groups(rows) && h != g && GroupFolded(t0, before, Canonical(rows, h), Strays(rows, h)) ==>
      GroupFolded(t0, t1, Canonical(rows, h), Strays(rows, h))
  {
    CanonicalIsOfGroup(rows, g);
    forall m | m !in MacsOf(rows, g) ensures Same(before, t1, m) { }
    FoldElsewhere(t0, before, t1, rows, g);
    forall h | h in Groups(rows) && h != g && GroupSynced(t0, before, rows, h) ensures GroupSynced(t0, t1, rows, h) {
      SyncedStays(t0, before, t1, rows, h);
    }
  }

  lemma UpsertedCell(t: Table, m: Mac, d: Data, c: Column)
    ensures Cells(Upserted(t, m, d), m, c) == if BackFilled(c) && Empty(Cells(t, m, c))
      then Offered(d, c) else Cells(t, m, c)
  {
  }

  lemma FoldedCell(t0: Table, canonical: Mac, strays: set<Mac>, found: seq<Row>, own: map<Column, Cell>,
      fill: map<Column, Cell>, c: Column)
    requires own == if canonical in t0 then t0[canonical].human else map[]
    requires forall i :: 0 <= i < |found| ==> OfStray(t0, strays, found[i])
    requires forall s :: s in strays && s in t0 ==> t0[s] in found
    requires c in fill ==> !Empty(fill[c]) && (c in own ==> Empty(own[c])) && OneHas(found, c, fill[c])
    requires c !in fill && (c in own ==> Empty(own[c])) ==> NoneHas(found, c)
    ensures Folded(t0, canonical, strays, c, if c in fill then fill[c] else Cells(t0, canonical, c))
  {
    if c in fill {
      var i :| 0 <= i < |found| && c in found[i].human && found[i].human[c] == fill[c];
      var s :| s in strays && s in t0 && t0[s] == found[i];
      assert Cells(t0, s, c) == fill[c];
    } else if Empty(Cells(t0, canonical, c)) {
      forall s | s in strays ensures Empty(Cells(t0, s, c)) {
        if s in t0 {
          var i :| 0 <= i < |found| && found[i] == t0[s];
        }
      }
    }
  }

  function Upserted(t: Table, m: Mac, d: Data): Table {
    var h := if m in t then t[m].human else map[];
    var h1 := if Empty(Cells(t, m, UserGivenName)) then h[UserGivenName := d.hostname] else h;
    var h2 := if Empty(Cells(t, m, ConfirmedDeviceType)) then h1[ConfirmedDeviceType := d.deviceType] else h1;
    t[m := Row(h2, Some(d))]
  }

  ghost predicate OfStray(t: Table, strays: set<Mac>, row: Row) { exists s :: s in strays && s in t && t[s] == row }

  ghost predicate OneHas(found: seq<Row>, c: Column, v: Cell) {
    exists i :: 0 <= i < |found| && c in found[i].human && found[i].human[c] == v
  }

  ghost predicate NoneHas(found: seq<Row>, c: Column) {
    forall i :: 0 <= i < |found| && c in found[i].human ==> Empty(found[i].human[c])
  }

  lemma ColumnsComplete(c: Column)
    ensures c in COLUMNS
  {
    match c
    case UserGivenName => assert COLUMNS[0] == c;
    case ConfirmedDeviceType => assert COLUMNS[1] == c;
    case Notes => assert COLUMNS[2] == c;
    case Location => assert COLUMNS[3] == c;
    case AssetTag => assert COLUMNS[4] == c;
    case SerialNumber => assert COLUMNS[5] == c;
    case Model => assert COLUMNS[6] == c;
    case PurchaseDate => assert COLUMNS[7] == c;
    case WarrantyExpiry => assert COLUMNS[8] == c;
  }

  // ----- what a run promises ----------------------------------------------------------

  /** Nothing a human entered is lost: a column filled in any row of the device is filled in its one
      remaining row, with the canonical row's own value if that had one, else with a stray's, and
      only if no row had one with what discovery offers. */
  lemma NothingEnteredIsLost(t0: Table, rows: seq<Interface>, t1: Table, g: Group, c: Column)
    requires g in Groups(rows) && Synced(t0, rows, t1)
    ensures var macs, canonical := MacsOf(rows, g), Canonical(rows, g);
            var own, now := Cells(t0, canonical, c), Cells(t1, canonical, c);
            && (forall m :: m in macs ==> (m in t1 <==> m == canonical))
            && (!Empty(own) ==> now == own)
            && (Empty(own) && !AllEmpty(t0, macs, c) ==>
              exists s :: s in macs && s != canonical && !Empty(Cells(t0, s, c)) && Cells(t0, s, c) == now)
            && (AllEmpty(t0, macs, c) ==> now == if BackFilled(c) then Offered(Best(rows, g).value, c) else own)
  {
    CanonicalIsOfGroup(rows, g);
    var macs, canonical, strays := MacsOf(rows, g), Canonical(rows, g), Strays(rows, g);
    assert GroupSynced(t0, t1, rows, g);
    assert Settled(t0, canonical, strays, Best(rows, g).value, c, Cells(t1, canonical, c));
    assert AllEmpty(t0, macs, c) <==> Empty(Cells(t0, canonical, c)) && AllEmpty(t0, strays, c) by {
      assert forall m :: m in macs <==> m == canonical || m in strays;
    }
  }

  lemma EmptyMeans(c: Cell)
    ensures Empty(c) <==> c in {None, Some("")}
  {
    if c.Some? && c.value == "" {
      assert c == Some("");
    }
  }

  /** The same said outright, cell by cell. The row stands under the lowest MAC of the group. A cell with a
      value keeps it; an empty one takes the value of some other row of the group that has one; and
      where no row has one, the name takes the discovered host name and the type the discovered
      device type, whatever they are, and every other column stays as it was. */
  lemma CellsExactly(t0: Table, rows: seq<Interface>, t1: Table, g: Group, c: Column)
    requires g in Groups(rows) && Synced(t0, rows, t1)
    ensures var macs, canonical, d := MacsOf(rows, g), Canonical(rows, g), Best(rows, g).value;
            var own, now := Cells(t0, canonical, c), Cells(t1, canonical, c);
            && canonical in macs && (forall m :: m in macs ==> canonical <= m && (m in t1 <==> m == canonical))
            && t1[canonical].lastKnown == Some(d)
            && (own !in {None, Some("")} ==> now == own)
            && (own in {None, Some("")} && (exists m :: m in macs && Cells(t0, m, c) !in {None, Some("")}) ==>
                  now !in {None, Some("")} && exists m :: m in macs && Cells(t0, m, c) == now)
            && ((forall m :: m in macs ==> Cells(t0, m, c) in {None, Some("")}) ==>
                  now == if c.UserGivenName? then d.hostname else if c.ConfirmedDeviceType? then d.deviceType else own)
  {
    NothingEnteredIsLost(t0, rows, t1, g, c);
    CanonicalIsOfGroup(rows, g);
    assert GroupSynced(t0, t1, rows, g);
    forall m ensures Empty(Cells(t0, m, c)) <==> Cells(t0, m, c) in {None, Some("")} {
      EmptyMeans(Cells(t0, m, c));
    }
    EmptyMeans(Cells(t1, Canonical(rows, g), c));
  }

  /** A second run over the same interfaces changes no human cell of any row, and adds or removes none. */
  lemma SecondRunChangesNothing(t0: Table, rows: seq<Interface>, t1: Table, t2: Table, m: Mac, c: Column)
    requires Synced(t0, rows, t1) && Synced(t1, rows, t2)
    ensures m in t1 <==> m in t2
    ensures Cells(t2, m, c) == Cells(t1, m, c)
    ensures m in t1 ==> t1[m].lastKnown == t2[m].lastKnown
  {
    if r :| r in rows && r.mac == m {
      var g := GroupOf(r);
      assert m in MacsOf(rows, g);
      CanonicalIsOfGroup(rows, g);
      NothingEnteredIsLost(t0, rows, t1, g, c);
      NothingEnteredIsLost(t1, rows, t2, g, c);
      assert GroupSynced(t0, t1, rows, g) && GroupSynced(t1, t2, rows, g);
    } else {
      assert Same(t1, t2, m);
    }
  }

  /** The back-fill makes an automatic value look entered: once written, a later run keeps it even
      when discovery has learned another name, so the column cannot tell the two apart. */
  lemma BackFillSticks(t0: Table, before: seq<Interface>, t1: Table, after: seq<Interface>, t2: Table, g: Group,
      c: Column)
    requires Synced(t0, before, t1) && Synced(t1, after, t2) && g in Groups(before) && g in Groups(after)
    requires Canonical(before, g) == Canonical(after, g) && BackFilled(c) && AllEmpty(t0, MacsOf(before, g), c)
    requires !Empty(Offered(Best(before, g).value, c))
    ensures Cells(t2, Canonical(after, g), c) == Offered(Best(before, g).value, c)
  {
    NothingEnteredIsLost(t0, before, t1, g, c);
    NothingEnteredIsLost(t1, after, t2, g, c);
  }
}
