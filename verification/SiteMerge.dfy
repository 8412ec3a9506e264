/** The cross-site inventory merge of src/api/server.py: rows pulled from other instances fill
    empty local cells and never replace a value. */
module SiteMerge {
  import opened Common

  type Column = string
  /** A SQL or JSON value: NULL or text. */
  type Cell = Option<string>
  /** One device of a decrypted blob, as its JSON object. */
  type Device = map<Column, Cell>
  type Row = map<Column, Cell>
  type Table = map<string, Row>
  /** Each column of verified_devices with the value a fresh row gets when none is given: NULL, or
      the clock for the two timestamp columns. */
  type Schema = map<Column, Cell>
  datatype Blob = Blob(instance: string, devices: seq<Device>)

  const MAC: Column := "mac_address"

  predicate Empty(c: Cell) { c.None? || c.value == "" }

  /** What a cell shows: its text, with NULL and "" alike. */
  function Shown(c: Cell): Option<string> { if Empty(c) then None else c }

  function Field(d: Device, c: Column): Cell { if c in d then d[c] else None }

  function At(t: Table, mac: string, c: Column): Cell { if mac in t then Field(t[mac], c) else None }

  // ----- one device -------------------------------------------------------------------

  function FreshRow(schema: Schema, d: Device): Row { map c | c in schema :: if c in d then d[c] else schema[c] }

  predicate Fills(row: Row, d: Device, c: Column) { c != MAC && c in row && c in d && Empty(row[c]) && !Empty(d[c]) }

  function FilledRow(row: Row, d: Device): Row { map c | c in row :: if Fills(row, d, c) then d[c] else row[c] }

  predicate Usable(d: Device) { !Empty(Field(d, MAC)) }

  function Absorb(schema: Schema, t: Table, d: Device): Table {
    if !Usable(d) then t
    else
      var mac := d[MAC].value;
      t[mac := if mac in t then FilledRow(t[mac], d) else FreshRow(schema, d)]
  }

  /** 1 when the device causes a write: a new row, or a cell to fill. */
  function Writes(t: Table, d: Device): nat {
    if !Usable(d) then 0
    else if d[MAC].value !in t then 1
    else if exists c :: c in d && Fills(t[d[MAC].value], d, c) then 1
    else 0
  }

  /** Every row has exactly the columns of the schema, and its key as its MAC. */
  ghost predicate WellFormed(schema: Schema, t: Table) {
    && MAC in schema
    && forall m :: m in t ==> t[m].Keys == schema.Keys
  }

  lemma AbsorbKeepsShape(schema: Schema, t: Table, d: Device)
    requires WellFormed(schema, t)
    ensures WellFormed(schema, Absorb(schema, t, d))
  {
  }

  /** What one device does, cell by cell. It adds its row, with its own values and the columns' defaults, if
      there is none; else it fills the cells that are NULL or "" with its values that are neither,
      and leaves every other cell, and every other row, as it is. */
  lemma AbsorbExactly(schema: Schema, t: Table, d: Device, mac: string, c: Column)
    requires WellFormed(schema, t) && c in schema
    ensures var u := Absorb(schema, t, d);
            var about := MAC in d && d[MAC] == Some(mac) && mac != "";
            && (mac in u <==> mac in t || about)
            && (mac in u ==> u[mac].Keys == schema.Keys)
            && (mac in t ==>
                  var fill := about && c != MAC && t[mac][c] in {None, Some("")} && c in d && d[c] !in {None, Some("")};
                  u[mac][c] == if fill then d[c] else t[mac][c])
            && (mac !in t && about ==> u[mac][c] == if c in d then d[c] else schema[c])
  {
  }

  /** A device counts exactly if it changes the table. */
  lemma WritesExactly(schema: Schema, t: Table, d: Device)
    requires WellFormed(schema, t)
    ensures Writes(t, d) == if Absorb(schema, t, d) == t then 0 else 1
  {
    if Usable(d) && d[MAC].value in t {
      var mac := d[MAC].value;
      var u := Absorb(schema, t, d);
      if c :| c in d && Fills(t[mac], d, c) {
        assert u[mac][c] != t[mac][c];
      } else {
        KnownChangesNothing(schema, t, d);
      }
    }
  }

  // ----- a sequence of devices --------------------------------------------------------

  function AbsorbAll(schema: Schema, t: Table, ds: seq<Device>): Table {
    if ds == [] then t else Absorb(schema, AbsorbAll(schema, t, ds[..|ds| - 1]), ds[|ds| - 1])
  }

  function WritesAll(schema: Schema, t: Table, ds: seq<Device>): nat {
    if ds == [] then 0
    else WritesAll(schema, t, ds[..|ds| - 1]) + Writes(AbsorbAll(schema, t, ds[..|ds| - 1]), ds[|ds| - 1])
  }

  lemma {:induction false} AbsorbAllKeepsShape(schema: Schema, t: Table, ds: seq<Device>)
    requires WellFormed(schema, t)
    ensures WellFormed(schema, AbsorbAll(schema, t, ds))
  {
    if ds != [] {
      AbsorbAllKeepsShape(schema, t, ds[..|ds| - 1]);
      AbsorbKeepsShape(schema, AbsorbAll(schema, t, ds[..|ds| - 1]), ds[|ds| - 1]);
    }
  }

  lemma {:induction false} AbsorbAllAppends(schema: Schema, t: Table, a: seq<Device>, b: seq<Device>)
    ensures AbsorbAll(schema, t, a + b) == AbsorbAll(schema, AbsorbAll(schema, t, a), b)
    ensures WritesAll(schema, t, a + b) == WritesAll(schema, t, a) + WritesAll(schema, AbsorbAll(schema, t, a), b)
  {
    if b == [] {
      assert a + b == a;
    } else {
      AbsorbAllAppends(schema, t, a, b[..|b| - 1]);
      assert (a + b)[..|a + b| - 1] == a + b[..|b| - 1];
    }
  }

  // ----- the cell a merge leaves ------------------------------------------------------

  function OrElse(a: Option<string>, b: Option<string>): Option<string> { if a.Some? then a else b }

  predicate About(d: Device, mac: string) { Usable(d) && d[MAC].value == mac }

  /** The first non-empty value a sequence of devices offers for a cell. */
  function FirstOffer(ds: seq<Device>, mac: string, c: Column): Option<string> {
    if ds == [] then None
    else OrElse(FirstOffer(ds[..|ds| - 1], mac, c),
      if About(ds[|ds| - 1], mac) then Shown(Field(ds[|ds| - 1], c)) else None)
  }

  /** What FirstOffer means: it is offered by some device, no earlier device about this MAC offers
      anything, and it is absent only when nobody does. */
  lemma {:induction false} FirstOfferIsFirst(ds: seq<Device>, mac: string, c: Column)
    ensures FirstOffer(ds, mac, c).None? ==> forall i :: 0 <= i < |ds| && About(ds[i], mac) ==> Empty(Field(ds[i], c))
    ensures FirstOffer(ds, mac, c).Some? ==>
      exists i :: IsFirstOffer(ds, mac, c, i) && FirstOffer(ds, mac, c) == Field(ds[i], c)
  {
    if ds != [] {
      var rest := ds[..|ds| - 1];
      FirstOfferIsFirst(rest, mac, c);
      if FirstOffer(rest, mac, c).Some? {
        var i :| IsFirstOffer(rest, mac, c, i) && FirstOffer(rest, mac, c) == Field(rest[i], c);
        assert IsFirstOffer(ds, mac, c, i);
      } else if FirstOffer(ds, mac, c).Some? {
        assert IsFirstOffer(ds, mac, c, |ds| - 1);
      }
    }
  }

  ghost predicate IsFirstOffer(ds: seq<Device>, mac: string, c: Column, i: int) {
    && 0 <= i < |ds| && About(ds[i], mac) && !Empty(Field(ds[i], c))
    && forall j :: 0 <= j < i && About(ds[j], mac) ==> Empty(Field(ds[j], c))
  }

  /** The first device about a MAC, whose row is inserted if there is none. */
  function FirstAbout(ds: seq<Device>, mac: string): (d: Option<Device>)
    ensures d.Some? ==> About(d.value, mac) && d.value in ds
    ensures d.None? ==> forall i :: 0 <= i < |ds| ==> !About(ds[i], mac)
  {
    if ds == [] then None
    else
      var before := FirstAbout(ds[..|ds| - 1], mac);
      if before.Some? then before else if About(ds[|ds| - 1], mac) then Some(ds[|ds| - 1]) else None
  }

  /** What a cell shows when its row first exists: the local value, or the value or else the column's
      default of the row as it is inserted. */
  function StartCell(schema: Schema, t: Table, ds: seq<Device>, mac: string, c: Column): Option<string>
    requires c in schema
  {
    if mac in t then Shown(At(t, mac, c))
    else
      match FirstAbout(ds, mac)
      case None => None
      case Some(d) => Shown(if c in d then d[c] else schema[c])
  }

  lemma AbsorbCell(schema: Schema, t: Table, d: Device, mac: string, c: Column)
    requires WellFormed(schema, t) && c in schema && c != MAC
    ensures mac in Absorb(schema, t, d) <==> mac in t || About(d, mac)
    ensures Shown(At(Absorb(schema, t, d), mac, c))
            == if !About(d, mac) then Shown(At(t, mac, c))
               else if mac in t then OrElse(Shown(At(t, mac, c)), Shown(Field(d, c)))
               else Shown(if c in d then d[c] else schema[c])
  {
  }

  /** The merge as a left-biased fold, for every column and whatever the devices leave out: each cell
      shows its first value, from the local row or the inserted one with its defaults, and failing
      that the first non-empty value of the remote rows in order. */
  lemma {:induction false} MergedCell(schema: Schema, t: Table, ds: seq<Device>, mac: string, c: Column)
    requires WellFormed(schema, t) && c in schema && c != MAC
    ensures mac in AbsorbAll(schema, t, ds) <==> mac in t || FirstAbout(ds, mac).Some?
    ensures Shown(At(AbsorbAll(schema, t, ds), mac, c)) ==
      OrElse(StartCell(schema, t, ds, mac, c), FirstOffer(ds, mac, c))
  {
    if ds != [] {
      var rest, d := ds[..|ds| - 1], ds[|ds| - 1];
      MergedCell(schema, t, rest, mac, c);
      AbsorbAllKeepsShape(schema, t, rest);
      AbsorbCell(schema, AbsorbAll(schema, t, rest), d, mac, c);
      if FirstAbout(rest, mac).None? {
        NoOfferWithoutDevice(rest, mac, c);
      }
    }
  }

  lemma {:induction false} NoOfferWithoutDevice(ds: seq<Device>, mac: string, c: Column)
    requires FirstAbout(ds, mac).None?
    ensures FirstOffer(ds, mac, c).None?
  {
    if ds != [] {
      NoOfferWithoutDevice(ds[..|ds| - 1], mac, c);
    }
  }

  /** No default is used: the column has none, or every device about this MAC names it, as in a full
      export. */
  predicate NoDefaultUsed(schema: Schema, ds: seq<Device>, mac: string, c: Column)
    requires c in schema
  {
    schema[c].None? || forall i :: 0 <= i < |ds| && About(ds[i], mac) ==> c in ds[i]
  }

  /** Then a cell shows the first non-empty value of the local row, then the remote rows in order. */
  lemma MergedWithoutDefault(schema: Schema, t: Table, ds: seq<Device>, mac: string, c: Column)
    requires WellFormed(schema, t) && c in schema && c != MAC && NoDefaultUsed(schema, ds, mac, c)
    ensures Shown(At(AbsorbAll(schema, t, ds), mac, c)) == OrElse(Shown(At(t, mac, c)), FirstOffer(ds, mac, c))
  {
    hide AbsorbAll, FirstOffer, FirstAbout, WellFormed;
    MergedCell(schema, t, ds, mac, c);
    if mac !in t && FirstAbout(ds, mac).Some? {
      var d := FirstAbout(ds, mac).value;
      var k :| 0 <= k < |ds| && ds[k] == d;
      FirstDeviceDecides(ds, mac, c);
    }
  }

  lemma {:induction false} FirstDeviceDecides(ds: seq<Device>, mac: string, c: Column)
    requires FirstAbout(ds, mac).Some?
    ensures OrElse(Shown(Field(FirstAbout(ds, mac).value, c)), FirstOffer(ds, mac, c)) == FirstOffer(ds, mac, c)
  {
    var rest := ds[..|ds| - 1];
    if FirstAbout(rest, mac).Some? {
      FirstDeviceDecides(rest, mac, c);
    } else {
      NoOfferWithoutDevice(rest, mac, c);
    }
  }

  // ----- repeating a pull -------------------------------------------------------------

  /** Nothing in the device is news to the table. */
  ghost predicate Known(t: Table, d: Device) {
    Usable(d) ==> d[MAC].value in t && forall c :: c in d ==> !Fills(t[d[MAC].value], d, c)
  }

  lemma KnownChangesNothing(schema: Schema, t: Table, d: Device)
    requires Known(t, d)
    ensures Absorb(schema, t, d) == t && Writes(t, d) == 0
  {
    if Usable(d) {
      var row := t[d[MAC].value];
      assert forall c :: c in row ==> FilledRow(row, d)[c] == row[c];
      assert FilledRow(row, d) == row;
    }
  }

  lemma AbsorbMakesKnown(schema: Schema, t: Table, d: Device)
    requires WellFormed(schema, t)
    ensures Known(Absorb(schema, t, d), d)
  {
  }

  lemma AbsorbKeepsKnown(schema: Schema, t: Table, d: Device, known: Device)
    requires WellFormed(schema, t) && Known(t, known)
    ensures Known(Absorb(schema, t, d), known)
  {
  }

  lemma {:induction false} AllKnown(schema: Schema, t: Table, ds: seq<Device>)
    requires WellFormed(schema, t)
    ensures forall d :: d in ds ==> Known(AbsorbAll(schema, t, ds), d)
  {
    if ds != [] {
      var rest, last := ds[..|ds| - 1], ds[|ds| - 1];
      AllKnown(schema, t, rest);
      AbsorbAllKeepsShape(schema, t, rest);
      var mid := AbsorbAll(schema, t, rest);
      AbsorbMakesKnown(schema, mid, last);
      forall d | d in ds ensures Known(AbsorbAll(schema, t, ds), d) {
        if d in rest {
          AbsorbKeepsKnown(schema, mid, last, d);
        }
      }
    }
  }

  lemma {:induction false} KnownAllChangesNothing(schema: Schema, t: Table, ds: seq<Device>)
    requires forall d :: d in ds ==> Known(t, d)
    ensures AbsorbAll(schema, t, ds) == t && WritesAll(schema, t, ds) == 0
  {
    if ds != [] {
      KnownAllChangesNothing(schema, t, ds[..|ds| - 1]);
      KnownChangesNothing(schema, t, ds[|ds| - 1]);
    }
  }

  /** A repeated pull changes nothing and reports 0 rows written. */
  lemma RepeatIsNoOp(schema: Schema, t: Table, ds: seq<Device>)
    requires WellFormed(schema, t)
    ensures var once := AbsorbAll(schema, t, ds);
            AbsorbAll(schema, once, ds) == once && WritesAll(schema, once, ds) == 0
  {
    AllKnown(schema, t, ds);
    KnownAllChangesNothing(schema, AbsorbAll(schema, t, ds), ds);
  }

  // ----- the method -------------------------------------------------------------------

  /** The devices a pull takes in: every blob but this instance's own, in order. */
  function Incoming(own: string, blobs: seq<Blob>): seq<Device> {
    if blobs == [] then []
    else Incoming(own, blobs[..|blobs| - 1]) + Taken(own, blobs[|blobs| - 1])
  }

  /** What one blob adds. */
  function Taken(own: string, blob: Blob): seq<Device> { if blob.instance == own then [] else blob.devices }

  /** A pull takes in every device of the other instances' blobs, and no other. */
  lemma {:induction false} IncomingIsForeign(own: string, blobs: seq<Blob>, d: Device)
    ensures d in Incoming(own, blobs) <==> exists b :: b in blobs && b.instance != own && d in b.devices
  {
    if blobs != [] {
      var rest, last := blobs[..|blobs| - 1], blobs[|blobs| - 1];
      IncomingIsForeign(own, rest, d);
      assert forall b :: b in blobs <==> b in rest || b == last;
    }
  }

  lemma {:induction false} IncomingAppends(own: string, a: seq<Blob>, b: seq<Blob>)
    ensures Incoming(own, a + b) == Incoming(own, a) + Incoming(own, b)
  {
    if b == [] {
      assert a + b == a;
    } else {
      var rest := b[..|b| - 1];
      IncomingAppends(own, a, rest);
      LastBlob(a, b);
      Regroup(Incoming(own, a), Incoming(own, rest), Taken(own, b[|b| - 1]));
    }
  }

  lemma LastBlob(a: seq<Blob>, b: seq<Blob>)
    requires b != []
    ensures (a + b)[..|a + b| - 1] == a + b[..|b| - 1] && (a + b)[|a + b| - 1] == b[|b| - 1]
  {
  }

  lemma Regroup(a: seq<Device>, b: seq<Device>, c: seq<Device>)
    ensures (a + b) + c == a + (b + c)
  {
  }

  class Inventory {
    const schema: Schema
    var verified: Table

    /** One device of one foreign blob. */
    method MergeDevice(d: Device) returns (wrote: nat)
      requires WellFormed(schema, verified)
      modifies this`verified
      ensures verified == Absorb(schema, old(verified), d) && wrote == Writes(old(verified), d)
    {
      if MAC !in d || Empty(d[MAC]) {
        return 0;
      }
      var mac := d[MAC].value;
      if mac !in verified {
        verified := verified[mac := FreshRow(schema, d)];
        return 1;
      }
      var existing := verified[mac];
      var fill := map c | c in d && c in schema && c != MAC && Empty(existing[c]) && !Empty(d[c]) :: d[c];
      assert forall c :: c in fill <==> c in d && Fills(existing, d, c);
      assert existing + fill == FilledRow(existing, d);
      if fill.Keys != {} {
        var c :| c in fill;
        assert c in d && Fills(existing, d, c);
        verified := verified[mac := existing + fill];
        return 1;
      }
      assert existing + fill == existing;
      return 0;
    }

    method MergeBlob(blob: Blob) returns (written: nat)
      requires WellFormed(schema, verified)
      modifies this`verified
      ensures WellFormed(schema, verified)
      ensures verified == AbsorbAll(schema, old(verified), blob.devices)
      ensures written == WritesAll(schema, old(verified), blob.devices)
    {
      written := 0;
      ghost var before := verified;
      for i := 0 to |blob.devices|
        invariant WellFormed(schema, verified)
        invariant verified == AbsorbAll(schema, before, blob.devices[..i])
        invariant written == WritesAll(schema, before, blob.devices[..i])
      {
        assert blob.devices[..i + 1][..i] == blob.devices[..i];
        AbsorbKeepsShape(schema, verified, blob.devices[i]);
        var wrote := MergeDevice(blob.devices[i]);
        written := written + wrote;
      }
      assert blob.devices[..|blob.devices|] == blob.devices;
    }

    /** _merge_pulled_devices */
    method MergePulledDevices(own: string, blobs: seq<Blob>) returns (written: nat)
      requires WellFormed(schema, verified)
      modifies this`verified
      ensures WellFormed(schema, verified)
      ensures verified == AbsorbAll(schema, old(verified), Incoming(own, blobs))
      ensures written == WritesAll(schema, old(verified), Incoming(own, blobs))
    {
      written := 0;
      ghost var before := verified;
      for i := 0 to |blobs|
        invariant WellFormed(schema, verified)
        invariant verified == AbsorbAll(schema, before, Incoming(own, blobs[..i]))
        invariant written == WritesAll(schema, before, Incoming(own, blobs[..i]))
      {
        assert blobs[..i + 1][..i] == blobs[..i];
        ghost var sofar := Incoming(own, blobs[..i]);
        if blobs[i].instance == own {
          assert Incoming(own, blobs[..i + 1]) == sofar;
          continue;
        }
        AbsorbAllAppends(schema, before, sofar, blobs[i].devices);
        var more := MergeBlob(blobs[i]);
        written := written + more;
      }
      assert blobs[..|blobs|] == blobs;
    }
  }

  /** Two pulls come to the same as one pull of all the blobs: same table, and the counts add up. */
  lemma TwoPullsAreOne(schema: Schema, t: Table, own: string, a: seq<Blob>, b: seq<Blob>)
    ensures var mid := AbsorbAll(schema, t, Incoming(own, a));
            && AbsorbAll(schema, mid, Incoming(own, b)) == AbsorbAll(schema, t, Incoming(own, a + b))
            && WritesAll(schema, t, Incoming(own, a)) + WritesAll(schema, mid, Incoming(own, b)) ==
              WritesAll(schema, t, Incoming(own, a + b))
  {
    IncomingAppends(own, a, b);
    AbsorbAllAppends(schema, t, Incoming(own, a), Incoming(own, b));
  }

  // ----- two sites exchange -----------------------------------------------------------

  /** `SELECT * FROM verified_devices`: every row once or more, in any order, nothing else. */
  ghost predicate Exports(t: Table, ds: seq<Device>) {
    && (forall i :: 0 <= i < |ds| ==> Usable(ds[i]) && ds[i][MAC].value in t && ds[i] == t[ds[i][MAC].value])
    && (forall m :: m in t ==> t[m] in ds)
  }

  /** The stored key is the row's own MAC, and never empty. */
  ghost predicate Keyed(t: Table) { forall m :: m in t ==> m != "" && Field(t[m], MAC) == Some(m) }

  lemma ExportOffersTheCell(schema: Schema, t: Table, ds: seq<Device>, mac: string, c: Column)
    requires WellFormed(schema, t) && Keyed(t) && Exports(t, ds) && c in schema
    ensures FirstOffer(ds, mac, c) == Shown(At(t, mac, c))
    ensures NoDefaultUsed(schema, ds, mac, c)
  {
    FirstOfferIsFirst(ds, mac, c);
    if mac in t {
      var i :| 0 <= i < |ds| && ds[i] == t[mac];
      assert About(ds[i], mac);
    }
  }

  /** The two sites disagree on a cell: both show something, and not the same. */
  predicate Conflict(a: Table, b: Table, mac: string, c: Column) {
    !Empty(At(a, mac, c)) && !Empty(At(b, mac, c)) && At(a, mac, c) != At(b, mac, c)
  }

  /** After two sites pull each other's full table, the same cells are non-empty on both; a cell
      shows the same on both exactly when they did not disagree on it before. */
  lemma ExchangeAgrees(schema: Schema, a: Table, b: Table, fromA: seq<Device>, fromB: seq<Device>, mac: string,
      c: Column)
    requires WellFormed(schema, a) && WellFormed(schema, b) && Keyed(a) && Keyed(b)
    requires Exports(a, fromA) && Exports(b, fromB) && c in schema && c != MAC
    ensures var a2, b2 := AbsorbAll(schema, a, fromB), AbsorbAll(schema, b, fromA);
            && (Empty(At(a2, mac, c)) <==> Empty(At(b2, mac, c)))
            && (Empty(At(a2, mac, c)) <==> Empty(At(a, mac, c)) && Empty(At(b, mac, c)))
            && (Shown(At(a2, mac, c)) == Shown(At(b2, mac, c)) <==> !Conflict(a, b, mac, c))
  {
    ExportOffersTheCell(schema, a, fromA, mac, c);
    ExportOffersTheCell(schema, b, fromB, mac, c);
    MergedWithoutDefault(schema, a, fromB, mac, c);
    MergedWithoutDefault(schema, b, fromA, mac, c);
  }
}
