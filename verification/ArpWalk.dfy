/** Step 35 of src/engine/snmp_pipeline.py: which rows of a router's ARP table count as presence and
    which addresses the router itself has given up on. Rows start as parsed lines. */
module ArpWalk {

  type Ip = string
  type Mac = string
  type IfIndex = string

  /** ipNetToMediaType of one row; 3 (dynamic) and 4 (static) are presence. */
  datatype TypeRow = TypeRow(ifIndex: IfIndex, ip: Ip, kind: nat)

  /** ipNetToMediaPhysAddress of one row; `wellFormed`: six octets, not all zero. */
  datatype ArpRow = ArpRow(ifIndex: IfIndex, ip: Ip, mac: Mac, wellFormed: bool)

  datatype Result = NoData | Data(valid: map<Mac, Ip>, stale: set<Ip>)

  predicate Present(t: TypeRow) { t.kind == 3 || t.kind == 4 }

  predicate Listed(types: seq<TypeRow>, ifIndex: IfIndex, ip: Ip) {
    exists t :: t in types && t.ifIndex == ifIndex && t.ip == ip
  }

  /** The interface row itself is marked as given up. */
  predicate RowStale(types: seq<TypeRow>, ifIndex: IfIndex, ip: Ip) {
    exists t :: t in types && t.ifIndex == ifIndex && t.ip == ip && !Present(t)
  }

  predicate Confirmed(types: seq<TypeRow>, ip: Ip) { exists t :: t in types && t.ip == ip && Present(t) }

  predicate Seen(types: seq<TypeRow>, ip: Ip) { exists t :: t in types && t.ip == ip }

  /** Local addresses, loopback excluded. */
  predicate Counts(types: seq<TypeRow>, r: ArpRow, onLan: Ip -> bool) {
    onLan(r.ip) && r.wellFormed && !RowStale(types, r.ifIndex, r.ip)
  }

  /** A row counts for a local address and a well-formed MAC, unless its own interface row is listed
      with a type other than dynamic and static. */
  lemma CountsMeans(types: seq<TypeRow>, r: ArpRow, onLan: Ip -> bool)
    ensures Counts(types, r, onLan) <==>
      && onLan(r.ip) && r.wellFormed
      && (forall i :: 0 <= i < |types| && types[i].ifIndex == r.ifIndex && types[i].ip == r.ip ==>
            types[i].kind in {3, 4})
  {
    if onLan(r.ip) && r.wellFormed && !Counts(types, r, onLan) {
      var t :| t in types && t.ifIndex == r.ifIndex && t.ip == r.ip && !Present(t);
      var i :| 0 <= i < |types| && types[i] == t;
      assert types[i].kind !in {3, 4};
    }
  }

  /** One row of the index the walk goes by: the OID of a row names its interface and address once. */
  ghost predicate OneRowEach(types: seq<TypeRow>) {
    forall t, s :: t in types && s in types && t.ifIndex == s.ifIndex && t.ip == s.ip ==> t == s
  }

  /** The last counting row of a MAC says where it is. */
  ghost predicate LastRowOf(arp: seq<ArpRow>, types: seq<TypeRow>, onLan: Ip -> bool, mac: Mac, i: int) {
    && 0 <= i < |arp| && arp[i].mac == mac && Counts(types, arp[i], onLan)
    && forall j :: i < j < |arp| && arp[j].mac == mac ==> !Counts(types, arp[j], onLan)
  }

  ghost predicate Reported(arp: seq<ArpRow>, types: seq<TypeRow>, onLan: Ip -> bool, valid: map<Mac, Ip>) {
    && (forall i :: 0 <= i < |arp| && Counts(types, arp[i], onLan) ==> arp[i].mac in valid)
    && (forall m :: m in valid ==> exists i :: LastRowOf(arp, types, onLan, m, i) && arp[i].ip == valid[m])
  }

  /** The type walk: what is stale row by row, and address by address. */
  method ReadTypes(types: seq<TypeRow>) returns (staleEntries: set<(IfIndex, Ip)>, staleIps: set<Ip>)
    ensures forall k, ip :: (k, ip) in staleEntries <==> RowStale(types, k, ip)
    ensures forall ip :: ip in staleIps <==> Seen(types, ip) && !Confirmed(types, ip)
  {
    staleEntries := {};
    var ipSeen, ipHasValidEntry: set<Ip> := {}, {};
    for i := 0 to |types|
      invariant forall k, ip :: (k, ip) in staleEntries <==> RowStale(types[..i], k, ip)
      invariant forall ip :: ip in ipSeen <==> Seen(types[..i], ip)
      invariant forall ip :: ip in ipHasValidEntry <==> Confirmed(types[..i], ip)
    {
      var t := types[i];
      assert types[..i + 1] == types[..i] + [t];
      ipSeen := ipSeen + {t.ip};
      if Present(t) {
        ipHasValidEntry := ipHasValidEntry + {t.ip};
      } else {
        staleEntries := staleEntries + {(t.ifIndex, t.ip)};
      }
    }
    assert types[..|types|] == types;
    staleIps := ipSeen - ipHasValidEntry;
  }

  method ReadRows(arp: seq<ArpRow>, ghost types: seq<TypeRow>, staleEntries: set<(IfIndex, Ip)>, onLan: Ip -> bool)
    returns (valid: map<Mac, Ip>)
    requires forall k, ip :: (k, ip) in staleEntries <==> RowStale(types, k, ip)
    ensures Reported(arp, types, onLan, valid)
  {
    valid := map[];
    for i := 0 to |arp|
      invariant Reported(arp[..i], types, onLan, valid)
    {
      var r := arp[i];
      assert arp[..i + 1] == arp[..i] + [r];
      OneMoreRow(arp[..i], types, onLan, valid, r);
      if onLan(r.ip) && (r.ifIndex, r.ip) !in staleEntries && r.wellFormed {
        valid := valid[r.mac := r.ip];
      }
    }
    assert arp[..|arp|] == arp;
  }

  lemma OneMoreRow(arp: seq<ArpRow>, types: seq<TypeRow>, onLan: Ip -> bool, valid: map<Mac, Ip>, r: ArpRow)
    requires Reported(arp, types, onLan, valid)
    ensures Reported(arp + [r], types, onLan, if Counts(types, r, onLan) then valid[r.mac := r.ip] else valid)
  {
    var more := arp + [r];
    var after := if Counts(types, r, onLan) then valid[r.mac := r.ip] else valid;
    forall m | m in after ensures exists i :: LastRowOf(more, types, onLan, m, i) && more[i].ip == after[m] {
      if m == r.mac && Counts(types, r, onLan) {
        assert LastRowOf(more, types, onLan, m, |arp|);
      } else {
        var i :| LastRowOf(arp, types, onLan, m, i) && arp[i].ip == valid[m];
        assert LastRowOf(more, types, onLan, m, i) && more[i].ip == after[m];
      }
    }
  }

  /** step_35_arp. An empty first walk is no data; a failed second walk comes as no type rows and
      filters nothing. */
  method Step35Arp(arp: seq<ArpRow>, types: seq<TypeRow>, onLan: Ip -> bool) returns (result: Result)
    ensures result.NoData? ==> forall i :: 0 <= i < |arp| ==> !Counts(types, arp[i], onLan)
    ensures result.Data? ==> Reported(arp, types, onLan, result.valid)
    ensures result.Data? ==> forall ip :: ip in result.stale <==>
      (exists t :: t in types && t.ip == ip) && forall t :: t in types && t.ip == ip ==> t.kind !in {3, 4}
    ensures arp != [] && result.NoData? ==> forall ip :: Seen(types, ip) ==> Confirmed(types, ip)
  {
    if arp == [] {
      return NoData;
    }
    var staleEntries, staleIps := ReadTypes(types);
    var valid := ReadRows(arp, types, staleEntries, onLan);
    if valid == map[] && staleIps == {} {
      return NoData;
    }
    return Data(valid, staleIps);
  }

  // ----- what it means ----------------------------------------------------------------

  /** A ghost entry on one interface never hides the device on another: a row the router confirms is
      reported, whatever the router says of the same address elsewhere, and its address is not
      retired. */
  lemma GhostHidesNothing(arp: seq<ArpRow>, types: seq<TypeRow>, onLan: Ip -> bool, valid: map<Mac, Ip>, i: nat,
      t: TypeRow)
    requires OneRowEach(types) && Reported(arp, types, onLan, valid)
    requires i < |arp| && onLan(arp[i].ip) && arp[i].wellFormed
    requires t in types && t.ifIndex == arp[i].ifIndex && t.ip == arp[i].ip && Present(t)
    ensures arp[i].mac in valid && Confirmed(types, arp[i].ip)
  {
    assert !RowStale(types, arp[i].ifIndex, arp[i].ip);
    assert Counts(types, arp[i], onLan);
  }

  /** An address is retired and reported by the same walk exactly when the router gave it up on every
      interface the second walk showed, and the first walk showed it for some MAC, last of all, on an
      interface the second walk did not. */
  lemma RetiredAndReportedIff(arp: seq<ArpRow>, types: seq<TypeRow>, onLan: Ip -> bool, valid: map<Mac, Ip>,
      stale: set<Ip>, ip: Ip)
    requires Reported(arp, types, onLan, valid)
    requires forall x :: x in stale <==> Seen(types, x) && !Confirmed(types, x)
    ensures ip in stale && ip in valid.Values
            <==> Seen(types, ip) && !Confirmed(types, ip) && exists i :: UnlistedLast(arp, types, onLan, ip, i)
  {
    if ip in stale && ip in valid.Values {
      var m :| m in valid && valid[m] == ip;
      var i :| LastRowOf(arp, types, onLan, m, i) && arp[i].ip == valid[m];
      assert UnlistedLast(arp, types, onLan, ip, i);
    }
    if i :| UnlistedLast(arp, types, onLan, ip, i) {
      var m := arp[i].mac;
      assert m in valid;
      var j :| LastRowOf(arp, types, onLan, m, j) && arp[j].ip == valid[m];
      assert i == j;
    }
  }

  ghost predicate UnlistedLast(arp: seq<ArpRow>, types: seq<TypeRow>, onLan: Ip -> bool, ip: Ip, i: int) {
    0 <= i < |arp| && arp[i].ip == ip && !Listed(types, arp[i].ifIndex, ip)
      && LastRowOf(arp, types, onLan, arp[i].mac, i)
  }
}
