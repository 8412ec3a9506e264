/** The SNMP finding detectors: snmp_default_community_detector.py (passive and active) and
    snmp_v3_available_detector.py. Each opens and resolves its own finding type, one alert per
    change, on a connection where any statement may raise. */
module Findings {
  import opened Common
  import opened SnmpCredential
  import opened AlertStore

  type Ip = string

  /** l3_bindings (IP to MAC) and l2_interfaces (MAC to node, None for NULL). */
  datatype Network = Network(l3: map<Ip, Mac>, l2: map<Mac, Option<nat>>)

  const DEFAULT_COMMUNITIES := {"public", "private"}

  function LowerChar(c: char): char {
    if 'A' <= c <= 'Z' then ((c as int) - ('A' as int) + ('a' as int)) as char else c
  }

  function Lower(s: string): string { seq(|s|, i requires 0 <= i < |s| => LowerChar(s[i])) }

  // ----- _canonical_mac ---------------------------------------------------------------

  predicate Welded(net: Network, mac: Mac) { mac in net.l2 && net.l2[mac].Some? }

  function NodeMacs(net: Network, mac: Mac): set<Mac>
    requires Welded(net, mac)
  {
    set m | m in net.l2 && net.l2[m] == net.l2[mac]
  }

  function CanonicalMac(net: Network, mac: Mac): Mac {
    if Welded(net, mac) then
      assert mac in NodeMacs(net, mac);
      Lowest(NodeMacs(net, mac))
    else mac
  }

  /** One identity per device: two MACs of the device share it, it is one of them, the lowest, and
      resolving it again changes nothing; MACs of different devices never share one. */
  lemma CanonicalIsIdentity(net: Network, a: Mac, b: Mac)
    ensures CanonicalMac(net, CanonicalMac(net, a)) == CanonicalMac(net, a) <= a
    ensures CanonicalMac(net, a) == CanonicalMac(net, b) <==>
            a == b || (a in net.l2 && b in net.l2 && net.l2[a].Some? && net.l2[a] == net.l2[b])
  {
    if Welded(net, a) {
      assert a in NodeMacs(net, a);
      var c := CanonicalMac(net, a);
      assert c in NodeMacs(net, a);
      assert NodeMacs(net, c) == NodeMacs(net, a);
    }
    if Welded(net, b) {
      assert b in NodeMacs(net, b);
      assert CanonicalMac(net, b) in NodeMacs(net, b);
    }
    if Welded(net, a) && Welded(net, b) && net.l2[a] == net.l2[b] {
      assert NodeMacs(net, a) == NodeMacs(net, b);
    }
  }

  // ----- what one IP says about one finding -------------------------------------------

  type Report = Option<(Mac, bool)>

  function Located(net: Network, ip: Ip, bad: bool): Report {
    if ip in net.l3 then Some((CanonicalMac(net, net.l3[ip]), bad)) else None
  }

  predicate IsDefault(e: Entry) { e.Works? && e.cred.V2c? && Lower(e.cred.community) in DEFAULT_COMMUNITIES }

  /** Passive: only a cached v2c community says anything. */
  function PassiveReport(net: Network, ip: Ip, e: Entry): Report {
    if e.Works? && e.cred.V2c? then Located(net, ip, IsDefault(e)) else None
  }

  /** Active: every IP whose entry is not a default community is probed, the (UNRESPONSIVE, tick)
      marker included, since it is not the bare string the source compares with. */
  function ActiveReport(net: Network, ip: Ip, e: Entry, answersPublic: bool): Report {
    if IsDefault(e) then None else Located(net, ip, answersPublic)
  }

  /** Only a working credential of a v3-capable IP says anything. */
  function V3Report(net: Network, ip: Ip, cache: map<Ip, Entry>): Report {
    if ip in cache && cache[ip].Works? then Located(net, ip, cache[ip].cred.V2c?) else None
  }

  /** The last thing a run says about a device, if anything. */
  function Verdict(reports: seq<Report>, mac: Mac): Option<bool> {
    if reports == [] then None
    else
      var r := reports[|reports| - 1];
      if r.Some? && r.value.0 == mac then Some(r.value.1) else Verdict(reports[..|reports| - 1], mac)
  }

  // ----- the tables -------------------------------------------------------------------

  /** Nothing but finding type `f` and its own alerts differs. */
  ghost predicate OnlyTouches(before: Tables, after: Tables, f: FindingType) {
    && after.states == before.states && after.log == before.log
    && (forall mac: Mac, g: FindingType | g != f ::
          && ((mac, g) in after.active <==> (mac, g) in before.active)
          && IsActive(after, mac, g) == IsActive(before, mac, g))
    && (forall mac: Mac, k: AlertKind | k != Opened(f) && k != Cleared(f) ::
          Count(after.alerts, k, mac) == Count(before.alerts, k, mac))
  }

  /** Each device's finding is what the reports last said of it, and unchanged where they are silent. */
  ghost predicate Settled(before: Tables, after: Tables, f: FindingType, reports: seq<Report>) {
    forall m :: IsActive(after, m, f) == Verdict(reports, m).GetOr(IsActive(before, m, f))
  }

  function Set(t: Tables, mac: Mac, f: FindingType, active: bool): Tables { t.(active := t.active[(mac, f) := active]) }

  function Opening(mac: Mac, f: FindingType): Alert { Alert(Opened(f), mac, false, true) }
  function Clearing(mac: Mac, f: FindingType): Alert { Alert(Cleared(f), mac, true, true) }

  lemma ReconfirmIsNoChange(t: Tables, mac: Mac, f: FindingType)
    requires IsActive(t, mac, f)
    ensures Set(t, mac, f, true) == t
  {
    assert Set(t, mac, f, true).active == t.active;
  }

  /** A change of a finding together with its alert. */
  lemma ChangeKeepsSound(t: Tables, mac: Mac, f: FindingType, active: bool)
    requires Sound(t) && f != Flapping && IsActive(t, mac, f) != active
    ensures var a := if active then Opening(mac, f) else Clearing(mac, f);
            var u := Set(t, mac, f, active).(alerts := t.alerts + [a]);
            Sound(u) && OnlyTouches(t, u, f)
  {
    var a := if active then Opening(mac, f) else Clearing(mac, f);
    var u := Set(t, mac, f, active).(alerts := t.alerts + [a]);
    forall m: Mac, k: AlertKind
      ensures Count(u.alerts, k, m) == Count(t.alerts, k, m) + if a.kind == k && m == mac then 1 else 0
    {
      CountAppend(t.alerts, a, k, m);
    }
    forall m: Mac, g: FindingType | g != Flapping
      ensures Count(u.alerts, Opened(g), m) - Count(u.alerts, Cleared(g), m) == if IsActive(u, m, g) then 1 else 0
    {
      assert (m, g) != (mac, f) ==> IsActive(u, m, g) == IsActive(t, m, g);
    }
  }

  lemma OnlyTouchesChains(a: Tables, b: Tables, c: Tables, f: FindingType)
    requires OnlyTouches(a, b, f) && OnlyTouches(b, c, f)
    ensures OnlyTouches(a, c, f)
  {
  }

  lemma NothingTouched(t: Tables, f: FindingType)
    ensures OnlyTouches(t, t, f)
  {
  }

  lemma NothingSettled(t: Tables, f: FindingType)
    ensures Settled(t, t, f, [])
  {
  }

  lemma OneMoreReport(reports: seq<Report>, i: nat)
    requires i < |reports|
    ensures forall m :: Verdict(reports[..i + 1], m)
                        == if reports[i].Some? && reports[i].value.0 == m
                          then Some(reports[i].value.1) else Verdict(reports[..i], m)
  {
    var more := reports[..i + 1];
    assert more[..|more| - 1] == reports[..i] && more[|more| - 1] == reports[i];
    forall m ensures Verdict(more, m)
                     == if reports[i].Some? && reports[i].value.0 == m
                       then Some(reports[i].value.1) else Verdict(reports[..i], m) { }
  }

  class Detector {
    const conn: Connection

    constructor (conn: Connection)
      ensures this.conn == conn
    {
      this.conn := conn;
    }

    /** The upsert or the resolving UPDATE, then the alert, which commits both. */
    method Change(mac: Mac, f: FindingType, active: bool, severity: string, ghost before: Tables) returns (ok: bool)
      requires f != Flapping && conn.Valid() && Sound(conn.work) && IsActive(conn.work, mac, f) != active
      requires OnlyTouches(before, conn.work, f) && OnlyTouches(before, conn.saved, f)
      modifies conn
      ensures conn.Valid() && OnlyTouches(before, conn.saved, f)
      ensures !ok ==> conn.statementsLeft == 0 || severity !in SEVERITY_LEVELS
      ensures ok ==> Sound(conn.work) && OnlyTouches(before, conn.work, f)
      ensures ok ==> conn.work.active == old(conn.work).active[(mac, f) := active]
      ensures ok ==>
        var alert := if active then Alert(Opened(f), mac, false, true) else Alert(Cleared(f), mac, true, true);
        conn.work.alerts == old(conn.work).alerts + [alert]
    {
      var t := conn.work;
      var a := if active then Opening(mac, f) else Clearing(mac, f);
      ok := conn.Execute(Set(t, mac, f, active));
      if ok {
        ghost var u := Set(t, mac, f, active).(alerts := t.alerts + [a]);
        assert Sound(u) && OnlyTouches(t, u, f) by { ChangeKeepsSound(t, mac, f, active); }
        assert OnlyTouches(before, u, f) by { OnlyTouchesChains(before, t, u, f); }
        assert conn.work.(alerts := conn.work.alerts + [a]) == u;
        ok := conn.CreateAlert(severity, a);
      }
    }

    /** The body of each detector's loop once the device's MAC and its verdict are known. */
    method Settle(mac: Mac, f: FindingType, bad: bool, severity: string, ghost before: Tables) returns (ok: bool)
      requires f != Flapping && conn.Valid() && Sound(conn.work)
      requires OnlyTouches(before, conn.work, f) && OnlyTouches(before, conn.saved, f)
      modifies conn
      ensures conn.Valid() && OnlyTouches(before, conn.saved, f)
      ensures !ok ==> conn.statementsLeft == 0 || severity !in SEVERITY_LEVELS
      ensures ok ==> Sound(conn.work) && OnlyTouches(before, conn.work, f)
      ensures ok ==> forall m :: IsActive(conn.work, m, f) == if m == mac then bad else IsActive(old(conn.work), m, f)
      ensures ok ==>
        var alert := if bad then Alert(Opened(f), mac, false, true) else Alert(Cleared(f), mac, true, true);
        conn.work.alerts == old(conn.work).alerts + if bad == IsActive(old(conn.work), mac, f) then [] else [alert]
    {
      hide Sound, OnlyTouches;
      ok := true;
      var t := conn.work;
      var wasActive := (mac, f) in t.active && t.active[(mac, f)];
      if bad && wasActive {
        ReconfirmIsNoChange(t, mac, f);
        ok := conn.Execute(Set(t, mac, f, true));
      } else if bad {
        ok := Change(mac, f, true, severity, before);
      } else if wasActive {
        assert "info" in SEVERITY_LEVELS;
        ok := Change(mac, f, false, "info", before);
      }
    }

    /** A detector's loop over what it learned this cycle; commit at the end, rollback on error. */
    method SettleAll(reports: seq<Report>, f: FindingType, severity: string) returns (ok: bool)
      requires f != Flapping && conn.Valid() && conn.work == conn.saved
      modifies conn
      ensures conn.Valid() && conn.work == conn.saved && OnlyTouches(old(conn.saved), conn.saved, f)
      ensures !ok ==> conn.statementsLeft == 0 || severity !in SEVERITY_LEVELS
      ensures ok ==> Settled(old(conn.saved), conn.saved, f, reports)
    {
      hide Sound, IsActive;
      ghost var before := conn.saved;
      NothingTouched(before, f);
      NothingSettled(before, f);
      var i := 0;
      ok := true;
      while i < |reports| && ok
        invariant 0 <= i <= |reports| && conn.Valid() && OnlyTouches(before, conn.saved, f)
        invariant ok ==> Sound(conn.work) && OnlyTouches(before, conn.work, f)
        invariant ok ==> Settled(before, conn.work, f, reports[..i])
        invariant !ok ==> conn.statementsLeft == 0 || severity !in SEVERITY_LEVELS
        decreases |reports| - i, ok
      {
        OneMoreReport(reports, i);
        if reports[i].Some? {
          ok := Settle(reports[i].value.0, f, reports[i].value.1, severity, before);
        }
        i := i + 1;
      }
      assert reports[..|reports|] == reports;
      if ok {
        ok := conn.Commit();
      }
      if !ok {
        conn.Rollback();
      }
    }

    method RunSnmpDefaultCommunityDetector(net: Network, items: seq<(Ip, Entry)>, severity: string) returns (ok: bool)
      requires conn.Valid() && conn.work == conn.saved
      modifies conn
      ensures conn.Valid() && conn.work == conn.saved && OnlyTouches(old(conn.saved), conn.saved, DefaultCommunity)
      ensures !ok ==> conn.statementsLeft == 0 || severity !in SEVERITY_LEVELS
      ensures ok ==> Settled(old(conn.saved), conn.saved, DefaultCommunity, PassiveReports(net, items))
      ensures ok ==> forall mac, i :: LastV2c(net, items, mac, i) ==>
        (IsActive(conn.saved, mac, DefaultCommunity) <==> ReadsDefault(items[i].1.cred.community))
      ensures ok ==> forall mac :: (forall i :: !V2cItem(net, items, mac, i)) ==>
        IsActive(conn.saved, mac, DefaultCommunity) == IsActive(old(conn.saved), mac, DefaultCommunity)
    {
      PassiveSays(net, items);
      ok := SettleAll(PassiveReports(net, items), DefaultCommunity, severity);
    }

    method RunSnmpPublicSecurityScan(net: Network, items: seq<(Ip, Entry)>, answersPublic: Ip -> bool, severity: string)
      returns (ok: bool)
      requires conn.Valid() && conn.work == conn.saved
      modifies conn
      ensures conn.Valid() && conn.work == conn.saved && OnlyTouches(old(conn.saved), conn.saved, PublicSecondary)
      ensures !ok ==> conn.statementsLeft == 0 || severity !in SEVERITY_LEVELS
      ensures ok ==> Settled(old(conn.saved), conn.saved, PublicSecondary, ActiveReports(net, items, answersPublic))
      ensures ok ==> forall mac, i :: LastProbed(net, items, mac, i) ==>
        (IsActive(conn.saved, mac, PublicSecondary) <==> answersPublic(items[i].0))
      ensures ok ==> forall mac :: (forall i :: !ProbedItem(net, items, mac, i)) ==>
        IsActive(conn.saved, mac, PublicSecondary) == IsActive(old(conn.saved), mac, PublicSecondary)
    {
      ActiveSays(net, items, answersPublic);
      ok := SettleAll(ActiveReports(net, items, answersPublic), PublicSecondary, severity);
    }

    method RunSnmpV3AvailableDetector(net: Network, cache: map<Ip, Entry>, capable: seq<Ip>, severity: string)
      returns (ok: bool)
      requires conn.Valid() && conn.work == conn.saved
      modifies conn
      ensures conn.Valid() && conn.work == conn.saved && OnlyTouches(old(conn.saved), conn.saved, V3Unused)
      ensures !ok ==> conn.statementsLeft == 0 || severity !in SEVERITY_LEVELS
      ensures ok ==> Settled(old(conn.saved), conn.saved, V3Unused, V3Reports(net, cache, capable))
      ensures ok ==> forall mac, i :: LastCapable(net, cache, capable, mac, i) ==>
        (IsActive(conn.saved, mac, V3Unused) <==> cache[capable[i]].cred.V2c?)
      ensures ok ==> forall mac :: (forall i :: !CapableItem(net, cache, capable, mac, i)) ==>
        IsActive(conn.saved, mac, V3Unused) == IsActive(old(conn.saved), mac, V3Unused)
    {
      V3Says(net, cache, capable);
      ok := SettleAll(V3Reports(net, cache, capable), V3Unused, severity);
    }
  }

  function PassiveReports(net: Network, items: seq<(Ip, Entry)>): seq<Report> {
    seq(|items|, i requires 0 <= i < |items| => PassiveReport(net, items[i].0, items[i].1))
  }

  function ActiveReports(net: Network, items: seq<(Ip, Entry)>, answersPublic: Ip -> bool): seq<Report> {
    seq(|items|, i requires 0 <= i < |items| => ActiveReport(net, items[i].0, items[i].1, answersPublic(items[i].0)))
  }

  function V3Reports(net: Network, cache: map<Ip, Entry>, capable: seq<Ip>): seq<Report> {
    seq(|capable|, i requires 0 <= i < |capable| => V3Report(net, capable[i], cache))
  }

  // ----- who a run speaks of, said outright -------------------------------------------

  /** The address is bound to a MAC of the device that goes by `mac`. */
  predicate At(net: Network, ip: Ip, mac: Mac) { ip in net.l3 && CanonicalMac(net, net.l3[ip]) == mac }

  /** The text is the word in some capitalisation. */
  predicate Reads(s: string, word: string) {
    |s| == |word| && forall k :: 0 <= k < |s| ==>
      s[k] == word[k] || ('A' <= s[k] <= 'Z' && s[k] as int + 32 == word[k] as int)
  }

  predicate ReadsDefault(s: string) { Reads(s, "public") || Reads(s, "private") }

  /** Item `i` is a working v2c community of the device. */
  predicate V2cItem(net: Network, items: seq<(Ip, Entry)>, mac: Mac, i: int) {
    0 <= i < |items| && items[i].1.Works? && items[i].1.cred.V2c? && At(net, items[i].0, mac)
  }

  ghost predicate LastV2c(net: Network, items: seq<(Ip, Entry)>, mac: Mac, i: int) {
    V2cItem(net, items, mac, i) && forall j :: j > i ==> !V2cItem(net, items, mac, j)
  }

  /** Item `i` is an address of the device whose entry is no default community, markers included. */
  predicate ProbedItem(net: Network, items: seq<(Ip, Entry)>, mac: Mac, i: int) {
    && 0 <= i < |items| && At(net, items[i].0, mac)
    && !(items[i].1.Works? && items[i].1.cred.V2c? && ReadsDefault(items[i].1.cred.community))
  }

  ghost predicate LastProbed(net: Network, items: seq<(Ip, Entry)>, mac: Mac, i: int) {
    ProbedItem(net, items, mac, i) && forall j :: j > i ==> !ProbedItem(net, items, mac, j)
  }

  /** Address `i` is a v3-capable one of the device with a working credential. */
  predicate CapableItem(net: Network, cache: map<Ip, Entry>, capable: seq<Ip>, mac: Mac, i: int) {
    0 <= i < |capable| && capable[i] in cache && cache[capable[i]].Works? && At(net, capable[i], mac)
  }

  ghost predicate LastCapable(net: Network, cache: map<Ip, Entry>, capable: seq<Ip>, mac: Mac, i: int) {
    CapableItem(net, cache, capable, mac, i) && forall j :: j > i ==> !CapableItem(net, cache, capable, mac, j)
  }

  lemma LowerReads(s: string, word: string)
    requires forall k :: 0 <= k < |word| ==> 'a' <= word[k] <= 'z'
    ensures Lower(s) == word <==> Reads(s, word)
  {
    if Lower(s) == word {
      forall k | 0 <= k < |s|
        ensures s[k] == word[k] || ('A' <= s[k] <= 'Z' && s[k] as int + 32 == word[k] as int)
      {
        assert Lower(s)[k] == LowerChar(s[k]);
      }
    }
    if Reads(s, word) {
      forall k | 0 <= k < |s| ensures Lower(s)[k] == word[k] {
        assert Lower(s)[k] == LowerChar(s[k]);
      }
    }
  }

  lemma DefaultReads(e: Entry)
    ensures IsDefault(e) <==> e.Works? && e.cred.V2c? && ReadsDefault(e.cred.community)
  {
    if e.Works? && e.cred.V2c? {
      LowerReads(e.cred.community, "public");
      LowerReads(e.cred.community, "private");
    }
  }

  /** The last report about a device is its verdict, and without one there is none. */
  lemma LastDecides(reports: seq<Report>, mac: Mac)
    ensures forall i, v :: LastReport(reports, mac, i, v) ==> Verdict(reports, mac) == Some(v)
    ensures (forall i :: 0 <= i < |reports| ==> !(reports[i].Some? && reports[i].value.0 == mac)) ==>
      Verdict(reports, mac).None?
  {
    VerdictIsLastReport(reports, mac);
    if Verdict(reports, mac).Some? {
      var k :| LastReport(reports, mac, k, Verdict(reports, mac).value);
      forall i, v | LastReport(reports, mac, i, v) ensures i == k && v == Verdict(reports, mac).value {
        assert reports[i].Some? && reports[k].Some?;
      }
    }
  }

  lemma PassiveSays(net: Network, items: seq<(Ip, Entry)>)
    ensures var reports := PassiveReports(net, items);
            && (forall mac, i :: LastV2c(net, items, mac, i) ==>
                  Verdict(reports, mac) == Some(ReadsDefault(items[i].1.cred.community)))
            && (forall mac :: (forall i :: !V2cItem(net, items, mac, i)) ==> Verdict(reports, mac).None?)
  {
    var reports := PassiveReports(net, items);
    forall mac, i | 0 <= i < |items|
      ensures V2cItem(net, items, mac, i) <==> reports[i].Some? && reports[i].value.0 == mac
      ensures V2cItem(net, items, mac, i) ==> reports[i].value.1 == ReadsDefault(items[i].1.cred.community)
    {
      DefaultReads(items[i].1);
    }
    forall mac, i | LastV2c(net, items, mac, i)
      ensures Verdict(reports, mac) == Some(ReadsDefault(items[i].1.cred.community))
    {
      LastDecides(reports, mac);
      forall j | i < j < |reports| && reports[j].Some? ensures reports[j].value.0 != mac {
        assert !V2cItem(net, items, mac, j);
      }
      assert LastReport(reports, mac, i, ReadsDefault(items[i].1.cred.community));
    }
    forall mac | forall i :: !V2cItem(net, items, mac, i) ensures Verdict(reports, mac).None? {
      LastDecides(reports, mac);
      assert forall i :: 0 <= i < |items| ==> !V2cItem(net, items, mac, i);
    }
  }

  lemma ActiveSays(net: Network, items: seq<(Ip, Entry)>, answersPublic: Ip -> bool)
    ensures var reports := ActiveReports(net, items, answersPublic);
            && (forall mac, i :: LastProbed(net, items, mac, i) ==>
                  Verdict(reports, mac) == Some(answersPublic(items[i].0)))
            && (forall mac :: (forall i :: !ProbedItem(net, items, mac, i)) ==> Verdict(reports, mac).None?)
  {
    var reports := ActiveReports(net, items, answersPublic);
    forall mac, i | 0 <= i < |items|
      ensures ProbedItem(net, items, mac, i) <==> reports[i].Some? && reports[i].value.0 == mac
      ensures ProbedItem(net, items, mac, i) ==> reports[i].value.1 == answersPublic(items[i].0)
    {
      DefaultReads(items[i].1);
    }
    forall mac, i | LastProbed(net, items, mac, i) ensures Verdict(reports, mac) == Some(answersPublic(items[i].0)) {
      LastDecides(reports, mac);
      forall j | i < j < |reports| && reports[j].Some? ensures reports[j].value.0 != mac {
        assert !ProbedItem(net, items, mac, j);
      }
      assert LastReport(reports, mac, i, answersPublic(items[i].0));
    }
    forall mac | forall i :: !ProbedItem(net, items, mac, i) ensures Verdict(reports, mac).None? {
      LastDecides(reports, mac);
      assert forall i :: 0 <= i < |items| ==> !ProbedItem(net, items, mac, i);
    }
  }

  lemma V3Says(net: Network, cache: map<Ip, Entry>, capable: seq<Ip>)
    ensures var reports := V3Reports(net, cache, capable);
            && (forall mac, i :: LastCapable(net, cache, capable, mac, i) ==>
                  Verdict(reports, mac) == Some(cache[capable[i]].cred.V2c?))
            && (forall mac :: (forall i :: !CapableItem(net, cache, capable, mac, i)) ==> Verdict(reports, mac).None?)
  {
    var reports := V3Reports(net, cache, capable);
    forall mac, i | 0 <= i < |capable|
      ensures CapableItem(net, cache, capable, mac, i) <==> reports[i].Some? && reports[i].value.0 == mac
      ensures CapableItem(net, cache, capable, mac, i) ==> reports[i].value.1 == cache[capable[i]].cred.V2c?
    {
    }
    forall mac, i | LastCapable(net, cache, capable, mac, i)
      ensures Verdict(reports, mac) == Some(cache[capable[i]].cred.V2c?)
    {
      LastDecides(reports, mac);
      forall j | i < j < |reports| && reports[j].Some? ensures reports[j].value.0 != mac {
        assert !CapableItem(net, cache, capable, mac, j);
      }
      assert LastReport(reports, mac, i, cache[capable[i]].cred.V2c?);
    }
    forall mac | forall i :: !CapableItem(net, cache, capable, mac, i) ensures Verdict(reports, mac).None? {
      LastDecides(reports, mac);
      assert forall i :: 0 <= i < |capable| ==> !CapableItem(net, cache, capable, mac, i);
    }
  }

  /** Report `i` is about the device, says `v`, and is the last one about it. */
  ghost predicate LastReport(reports: seq<Report>, mac: Mac, i: int, v: bool) {
    0 <= i < |reports| && reports[i] == Some((mac, v)) && forall j :: i < j < |reports| && reports[j].Some? ==>
      reports[j].value.0 != mac
  }

  /** The verdict on a device is its last report, and a device nobody reports on keeps its state:
      absence is never read as a fix. */
  lemma {:induction false} VerdictIsLastReport(reports: seq<Report>, mac: Mac)
    ensures Verdict(reports, mac).None? <==>
      forall i :: 0 <= i < |reports| && reports[i].Some? ==> reports[i].value.0 != mac
    ensures Verdict(reports, mac).Some? ==> exists i :: LastReport(reports, mac, i, Verdict(reports, mac).value)
  {
    if reports != [] {
      var n := |reports| - 1;
      var g := reports[..n];
      VerdictIsLastReport(g, mac);
      assert forall i :: 0 <= i < n ==> g[i] == reports[i];
      if reports[n].Some? && reports[n].value.0 == mac {
        assert LastReport(reports, mac, n, reports[n].value.1);
      } else if Verdict(g, mac).Some? {
        var i :| LastReport(g, mac, i, Verdict(g, mac).value);
        assert LastReport(reports, mac, i, Verdict(g, mac).value);
      }
    }
  }
}
