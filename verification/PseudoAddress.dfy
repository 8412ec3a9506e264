/** The synthetic addresses of inferred unmanaged switches: built by inference_engine.py, recomputed
    by the consolidation pass of unification.py. */
module PseudoAddress {
  import opened Common
  import opened Decimal
  import opened Octets

  /** A switch address in dotted-quad form. */
  datatype Quad = Quad(a: Byte, b: Byte, c: Byte, d: Byte)

  function QuadFields(q: Quad): seq<string> { [Print(q.a), Print(q.b), Print(q.c), Print(q.d)] }

  function QuadText(q: Quad): string { Join(QuadFields(q), '.') }

  /** Three fields of the switch address and the number for the last one and the port. */
  function Composed(parts: seq<string>, last: nat): string
    requires |parts| == 4
  {
    Join([parts[0], parts[1], parts[2], Print(last)], '.')
  }

  /** The pseudo IP for a port of a switch given as text; None where int() raises. */
  function PseudoIp(switchIp: string, port: nat): Option<string> {
    var parts := Split(switchIp, '.');
    if |parts| != 4 then Some("127.0.0." + Print(1000 + port))
    else if forall i :: 0 <= i < 4 ==> AllDigits(parts[i]) then Some(Composed(parts, Value(parts[3]) * 1000 + port))
    else None
  }

  /** What the consolidation pass looks up, from the text of the port; None: the port is skipped. */
  function Recomputed(switchIp: string, portText: string): Option<string> {
    var parts := Split(switchIp, '.');
    if |parts| != 4 || !AllDigits(parts[3]) || !AllDigits(portText) then None
    else Some(Composed(parts, Value(parts[3]) * 1000 + Value(portText)))
  }

  /** The pseudo MAC of a port of a dotted-quad switch. */
  function PseudoMac(q: Quad, port: nat): string { MacText([2, 255, q.b, q.c, q.d, port % 256]) }

  function PseudoFields(q: Quad, port: nat): seq<string> {
    [Print(q.a), Print(q.b), Print(q.c), Print(q.d as nat * 1000 + port)]
  }

  lemma NoDots(n: nat)
    ensures '.' !in Print(n)
  {
  }

  lemma FieldsHaveNoDots(q: Quad, port: nat)
    ensures |PseudoFields(q, port)| == 4
    ensures forall i :: 0 <= i < 4 ==> '.' !in QuadFields(q)[i] && '.' !in PseudoFields(q, port)[i]
  {
    NoDots(q.a); NoDots(q.b); NoDots(q.c); NoDots(q.d); NoDots(q.d as nat * 1000 + port);
  }

  lemma QuadReadsBack(q: Quad)
    ensures Split(QuadText(q), '.') == QuadFields(q)
    ensures Value(Print(q.d)) == q.d
  {
    FieldsHaveNoDots(q, 0);
    SplitOfJoin(QuadFields(q), '.');
    ValueOfPrint(q.d);
  }

  lemma PseudoIpOfQuad(q: Quad, port: nat)
    ensures PseudoIp(QuadText(q), port) == Some(Join(PseudoFields(q, port), '.'))
  {
    QuadReadsBack(q);
  }

  lemma JoinFour(a: string, b: string, c: string, d: string)
    ensures Join([a, b, c, d], '.') == a + "." + (b + "." + (c + "." + d))
  {
    assert [a, b, c, d][1..] == [b, c, d] && [b, c, d][1..] == [c, d] && [c, d][1..] == [d];
    assert Join([c, d], '.') == c + "." + d;
  }

  /** The pseudo IP of a port of a dotted-quad switch, written out. */
  lemma PseudoIpReads(q: Quad, port: nat)
    ensures QuadText(q) == Print(q.a) + "." + (Print(q.b) + "." + (Print(q.c) + "." + Print(q.d)))
    ensures PseudoIp(QuadText(q), port) ==
      Some(Print(q.a) + "." + (Print(q.b) + "." + (Print(q.c) + "." + Print(1000 * q.d as nat + port))))
  {
    hide Print, Join, PseudoIp;
    JoinFour(Print(q.a), Print(q.b), Print(q.c), Print(q.d));
    JoinFour(Print(q.a), Print(q.b), Print(q.c), Print(q.d as nat * 1000 + port));
    PseudoIpOfQuad(q, port);
  }

  /** The pseudo MAC of a port, written out: the marker 02:ff, octets 2 to 4 of the switch, and the
      port modulo 256. */
  lemma PseudoMacReads(q: Quad, port: nat)
    ensures var mac := PseudoMac(q, port);
            && |mac| == 17 && mac[..6] == "02:ff:" && mac[6..9] == Hex2(q.b) + ":" && mac[9..12] == Hex2(q.c) + ":"
            && mac[12..15] == Hex2(q.d) + ":" && mac[15..] == Hex2(port % 256)
  {
    hide MacText, HexChar;
    var o: seq<Byte>, mac := [2, 255, q.b, q.c, q.d, port % 256], PseudoMac(q, port);
    MacTextReads(o, 0);
    forall i | 0 <= i < 6
      ensures mac[3 * i] == HexChar(o[i] / 16) && mac[3 * i + 1] == HexChar(o[i] % 16)
      ensures i < 5 ==> mac[3 * i + 2] == ':'
    {
      MacTextReads(o, i);
    }
    HexCharMeans(0); HexCharMeans(2); HexCharMeans(15);
    MacPieces(mac, o);
    assert mac[0..3] == Hex2(2) + ":" && mac[3..6] == Hex2(255) + ":";
    assert mac[..6] == mac[0..3] + mac[3..6];
    assert mac[6..9] == Hex2(o[2]) + ":" && mac[9..12] == Hex2(o[3]) + ":" && mac[12..15] == Hex2(o[4]) + ":";
  }

  lemma MacPieces(mac: string, o: seq<Byte>)
    requires |o| == 6 && |mac| == 17
    requires forall i :: 0 <= i < 6 ==> mac[3 * i] == HexChar(o[i] / 16) && mac[3 * i + 1] == HexChar(o[i] % 16)
    requires forall i :: 0 <= i < 5 ==> mac[3 * i + 2] == ':'
    ensures mac[0..3] == Hex2(o[0]) + ":" && mac[3..6] == Hex2(o[1]) + ":" && mac[6..9] == Hex2(o[2]) + ":"
    ensures mac[9..12] == Hex2(o[3]) + ":" && mac[12..15] == Hex2(o[4]) + ":" && mac[15..] == Hex2(o[5])
  {
    assert mac[3 * 0 + 2] == mac[3 * 1 + 2] == mac[3 * 2 + 2] == mac[3 * 3 + 2] == mac[3 * 4 + 2] == ':';
    assert mac[3 * 0] == HexChar(o[0] / 16) && mac[3 * 1] == HexChar(o[1] / 16) && mac[3 * 2] == HexChar(o[2] / 16);
    assert mac[3 * 3] == HexChar(o[3] / 16) && mac[3 * 4] == HexChar(o[4] / 16) && mac[3 * 5] == HexChar(o[5] / 16);
  }

  /** Two pseudo IPs coincide exactly when the first three octets agree and so does 1000 times the
      last plus the port; for ports below 1000 that means same switch and same port. */
  lemma PseudoIpInjective(q: Quad, p: nat, r: Quad, s: nat)
    ensures PseudoIp(QuadText(q), p) == PseudoIp(QuadText(r), s)
            <==> q.a == r.a && q.b == r.b && q.c == r.c && q.d as nat * 1000 + p == r.d as nat * 1000 + s
    ensures p < 1000 && s < 1000 ==> (PseudoIp(QuadText(q), p) == PseudoIp(QuadText(r), s) <==> q == r && p == s)
  {
    hide PseudoIp, QuadText, PseudoFields, Join, Print;
    PseudoIpOfQuad(q, p);
    PseudoIpOfQuad(r, s);
    FieldsHaveNoDots(q, p);
    FieldsHaveNoDots(r, s);
    JoinInjective(PseudoFields(q, p), PseudoFields(r, s), '.');
    PrintInjective(q.a, r.a);
    PrintInjective(q.b, r.b);
    PrintInjective(q.c, r.c);
    PrintInjective(q.d as nat * 1000 + p, r.d as nat * 1000 + s);
    SameFields(q, p, r, s);
  }

  lemma SameFields(q: Quad, p: nat, r: Quad, s: nat)
    ensures PseudoFields(q, p) == PseudoFields(r, s)
            <==> Print(q.a) == Print(r.a) && Print(q.b) == Print(r.b) && Print(q.c) == Print(r.c)
                 && Print(q.d as nat * 1000 + p) == Print(r.d as nat * 1000 + s)
  {
    var x, y := PseudoFields(q, p), PseudoFields(r, s);
    if x == y {
      assert x[0] == y[0] && x[1] == y[1] && x[2] == y[2] && x[3] == y[3];
    }
  }

  // ----- legal addresses --------------------------------------------------------------

  predicate LegalOctet(s: string) { AllDigits(s) && (|s| > 1 ==> s[0] != '0') && Value(s) <= 255 }

  /** A dotted IPv4 literal. */
  predicate LegalIpv4(s: string) {
    var parts := Split(s, '.');
    |parts| == 4 && forall i :: 0 <= i < 4 ==> LegalOctet(parts[i])
  }

  lemma {:induction false} LegalPrint(n: nat)
    ensures LegalOctet(Print(n)) <==> n <= 255
  {
    ValueOfPrint(n);
    PrintLeads(n);
  }

  /** A pseudo IP can be mistaken for a real one exactly when the switch's last octet is 0 and the
      port fits an octet; with a last octet of 1 or more it never is a legal address. */
  lemma PseudoIpIsNoAddress(q: Quad, port: nat)
    ensures PseudoIp(QuadText(q), port).Some?
    ensures LegalIpv4(PseudoIp(QuadText(q), port).value) <==> q.d == 0 && port <= 255
  {
    PseudoIpOfQuad(q, port);
    FieldsHaveNoDots(q, port);
    var parts := PseudoFields(q, port);
    SplitOfJoin(parts, '.');
    LegalPrint(q.a);
    LegalPrint(q.b);
    LegalPrint(q.c);
    LegalPrint(q.d as nat * 1000 + port);
    assert LegalOctet(parts[0]) && LegalOctet(parts[1]) && LegalOctet(parts[2]);
    assert LegalOctet(parts[3]) <==> q.d as nat * 1000 + port <= 255;
  }

  /** Building the pseudo IP raises exactly for four fields one of which is no number. */
  lemma PseudoIpRaises(switchIp: string, port: nat)
    ensures var parts := Split(switchIp, '.');
      PseudoIp(switchIp, port).None? <==> |parts| == 4 && exists f :: f in parts && !AllDigits(f)
  {
    var parts := Split(switchIp, '.');
    if |parts| == 4 && PseudoIp(switchIp, port).None? {
      var i :| 0 <= i < 4 && !AllDigits(parts[i]);
      assert parts[i] in parts;
    }
  }

  // ----- the two producers agree ------------------------------------------------------

  /** Consolidation recomputes the same pseudo IP from the stored text of switch and port. */
  lemma ConsolidationAgrees(q: Quad, port: nat)
    ensures Recomputed(QuadText(q), Print(port)) == PseudoIp(QuadText(q), port)
  {
    QuadReadsBack(q);
    ValueOfPrint(port);
    Agreeing(QuadText(q), Print(port));
  }

  lemma Agreeing(switchIp: string, portText: string)
    requires |Split(switchIp, '.')| == 4 && AllDigits(portText)
    requires forall i :: 0 <= i < 4 ==> AllDigits(Split(switchIp, '.')[i])
    ensures Recomputed(switchIp, portText) == PseudoIp(switchIp, Value(portText))
  {
  }

  /** A switch that is not a dotted quad gets its address from the port alone: it coincides with that
      of 127.0.0.1, and consolidation never looks it up. */
  lemma FallbackAddress(name: string, port: nat, portText: string)
    requires |Split(name, '.')| != 4
    ensures PseudoIp(name, port) == PseudoIp(QuadText(Quad(127, 0, 0, 1)), port)
    ensures Recomputed(name, portText) == None
  {
    PseudoIpOfQuad(Quad(127, 0, 0, 1), port);
    LoopbackText(Print(1000 + port));
    PrintSmall();
  }

  lemma PrintSmall()
    ensures Print(127) == "127" && Print(0) == "0"
  {
    assert Print(12) == Print(1) + "2";
  }

  lemma LoopbackText(x: string)
    ensures Join(["127", "0", "0", x], '.') == "127.0.0." + x
  {
    assert ["127", "0", "0", x][1..] == ["0", "0", x] && ["0", "0", x][1..] == ["0", x] && ["0", x][1..] == [x];
    assert Join([x], '.') == x;
    assert Join(["0", x], '.') == "0." + x;
    assert Join(["0", "0", x], '.') == "0.0." + x;
  }

  /** Two pseudo MACs coincide exactly when octets 2 to 4 of the switches agree and the ports agree
      modulo 256: the first octet and the rest of the port are lost. */
  lemma PseudoMacCollides(q: Quad, p: nat, r: Quad, s: nat)
    ensures PseudoMac(q, p) == PseudoMac(r, s) <==> q.b == r.b && q.c == r.c && q.d == r.d && p % 256 == s % 256
  {
    var x: seq<Byte>, y: seq<Byte> := [2, 255, q.b, q.c, q.d, p % 256], [2, 255, r.b, r.c, r.d, s % 256];
    MacTextInjective(x, y);
    if x == y {
      assert x[2] == y[2] && x[3] == y[3] && x[4] == y[4] && x[5] == y[5];
    }
  }
}
