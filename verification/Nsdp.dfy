/** The Netgear NSDP request and reply of src/engine/smart_switch_pipeline.py: a 32-byte header,
    then type-length-value fields up to a terminator. */
module Nsdp {
  import opened Common
  import opened Decimal
  import opened Octets
  import opened Text

  const HEADER := 32
  const SIGNATURE: seq<Byte> := [78, 83, 68, 80]
  const TERMINATOR: nat := 0xFFFF

  datatype FieldName = ModelName | SwitchName | MacField | IpField | NetmaskField | GatewayField | FirmwareField

  /** The declared field codes, in the order the request asks for them. */
  const FIELD_TYPES: seq<nat> := [0x0001, 0x0003, 0x0004, 0x0006, 0x0007, 0x0008, 0x000d]

  function NameOf(code: nat): Option<FieldName> {
    match code
    case 0x0001 => Some(ModelName)
    case 0x0003 => Some(SwitchName)
    case 0x0004 => Some(MacField)
    case 0x0006 => Some(IpField)
    case 0x0007 => Some(NetmaskField)
    case 0x0008 => Some(GatewayField)
    case 0x000d => Some(FirmwareField)
    case _ => None
  }

  datatype Field = Field(code: nat, value: seq<Byte>)

  // ----- bytes ------------------------------------------------------------------------

  function Be16(n: nat): seq<Byte>
    requires n < 0x10000
  {
    [n / 256, n % 256]
  }

  function Read16(data: seq<Byte>, i: nat): nat
    requires i + 2 <= |data|
  {
    data[i] as nat * 256 + data[i + 1] as nat
  }

  predicate Printable(f: Field) { f.code < TERMINATOR && |f.value| < 0x10000 }

  function FieldBytes(f: Field): seq<Byte>
    requires Printable(f)
  {
    [f.code / 256, f.code % 256, |f.value| / 256, |f.value| % 256] + f.value
  }

  ghost predicate AllPrintable(fields: seq<Field>) { forall i :: 0 <= i < |fields| ==> Printable(fields[i]) }

  ghost function FieldsBytes(fields: seq<Field>): seq<Byte>
    requires AllPrintable(fields)
  {
    if fields == [] then [] else FieldBytes(fields[0]) + FieldsBytes(fields[1..])
  }

  // ----- the walk ---------------------------------------------------------------------

  /** The fields from an offset on, up to the terminator or the end of the data. */
  function Walk(data: seq<Byte>, offset: nat): seq<Field>
    decreases if offset < |data| then |data| - offset else 0
  {
    if offset + 4 > |data| || Read16(data, offset) == TERMINATOR then []
    else
      var next := offset + 4 + Read16(data, offset + 2);
      [Field(Read16(data, offset), Slice(data, offset + 4, next))] + Walk(data, next)
  }

  /** The field stands at this offset. */
  predicate Here(data: seq<Byte>, i: nat, f: Field) {
    && Printable(f) && i + 4 + |f.value| <= |data|
    && Read16(data, i) == f.code && Read16(data, i + 2) == |f.value| && data[i + 4..i + 4 + |f.value|] == f.value
  }

  ghost predicate Reads(data: seq<Byte>, i: nat, fields: seq<Field>, tail: seq<Byte>)
    decreases |fields|
  {
    if fields == [] then i <= |data| && data[i..] == tail
    else Here(data, i, fields[0]) && Reads(data, i + 4 + |fields[0].value|, fields[1..], tail)
  }

  lemma PrintedIsHere(data: seq<Byte>, i: nat, f: Field)
    requires Printable(f) && i + 4 + |f.value| <= |data|
    ensures data[i..i + 4 + |f.value|] == FieldBytes(f) ==> Here(data, i, f)
  {
    var n := 4 + |f.value|;
    var shown := data[i..i + n];
    assert shown[0] == data[i] && shown[1] == data[i + 1] && shown[2] == data[i + 2] && shown[3] == data[i + 3];
    assert shown[4..] == data[i + 4..i + n];
    assert FieldBytes(f)[4..] == f.value;
  }

  lemma SizeOfPrint(f: Field)
    requires Printable(f)
    ensures |FieldBytes(f)| == 4 + |f.value|
  {
  }

  lemma FirstField(data: seq<Byte>, i: nat, f: Field, more: seq<Byte>, tail: seq<Byte>)
    requires Printable(f) && i <= |data| && data[i..] == (FieldBytes(f) + more) + tail
    ensures Here(data, i, f) && data[i + 4 + |f.value|..] == more + tail
  {
    var n := 4 + |f.value|;
    SizeOfPrint(f);
    HeadOfPrint(data[i..], FieldBytes(f), more, tail);
    TakeDrop(data, i, n);
    PrintedIsHere(data, i, f);
  }

  lemma MorePrintable(fields: seq<Field>)
    requires AllPrintable(fields) && fields != []
    ensures Printable(fields[0]) && AllPrintable(fields[1..])
    ensures FieldsBytes(fields) == FieldBytes(fields[0]) + FieldsBytes(fields[1..])
  {
  }

  lemma {:induction false} PrintedReads(data: seq<Byte>, i: nat, fields: seq<Field>, tail: seq<Byte>)
    requires AllPrintable(fields) && i <= |data| && data[i..] == FieldsBytes(fields) + tail
    ensures Reads(data, i, fields, tail)
    decreases |fields|
  {
    if fields == [] {
      assert FieldsBytes(fields) + tail == tail;
    } else {
      MorePrintable(fields);
      FirstField(data, i, fields[0], FieldsBytes(fields[1..]), tail);
      PrintedReads(data, i + 4 + |fields[0].value|, fields[1..], tail);
    }
  }

  predicate Ends(tail: seq<Byte>) { |tail| < 4 || (tail[0] == 255 && tail[1] == 255) }

  lemma {:induction false} WalkReads(data: seq<Byte>, i: nat, fields: seq<Field>, tail: seq<Byte>)
    requires Reads(data, i, fields, tail) && Ends(tail)
    ensures Walk(data, i) == fields
    decreases |fields|
  {
    if fields == [] {
      if |tail| >= 4 {
        assert data[i] == tail[0] && data[i + 1] == tail[1];
      }
    } else {
      WalkReads(data, i + 4 + |fields[0].value|, fields[1..], tail);
    }
  }

  /** The walk gives back the fields that were printed, up to the terminator and whatever follows it. */
  lemma WalkInvertsPrinter(header: seq<Byte>, fields: seq<Field>, tail: seq<Byte>)
    requires AllPrintable(fields) && Ends(tail)
    ensures Walk(header + (FieldsBytes(fields) + tail), |header|) == fields
  {
    var data := header + (FieldsBytes(fields) + tail);
    PrintedReads(data, |header|, fields, tail);
    WalkReads(data, |header|, fields, tail);
  }

  // ----- the request ------------------------------------------------------------------

  function Zeros(n: nat): seq<Byte> { seq(n, _ => 0) }

  /** struct's "6s": cut or padded with zeros to six bytes */
  function Six(bytes: seq<Byte>): (r: seq<Byte>)
    ensures |r| == 6
  {
    if |bytes| >= 6 then bytes[..6] else bytes + Zeros(6 - |bytes|)
  }

  function RequestHeader(clientMac: seq<Byte>): seq<Byte> {
    [1, 1, 0, 0, 0, 0, 0, 0] + Six(clientMac) + Zeros(6) + [0, 0, 0, 0] + SIGNATURE + Zeros(4)
  }

  /** An empty field for each code. */
  function Asked(codes: seq<nat>): (fields: seq<Field>)
    ensures |fields| == |codes| && forall i :: 0 <= i < |codes| ==> fields[i] == Field(codes[i], [])
  {
    seq(|codes|, i requires 0 <= i < |codes| => Field(codes[i], []))
  }

  /** The request up to its fields: version and opcode 1, the requester's MAC, the signature NSDP, zeros
      elsewhere. */
  lemma RequestHeaderBytes(clientMac: seq<Byte>)
    ensures var h := RequestHeader(clientMac);
            && |h| == 32 && h[0] == h[1] == 1 && h[24..28] == [78, 83, 68, 80]
            && (forall i :: 8 <= i < 14 ==> h[i] == if i - 8 < |clientMac| then clientMac[i - 8] else 0)
            && (forall i :: 2 <= i < 8 || 14 <= i < 24 || 28 <= i < 32 ==> h[i] == 0)
  {
  }

  /** _build_nsdp_request */
  method BuildNsdpRequest(clientMac: seq<Byte>) returns (request: seq<Byte>)
    ensures request == RequestHeader(clientMac) + (FieldsBytes(Asked(FIELD_TYPES)) + [255, 255, 0, 0])
  {
    var body: seq<Byte> := [];
    for i := 0 to |FIELD_TYPES|
      invariant body == FieldsBytes(Asked(FIELD_TYPES[..i]))
    {
      PrintOneMore(Asked(FIELD_TYPES[..i]), Field(FIELD_TYPES[i], []));
      assert Asked(FIELD_TYPES[..i + 1]) == Asked(FIELD_TYPES[..i]) + [Field(FIELD_TYPES[i], [])];
      EmptyField(FIELD_TYPES[i], body);
      body := body + Be16(FIELD_TYPES[i]) + Be16(0);
    }
    assert FIELD_TYPES[..|FIELD_TYPES|] == FIELD_TYPES;
    return RequestHeader(clientMac) + (body + [255, 255, 0, 0]);
  }

  lemma EmptyField(code: nat, body: seq<Byte>)
    requires code < TERMINATOR
    ensures body + Be16(code) + Be16(0) == body + FieldBytes(Field(code, []))
  {
    assert Be16(code) + Be16(0) == FieldBytes(Field(code, []));
  }

  lemma {:induction false} PrintOneMore(fields: seq<Field>, f: Field)
    requires AllPrintable(fields) && Printable(f)
    ensures FieldsBytes(fields + [f]) == FieldsBytes(fields) + FieldBytes(f)
  {
    if fields == [] {
      assert fields + [f] == [f] && [f][1..] == [];
    } else {
      PrintOneMore(fields[1..], f);
      PrintHead(fields, f);
      Regroup(FieldBytes(fields[0]), FieldsBytes(fields[1..]), FieldBytes(f));
    }
  }

  lemma PrintHead(fields: seq<Field>, f: Field)
    requires AllPrintable(fields) && Printable(f) && fields != []
    ensures FieldsBytes(fields + [f]) == FieldBytes(fields[0]) + FieldsBytes(fields[1..] + [f])
  {
    assert (fields + [f])[1..] == fields[1..] + [f];
  }

  /** The built request has a 32-byte header; walking its body gives exactly the declared codes, all
      empty, then the terminator; and a listener that hears a request, its own or another's, does
      not take it for a reply. */
  lemma RequestAsksForTheFields(clientMac: seq<Byte>, request: seq<Byte>, u: Unicode)
    requires request == RequestHeader(clientMac) + (FieldsBytes(Asked(FIELD_TYPES)) + [255, 255, 0, 0])
    ensures |RequestHeader(clientMac)| == HEADER && Walk(request, HEADER) == Asked([1, 3, 4, 6, 7, 8, 13])
    ensures request[HEADER..] == FieldsBytes(Asked(FIELD_TYPES)) + [255, 255, 0, 0]
    ensures request[24..28] == SIGNATURE && Parse(request, u) == None
  {
    assert |RequestHeader(clientMac)| == HEADER;
    assert RequestHeader(clientMac)[1] == 1 && RequestHeader(clientMac)[24..28] == SIGNATURE;
    assert request[1] == RequestHeader(clientMac)[1] && request[24..28] == RequestHeader(clientMac)[24..28];
    WalkInvertsPrinter(RequestHeader(clientMac), Asked(FIELD_TYPES), [255, 255, 0, 0]);
  }

  // ----- the reply --------------------------------------------------------------------

  type Fields = map<FieldName, string>

  /** The repository's record of a switch; the constant vendor and protocol are left out. */
  datatype Switch = Switch(mac: string, modelName: Option<string>, switchName: Option<string>, ip: Option<string>)

  function Decimals(v: seq<Byte>): seq<string> {
    if v == [] then [] else [Print(v[0])] + Decimals(v[1..])
  }

  function Dotted(v: seq<Byte>): string { Join(Decimals(v), '.') }

  /** An address of four octets reads as four decimal numbers between dots. */
  lemma DottedMeans(v: seq<Byte>)
    requires |v| == 4
    ensures Dotted(v) == Print(v[0]) + "." + (Print(v[1]) + "." + (Print(v[2]) + "." + Print(v[3])))
  {
    hide Dotted, Print;
    DottedTail(v, 3);
    DottedTail(v, 2);
    DottedTail(v, 1);
    DottedTail(v, 0);
    assert v[0..] == v;
  }

  lemma DottedTail(v: seq<Byte>, i: nat)
    requires i < |v|
    ensures Dotted(v[i..]) == if i + 1 == |v| then Print(v[i]) else Print(v[i]) + "." + Dotted(v[i + 1..])
  {
    DecimalsLength(v[i..]);
    assert v[i..][1..] == v[i + 1..] && v[i..][0] == v[i];
    assert Decimals(v[i..])[1..] == Decimals(v[i + 1..]);
  }

  lemma {:induction false} DecimalsLength(v: seq<Byte>)
    ensures |Decimals(v)| == |v|
  {
    if v != [] {
      DecimalsLength(v[1..]);
    }
  }

  predicate IsNul(c: char) { c == '\0' }

  function Label(v: seq<Byte>, u: Unicode): string { Strip(Strip(u.ascii(v), IsNul), u.isSpace) }

  /** A label is the decoded text without the NULs, and then the blanks, at its ends. */
  lemma LabelMeans(v: seq<Byte>, u: Unicode) returns (lo: nat, hi: nat)
    ensures lo <= hi <= |u.ascii(v)| && u.ascii(v)[lo..hi] == Label(v, u)
    ensures forall k :: 0 <= k < lo || hi <= k < |u.ascii(v)| ==> u.ascii(v)[k] == '\0' || u.isSpace(u.ascii(v)[k])
    ensures Stripped(Label(v, u), u.isSpace)
  {
    hide Strip;
    var s := u.ascii(v);
    var t, r := Strip(s, IsNul), Label(v, u);
    var i := StripExactly(s, IsNul);
    var j := StripExactly(t, u.isSpace);
    lo, hi := i + j, i + j + |r|;
    Within(s, t, r, i, j);
    forall k | 0 <= k < lo || hi <= k < |s| ensures s[k] == '\0' || u.isSpace(s[k]) {
      if i <= k < i + |t| {
        assert s[k] == t[k - i];
      } else {
        assert IsNul(s[k]);
      }
    }
  }

  lemma Within(s: string, t: string, r: string, i: nat, j: nat)
    requires i + |t| <= |s| && s[i..i + |t|] == t && j + |r| <= |t| && t[j..j + |r|] == r
    ensures s[i + j..i + j + |r|] == r && forall k :: i <= k < i + |t| ==> s[k] == t[k - i]
  {
    forall k | i <= k < i + |t| ensures s[k] == t[k - i] {
      assert s[i..i + |t|][k - i] == s[k];
    }
  }

  predicate Malformed(n: FieldName, length: nat) {
    match n
    case MacField => length != 6
    case IpField | NetmaskField | GatewayField => length != 4
    case _ => false
  }

  function Shown(n: FieldName, v: seq<Byte>, u: Unicode): string {
    match n
    case MacField => MacText(v)
    case IpField | NetmaskField | GatewayField => Dotted(v)
    case _ => Label(v, u)
  }

  type Show = (FieldName, seq<Byte>) -> string

  function Rendering(u: Unicode): Show { (n, v) => Shown(n, v, u) }

  /** What one field adds: a MAC of six bytes, an address of four, any text; nothing otherwise. */
  function Noted(f: Field, fields: Fields, show: Show): Fields {
    match NameOf(f.code)
    case None => fields
    case Some(n) => if Malformed(n, |f.value|) then fields else fields[n := show(n, f.value)]
  }

  function Meaning(fs: seq<Field>, fields: Fields, show: Show): Fields {
    if fs == [] then fields else Meaning(fs[1..], Noted(fs[0], fields, show), show)
  }

  predicate IsReply(data: seq<Byte>) { |data| >= HEADER && data[24..28] == SIGNATURE && data[1] == 2 }

  function Get(fields: Fields, n: FieldName): Option<string> { if n in fields then Some(fields[n]) else None }

  function Described(deviceMac: string, fields: Fields): Switch {
    var mac := if MacField in fields && fields[MacField] != "" then fields[MacField] else deviceMac;
    Switch(mac, Get(fields, ModelName), Get(fields, SwitchName), Get(fields, IpField))
  }

  function Parse(data: seq<Byte>, u: Unicode): Option<Switch> {
    if IsReply(data) then Some(Described(MacText(data[14..20]), Meaning(Walk(data, HEADER), map[], Rendering(u))))
      else None
  }

  lemma MeaningStep(data: seq<Byte>, offset: nat, fields: Fields, show: Show)
    requires offset + 4 <= |data| && Read16(data, offset) != TERMINATOR
    ensures var next := offset + 4 + Read16(data, offset + 2);
            Meaning(Walk(data, offset), fields, show)
            == Meaning(Walk(data, next),
              Noted(Field(Read16(data, offset), Slice(data, offset + 4, next)), fields, show), show)
  {
    assert Walk(data, offset)[1..] == Walk(data, offset + 4 + Read16(data, offset + 2));
  }

  lemma NothingLeft(data: seq<Byte>, offset: nat, fields: Fields, show: Show)
    requires offset + 4 <= |data| ==> Read16(data, offset) == TERMINATOR
    ensures Meaning(Walk(data, offset), fields, show) == fields
  {
  }

  /** What the loop does with one field. */
  method NoteField(code: nat, value: seq<Byte>, fields: Fields, show: Show) returns (after: Fields)
    ensures after == Noted(Field(code, value), fields, show)
  {
    after := fields;
    var name := NameOf(code);
    if name == Some(MacField) && |value| == 6 {
      after := after[MacField := show(MacField, value)];
    } else if name in {Some(IpField), Some(NetmaskField), Some(GatewayField)} && |value| == 4 {
      after := after[name.value := show(name.value, value)];
    } else if name in {Some(ModelName), Some(SwitchName), Some(FirmwareField)} {
      after := after[name.value := show(name.value, value)];
    }
  }

  /** The field loop. */
  method ReadFields(data: seq<Byte>, show: Show) returns (fields: Fields)
    ensures fields == Meaning(Walk(data, HEADER), map[], show)
  {
    fields := map[];
    var offset := HEADER;
    ghost var all := Meaning(Walk(data, HEADER), map[], show);
    while offset + 4 <= |data|
      invariant Meaning(Walk(data, offset), fields, show) == all
      decreases |data| - offset
    {
      var code, length := Read16(data, offset), Read16(data, offset + 2);
      if code == TERMINATOR {
        break;
      }
      MeaningStep(data, offset, fields, show);
      fields := NoteField(code, Slice(data, offset + 4, offset + 4 + length), fields, show);
      offset := offset + 4 + length;
    }
    NothingLeft(data, offset, fields, show);
  }

  /** _parse_nsdp_response: total on every byte string. */
  method ParseNsdpResponse(data: seq<Byte>, u: Unicode) returns (r: Option<Switch>)
    ensures r == Parse(data, u)
    ensures r.Some? <==> IsReply(data)
  {
    if |data| < HEADER || data[24..28] != SIGNATURE {
      return None;
    }
    if data[1] != 2 {
      return None;
    }
    var fields := ReadFields(data, Rendering(u));
    return Some(Described(MacText(data[14..20]), fields));
  }

  /** A printed reply gives back what its fields say, with the MAC of its header unless a field
      names one. */
  lemma ReplyRoundTrip(header: seq<Byte>, fields: seq<Field>, tail: seq<Byte>, u: Unicode)
    requires |header| == HEADER && header[1] == 2 && header[24..28] == SIGNATURE
    requires AllPrintable(fields) && Ends(tail)
    ensures Parse(header + (FieldsBytes(fields) + tail), u) ==
      Some(Described(MacText(header[14..20]), Meaning(fields, map[], Rendering(u))))
  {
    var data := header + (FieldsBytes(fields) + tail);
    assert data[24..28] == header[24..28] && data[14..20] == header[14..20];
    WalkInvertsPrinter(header, fields, tail);
  }

  ghost predicate DistinctCodes(fields: seq<Field>) {
    forall i, j :: 0 <= i < j < |fields| ==> fields[i].code != fields[j].code
  }

  /** With distinct codes a known field of the right size means exactly its value, wherever it stands,
      and a field that is not there says nothing. */
  lemma {:induction false} FieldMeans(fs: seq<Field>, fields: Fields, show: Show, code: nat)
    requires DistinctCodes(fs) && NameOf(code).Some?
    ensures var n, all := NameOf(code).value, Meaning(fs, fields, show);
            && (forall i :: 0 <= i < |fs| && fs[i].code == code && !Malformed(n, |fs[i].value|) ==>
                  n in all && all[n] == show(n, fs[i].value))
            && ((forall i :: 0 <= i < |fs| && fs[i].code == code ==> Malformed(n, |fs[i].value|)) ==>
              Get(all, n) == Get(fields, n))
  {
    if fs != [] {
      var more := fs[1..];
      assert forall i :: 0 <= i < |more| ==> more[i] == fs[i + 1];
      OneCodeEach(fs[0].code, code);
      FieldMeans(more, Noted(fs[0], fields, show), show, code);
      if fs[0].code == code {
        assert forall i :: 0 <= i < |more| ==> more[i].code != code;
      } else {
        forall i | 0 <= i < |fs| && fs[i].code == code ensures more[i - 1] == fs[i] { }
      }
    }
  }

  /** The field codes have different names. */
  lemma OneCodeEach(a: nat, b: nat)
    ensures NameOf(a).Some? && NameOf(a) == NameOf(b) ==> a == b
  {
  }

  /** The value of a field of a reply, None if it is absent or of the wrong size. */
  ghost function Told(fs: seq<Field>, code: nat, show: Show): Option<string>
    requires NameOf(code).Some?
  {
    if i :| 0 <= i < |fs| && fs[i].code == code && !Malformed(NameOf(code).value, |fs[i].value|)
    then Some(show(NameOf(code).value, fs[i].value)) else None
  }

  /** So a printed reply with distinct codes gives back each field: MAC, model, name and address are
      those of the fields with their codes, and the header's MAC stands in for a missing one. */
  lemma ReplyGivesItsFields(header: seq<Byte>, fs: seq<Field>, tail: seq<Byte>, u: Unicode)
    requires |header| == HEADER && header[1] == 2 && header[24..28] == SIGNATURE
    requires AllPrintable(fs) && DistinctCodes(fs) && Ends(tail)
    ensures var show := Rendering(u);
            Parse(header + (FieldsBytes(fs) + tail), u)
            == Some(Switch(MacOr(Told(fs, 0x0004, show), MacText(header[14..20])),
                           Told(fs, 0x0001, show), Told(fs, 0x0003, show), Told(fs, 0x0006, show)))
  {
    hide Parse, Meaning, FieldsBytes, MacText;
    var show := Rendering(u);
    ReplyRoundTrip(header, fs, tail, u);
    ToldIs(fs, show, 0x0001);
    ToldIs(fs, show, 0x0003);
    ToldIs(fs, show, 0x0004);
    ToldIs(fs, show, 0x0006);
  }

  /** The same by the bytes: what each field of the reply reads as. */
  lemma ReplyReads(header: seq<Byte>, fs: seq<Field>, tail: seq<Byte>, u: Unicode)
    requires |header| == 32 && header[1] == 2 && header[24..28] == [78, 83, 68, 80]
    requires AllPrintable(fs) && DistinctCodes(fs) && Ends(tail)
    ensures var r := Parse(header + (FieldsBytes(fs) + tail), u);
            && r.Some?
            && (forall f :: f in fs && f.code == 1 ==> r.value.modelName == Some(Label(f.value, u)))
            && ((forall f :: f in fs ==> f.code != 1) ==> r.value.modelName == None)
            && (forall f :: f in fs && f.code == 3 ==> r.value.switchName == Some(Label(f.value, u)))
            && ((forall f :: f in fs ==> f.code != 3) ==> r.value.switchName == None)
            && (forall f :: f in fs && f.code == 6 && |f.value| == 4 ==> r.value.ip == Some(Dotted(f.value)))
            && ((forall f :: f in fs && f.code == 6 ==> |f.value| != 4) ==> r.value.ip == None)
            && (forall f :: f in fs && f.code == 4 && |f.value| == 6 ==> r.value.mac == MacText(f.value))
            && ((forall f :: f in fs && f.code == 4 ==> |f.value| != 6) ==> r.value.mac == MacText(header[14..20]))
  {
    hide Parse, Label, Dotted, FieldsBytes, MacText, Told, AllPrintable, Ends, DistinctCodes;
    ReplyGivesItsFields(header, fs, tail, u);
    ToldReads(fs, u, 1);
    ToldReads(fs, u, 3);
    ToldReads(fs, u, 4);
    ToldReads(fs, u, 6);
    forall f | f in fs && f.code == 4 && |f.value| == 6 ensures MacText(f.value) != "" {
      MacTextReads(f.value, 0);
    }
  }

  /** A label is told whatever its size, an address and a MAC at theirs. */
  lemma ToldReads(fs: seq<Field>, u: Unicode, code: nat)
    requires DistinctCodes(fs) && code in {1, 3, 4, 6}
    ensures forall f :: f in fs && Sized(f, code) ==>
      Told(fs, code, Rendering(u)) == Some(
        if code == 4 then MacText(f.value) else if code == 6 then Dotted(f.value) else Label(f.value, u))
    ensures (forall f :: f in fs ==> !Sized(f, code)) ==> Told(fs, code, Rendering(u)) == None
  {
    hide Label, Dotted, MacText;
    assert forall f: Field :: f.code == code ==> (Sized(f, code) <==> !Malformed(NameOf(code).value, |f.value|));
    if f :| f in fs && Sized(f, code) {
      var i :| 0 <= i < |fs| && fs[i] == f;
      assert Told(fs, code, Rendering(u)) == Some(Shown(NameOf(code).value, fs[i].value, u));
      assert forall g :: g in fs && Sized(g, code) ==> g == f;
    }
  }

  /** The field has the code, and the six or four bytes that a MAC or an address must have. */
  predicate Sized(f: Field, code: nat) {
    f.code == code && (code == 4 ==> |f.value| == 6) && (code == 6 ==> |f.value| == 4)
  }

  function MacOr(told: Option<string>, deviceMac: string): string {
    if told.Some? && told.value != "" then told.value else deviceMac
  }

  lemma ToldIs(fs: seq<Field>, show: Show, code: nat)
    requires DistinctCodes(fs) && NameOf(code).Some?
    ensures Get(Meaning(fs, map[], show), NameOf(code).value) == Told(fs, code, show)
  {
    hide Meaning;
    FieldMeans(fs, map[], show, code);
  }

  /** Fields of a wrong size and unknown codes are as if they were not there, so a damaged address
      falls back to the MAC in the header. */
  predicate Ignored(f: Field) { NameOf(f.code).Some? ==> Malformed(NameOf(f.code).value, |f.value|) }

  function Heeded(fs: seq<Field>): seq<Field> {
    if fs == [] then [] else (if Ignored(fs[0]) then [] else [fs[0]]) + Heeded(fs[1..])
  }

  lemma IgnoredAddsNothing(f: Field, fields: Fields, show: Show)
    requires Ignored(f)
    ensures Noted(f, fields, show) == fields
  {
  }

  lemma MeaningHead(f: Field, more: seq<Field>, fields: Fields, show: Show)
    ensures Meaning([f] + more, fields, show) == Meaning(more, Noted(f, fields, show), show)
  {
    assert ([f] + more)[1..] == more;
  }

  lemma {:induction false} OnlyHeededCount(fs: seq<Field>, fields: Fields, show: Show)
    ensures Meaning(fs, fields, show) == Meaning(Heeded(fs), fields, show)
  {
    if fs != [] {
      OnlyHeededCount(fs[1..], Noted(fs[0], fields, show), show);
      if Ignored(fs[0]) {
        IgnoredAddsNothing(fs[0], fields, show);
        assert Heeded(fs) == Heeded(fs[1..]);
      } else {
        MeaningHead(fs[0], Heeded(fs[1..]), fields, show);
      }
    }
  }
}
