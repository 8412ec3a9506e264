/** The DHCP packet parser of src/pollers/dhcp_sniffer.py: BOOTP header, then the options of
    sections 2, 3.1 and 3.2 of RFC 2132, then the host name rule. */
module Dhcp {
  import opened Common
  import opened Octets
  import opened Text

  const PAD: Byte := 0
  const END: Byte := 255
  const HOST_NAME: Byte := 12
  const CLIENT_FQDN: Byte := 81
  const HEADER := 240
  const COOKIE: seq<Byte> := [99, 130, 83, 99]

  type Options = map<Byte, seq<Byte>>

  datatype Lease = Lease(mac: string, hostname: Option<string>)

  // ----- the option walk --------------------------------------------------------------

  /** The options from index `i` on, on top of those read so far. */
  function Walk(data: seq<Byte>, i: nat, options: Options): Options
    decreases if i < |data| then |data| - i else 0
  {
    if i >= |data| || data[i] == END then options
    else if data[i] == PAD then Walk(data, i + 1, options)
    else if i + 1 >= |data| then options
    else
      var hi := i + 2 + data[i + 1] as nat;
      Walk(data, hi, options[data[i] := Slice(data, i + 2, hi)])
  }

  /** The options of a packet, as a printer writes them. */
  datatype Item = Pad | Opt(code: Byte, value: seq<Byte>)

  predicate Printable(item: Item) { item.Opt? ==> item.code != PAD && item.code != END && |item.value| < 256 }

  function ItemBytes(item: Item): seq<Byte>
    requires Printable(item)
  {
    match item
    case Pad => [PAD]
    case Opt(code, value) => [code, |value|] + value
  }

  ghost predicate AllPrintable(items: seq<Item>) { forall i :: 0 <= i < |items| ==> Printable(items[i]) }

  ghost function ItemsBytes(items: seq<Item>): seq<Byte>
    requires AllPrintable(items)
  {
    if items == [] then [] else ItemBytes(items[0]) + ItemsBytes(items[1..])
  }

  /** What a list of options says, the last of a repeated code winning. */
  function Meaning(items: seq<Item>, options: Options): Options {
    if items == [] then options
    else Meaning(items[1..], Noted(items[0], options))
  }

  /** The effect of reading one item. */
  function Noted(item: Item, options: Options): Options {
    if item.Opt? then options[item.code := item.value] else options
  }

  function Size(item: Item): (n: nat)
    ensures n >= 1
  {
    if item.Pad? then 1 else 2 + |item.value|
  }

  /** The item stands at index `i`. */
  predicate Here(data: seq<Byte>, i: nat, item: Item) {
    && Printable(item) && i + Size(item) <= |data|
    && match item
       case Pad => data[i] == PAD
       case Opt(code, value) => data[i] == code && data[i + 1] == |value| && data[i + 2..i + 2 + |value|] == value
  }

  lemma HereIsPrinted(data: seq<Byte>, i: nat, item: Item)
    requires Printable(item) && i + Size(item) <= |data|
    ensures |ItemBytes(item)| == Size(item)
    ensures Here(data, i, item) <==> data[i..i + Size(item)] == ItemBytes(item)
  {
    var shown := data[i..i + Size(item)];
    assert shown[0] == data[i];
    if item.Opt? {
      assert shown[1] == data[i + 1] && shown[2..] == data[i + 2..i + 2 + |item.value|];
      assert shown == [data[i], data[i + 1]] + shown[2..];
      assert ItemBytes(item)[0] == item.code && ItemBytes(item)[1] == |item.value|
        && ItemBytes(item)[2..] == item.value;
    }
  }

  /** The items stand one after the other from index `i` on, then the tail. */
  ghost predicate Reads(data: seq<Byte>, i: nat, items: seq<Item>, tail: seq<Byte>)
    decreases |items|
  {
    if items == [] then i <= |data| && data[i..] == tail
    else Here(data, i, items[0]) && Reads(data, i + Size(items[0]), items[1..], tail)
  }

  lemma {:induction false} ReadsIsPrinted(data: seq<Byte>, i: nat, items: seq<Item>, tail: seq<Byte>)
    requires AllPrintable(items) && i <= |data|
    ensures Reads(data, i, items, tail) <==> data[i..] == ItemsBytes(items) + tail
    decreases |items|
  {
    if items == [] {
      assert ItemsBytes(items) + tail == tail;
    } else {
      var item, more := items[0], items[1..];
      var n := Size(item);
      assert Printable(item) && AllPrintable(more);
      assert Reads(data, i, items, tail) <==> Here(data, i, item) && Reads(data, i + n, more, tail);
      assert ItemsBytes(items) == ItemBytes(item) + ItemsBytes(more);
      hide Here, ItemBytes, ItemsBytes, Reads, Printable, AllPrintable, Size;
      SizeOfPrint(item);
      HereFits(data, i, item);
      HeadOfPrint(data[i..], ItemBytes(item), ItemsBytes(more), tail);
      if i + n <= |data| {
        HereIsPrinted(data, i, item);
        TakeDrop(data, i, n);
        ReadsIsPrinted(data, i + n, more, tail);
      }
    }
  }

  lemma HereFits(data: seq<Byte>, i: nat, item: Item)
    ensures Here(data, i, item) ==> i + Size(item) <= |data|
  {
  }

  lemma SizeOfPrint(item: Item)
    requires Printable(item)
    ensures |ItemBytes(item)| == Size(item)
  {
  }

  lemma WalkItem(data: seq<Byte>, i: nat, item: Item, options: Options)
    requires Here(data, i, item)
    ensures Walk(data, i, options) == Walk(data, i + Size(item), Noted(item, options))
  {
  }

  lemma {:induction false} WalkReads(data: seq<Byte>, i: nat, items: seq<Item>, tail: seq<Byte>, options: Options)
    returns (end: nat)
    requires Reads(data, i, items, tail)
    ensures end <= |data| && data[end..] == tail
    ensures Walk(data, i, options) == Walk(data, end, Meaning(items, options))
    decreases |items|
  {
    if items == [] {
      end := i;
    } else {
      WalkItem(data, i, items[0], options);
      end := WalkReads(data, i + Size(items[0]), items[1..], tail, Noted(items[0], options));
    }
  }

  /** The walk inverts the printer, whatever the padding and whatever follows the end option. */
  lemma WalkInvertsPrinter(data: seq<Byte>, i: nat, items: seq<Item>, tail: seq<Byte>, options: Options)
    requires AllPrintable(items) && (tail == [] || tail[0] == END)
    requires i <= |data| && data[i..] == ItemsBytes(items) + tail
    ensures Walk(data, i, options) == Meaning(items, options)
  {
    ReadsIsPrinted(data, i, items, tail);
    var end := WalkReads(data, i, items, tail, options);
    assert tail != [] ==> data[end] == tail[0];
  }

  /** The end of the bytes as the walk meets it. */
  predicate Stops(tail: seq<Byte>) {
    tail == [] || tail[0] == END || (tail[0] != PAD && (|tail| == 1 || |tail| < 2 + tail[1] as nat))
  }

  /** An option cut off by the end of the data still counts, with the bytes it has. */
  function CutOff(tail: seq<Byte>, options: Options): Options {
    if |tail| >= 2 && tail[0] != END && tail[0] != PAD then options[tail[0] := tail[2..]] else options
  }

  /** Conversely every byte string is a printed list of options and an end, and the walk yields what
      those options say; so nothing is ever rejected, skipped or read past the end. */
  lemma EveryInputIsAPrint(data: seq<Byte>, i: nat, options: Options) returns (items: seq<Item>, tail: seq<Byte>)
    requires i <= |data|
    ensures AllPrintable(items) && Stops(tail) && data[i..] == ItemsBytes(items) + tail
    ensures Walk(data, i, options) == CutOff(tail, Meaning(items, options))
  {
    items, tail := ReadAll(data, i);
    ReadsIsPrinted(data, i, items, tail);
    var end := WalkReads(data, i, items, tail, options);
    StopsHere(data, end, Meaning(items, options));
  }

  lemma {:induction false} ReadAll(data: seq<Byte>, i: nat) returns (items: seq<Item>, tail: seq<Byte>)
    requires i <= |data|
    ensures AllPrintable(items) && Stops(tail) && Reads(data, i, items, tail)
    decreases |data| - i
  {
    if Stops(data[i..]) {
      items, tail := [], data[i..];
    } else {
      var first := FirstItem(data, i);
      var more: seq<Item>;
      more, tail := ReadAll(data, i + Size(first));
      items := [first] + more;
      assert items[1..] == more;
    }
  }

  lemma FirstItem(data: seq<Byte>, i: nat) returns (first: Item)
    requires i <= |data| && !Stops(data[i..])
    ensures Here(data, i, first)
  {
    var rest := data[i..];
    assert rest[0] == data[i];
    if rest[0] == PAD {
      first := Pad;
    } else {
      var n := rest[1] as nat;
      first := Opt(data[i], data[i + 2..i + 2 + n]);
      assert rest[1] == data[i + 1];
    }
  }

  lemma StopsHere(data: seq<Byte>, i: nat, options: Options)
    requires i <= |data| && Stops(data[i..])
    ensures Walk(data, i, options) == CutOff(data[i..], options)
  {
    var rest := data[i..];
    if i + 1 < |data| && rest[0] != END {
      var hi := i + 2 + data[i + 1] as nat;
      assert rest[0] == data[i] && rest[1] == data[i + 1];
      assert Slice(data, i + 2, hi) == rest[2..];
      assert Walk(data, hi, options[data[i] := rest[2..]]) == options[data[i] := rest[2..]];
    }
  }

  // ----- the host name ----------------------------------------------------------------

  function NoneIfEmpty(s: string): Option<string> { if s == "" then None else Some(s) }

  function Kept(s: string, keep: char -> bool): (r: string)
    ensures forall c :: c in r ==> keep(c) && c in s
    ensures (forall c :: c in s ==> keep(c)) ==> r == s
  {
    if s == "" then ""
    else
      assert s == [s[0]] + s[1..];
      if keep(s[0]) then [s[0]] + Kept(s[1..], keep) else Kept(s[1..], keep)
  }

  function FirstLabel(s: string): (r: string)
    ensures '.' !in r && |r| <= |s| && r == s[..|r|]
    ensures |r| < |s| ==> s[|r|] == '.'
  {
    if s == "" || s[0] == '.' then "" else [s[0]] + FirstLabel(s[1..])
  }

  predicate Present(options: Options, code: Byte) { code in options && options[code] != [] }

  /** Option 12 if present and not empty, else the first label of option 81. */
  function HostName(options: Options, u: Unicode): Option<string> {
    if Present(options, HOST_NAME) then NoneIfEmpty(Strip(u.utf8(options[HOST_NAME]), u.isSpace))
    else if Present(options, CLIENT_FQDN) then
      var fqdn := options[CLIENT_FQDN];
      NoneIfEmpty(Strip(FirstLabel(Kept(u.utf8(if |fqdn| > 3 then fqdn[3..] else fqdn), u.isPrintable)), u.isSpace))
    else None
  }

  lemma {:induction false} KeptAppends(s: string, t: string, keep: char -> bool)
    ensures Kept(s + t, keep) == Kept(s, keep) + Kept(t, keep)
  {
    hide Kept;
    if s == "" {
      assert s + t == t;
      KeptNothing(keep);
    } else {
      KeptAppends(s[1..], t, keep);
      assert (s + t)[1..] == s[1..] + t && (s + t)[0] == s[0];
      KeptHead(s, keep);
      KeptHead(s + t, keep);
    }
  }

  lemma KeptNothing(keep: char -> bool)
    ensures Kept("", keep) == ""
  {
  }

  lemma KeptHead(s: string, keep: char -> bool)
    requires s != ""
    ensures Kept(s, keep) == (if keep(s[0]) then [s[0]] else "") + Kept(s[1..], keep)
  {
  }

  lemma {:induction false} FirstLabelEnds(name: string, rest: string)
    requires '.' !in name
    ensures FirstLabel(name) == name && FirstLabel(name + "." + rest) == name
  {
    if name != "" {
      FirstLabelEnds(name[1..], rest);
      assert (name + "." + rest)[1..] == name[1..] + "." + rest;
      assert name == [name[0]] + name[1..];
    }
  }

  /** Without a usable option 12, a name in option 81 gives its first label: the three flag octets are
      skipped where there are more, unprintable characters dropped wherever they stand, and what
      follows the first dot ignored. */
  lemma FqdnGivesFirstLabel(options: Options, u: Unicode, flags: seq<Byte>, text: seq<Byte>, name: string, rest: string)
    requires (12 in options ==> options[12] == []) && 81 in options && text != []
    requires options[81] == flags + text && (|flags| == 3 || (flags == [] && |text| <= 3))
    requires Kept(u.utf8(text), u.isPrintable) in {name, name + "." + rest}
    requires '.' !in name && name != "" && Stripped(name, u.isSpace)
    ensures HostName(options, u) == Some(name)
  {
    FirstLabelEnds(name, rest);
    var fqdn := options[CLIENT_FQDN];
    assert (if |fqdn| > 3 then fqdn[3..] else fqdn) == text;
  }

  /** Dropping the unprintable characters keeps the others, all of them, in order. */
  lemma KeptExactly(s: string, c: char, t: string, keep: char -> bool)
    ensures Kept(s + [c] + t, keep) == Kept(s, keep) + (if keep(c) then [c] else "") + Kept(t, keep)
    ensures Kept("", keep) == ""
  {
    hide Kept;
    KeptAppends(s + [c], t, keep);
    KeptAppends(s, [c], keep);
    KeptHead([c], keep);
    KeptNothing(keep);
    assert [c][1..] == "";
  }

  /** Whatever a client sends, a name is never empty or padded with spaces; one from option 81 is a
      single label of printable characters. */
  lemma NamesAreTidy(options: Options, u: Unicode)
    requires HostName(options, u).Some?
    ensures var n := HostName(options, u).value; n != "" && Stripped(n, u.isSpace)
    ensures var n := HostName(options, u).value;
            !Present(options, HOST_NAME) ==> Present(options, CLIENT_FQDN) && '.' !in n && forall c :: c in n ==>
              u.isPrintable(c)
  {
    if !Present(options, HOST_NAME) {
      var fqdn := options[CLIENT_FQDN];
      var name := FirstLabel(Kept(u.utf8(if |fqdn| > 3 then fqdn[3..] else fqdn), u.isPrintable));
      assert forall c :: c in name ==> u.isPrintable(c);
    }
  }

  // ----- the packet -------------------------------------------------------------------

  function HardwareAddress(data: seq<Byte>): (chaddr: seq<Byte>)
    requires |data| >= HEADER
    ensures 0 < |chaddr| <= 16
  {
    var hlen := data[2];
    data[28..44][..if 0 < hlen <= 16 then hlen else 6]
  }

  predicate AllZero(bytes: seq<Byte>) { forall i :: 0 <= i < |bytes| ==> bytes[i] == 0 }

  predicate Usable(data: seq<Byte>) {
    |data| >= HEADER && !AllZero(HardwareAddress(data)) && data[236..240] == COOKIE
  }

  function Mac(data: seq<Byte>): string
    requires |data| >= HEADER
  {
    MacText(Slice(HardwareAddress(data), 0, 6))
  }

  function Parse(data: seq<Byte>, u: Unicode): Option<Lease> {
    if Usable(data) then Some(Lease(Mac(data), HostName(Walk(data, HEADER, map[]), u))) else None
  }

  /** The option loop. */
  method ReadOptions(data: seq<Byte>) returns (options: Options)
    ensures options == Walk(data, HEADER, map[])
  {
    options := map[];
    var i := HEADER;
    while i < |data|
      invariant Walk(data, i, options) == Walk(data, HEADER, map[])
      decreases |data| - i
    {
      if data[i] == END {
        return;
      }
      if data[i] == PAD {
        i := i + 1;
        continue;
      }
      if i + 1 >= |data| {
        return;
      }
      var hi := i + 2 + data[i + 1] as nat;
      options := options[data[i] := Slice(data, i + 2, hi)];
      i := hi;
    }
  }

  /** The hardware address has the length the packet states, or six octets for a length that does not fit. */
  lemma NonZeroAt(data: seq<Byte>)
    requires |data| >= HEADER
    ensures !AllZero(HardwareAddress(data)) <==>
      exists i :: 28 <= i < (if 0 < data[2] <= 16 then 28 + data[2] as nat else 34) && data[i] != 0
  {
    var hw := HardwareAddress(data);
    assert |hw| == if 0 < data[2] <= 16 then data[2] as nat else 6;
    assert forall k :: 0 <= k < |hw| ==> hw[k] == data[28 + k];
    if i :| 28 <= i < 28 + |hw| && data[i] != 0 {
      assert hw[i - 28] != 0;
    }
  }

  /** _parse_bootp_dhcp: total on every byte string. */
  method ParseBootpDhcp(data: seq<Byte>, u: Unicode) returns (r: Option<Lease>)
    ensures r == Parse(data, u)
    ensures r.Some? <==>
      && |data| >= 240 && data[236..240] == [99, 130, 83, 99]
      && exists i :: 28 <= i < (if 0 < data[2] <= 16 then 28 + data[2] as nat else 34) && data[i] != 0
  {
    if |data| < HEADER {
      return None;
    }
    var chaddr := HardwareAddress(data);
    NonZeroAt(data);
    if AllZero(chaddr) || data[236..240] != COOKIE {
      return None;
    }
    var options := ReadOptions(data);
    return Some(Lease(Mac(data), HostName(options, u)));
  }

  // ----- a well-formed packet ---------------------------------------------------------

  /** A header whose hardware address is `hw`: the first hlen octets of chaddr for a length that fits
      the field, six of them for any other. */
  predicate HeaderOf(header: seq<Byte>, hw: seq<Byte>) {
    && |header| == HEADER && 0 < |hw| <= 16 && header[28..28 + |hw|] == hw && header[236..240] == COOKIE
    && (if 0 < header[2] <= 16 then |hw| == header[2] as nat else |hw| == 6)
  }

  lemma PacketParts(header: seq<Byte>, hw: seq<Byte>, body: seq<Byte>)
    requires HeaderOf(header, hw)
    ensures var data := header + body;
            data[HEADER..] == body && data[236..240] == COOKIE && HardwareAddress(data) == hw
  {
    var data := header + body;
    assert data[28..44][..|hw|] == data[28..28 + |hw|] == header[28..28 + |hw|];
    assert data[236..240] == header[236..240] && data[2] == header[2];
  }

  /** A packet gives back its address, the first six octets of it, and the name its options carry, for
      every hardware length: the name depends on nothing but the last option 12 and option 81, so not
      on padding, the order of other options or what follows the end option. */
  lemma PacketRoundTrip(header: seq<Byte>, hw: seq<Byte>, items: seq<Item>, tail: seq<Byte>, u: Unicode)
    requires HeaderOf(header, hw) && AllPrintable(items) && (tail == [] || tail[0] == END)
    ensures Parse(header + (ItemsBytes(items) + tail), u)
            == if AllZero(hw) then None else Some(Lease(MacText(Slice(hw, 0, 6)), HostName(Meaning(items, map[]), u)))
  {
    hide Walk, HostName, MacText, HardwareAddress, HeaderOf;
    var data := header + (ItemsBytes(items) + tail);
    PacketParts(header, hw, ItemsBytes(items) + tail);
    HeaderLong(header, hw);
    WalkInvertsPrinter(data, HEADER, items, tail, map[]);
  }

  lemma HeaderLong(header: seq<Byte>, hw: seq<Byte>)
    requires HeaderOf(header, hw)
    ensures |header| == HEADER
  {
  }

  /** With distinct codes, an option means the value it was printed with. */
  ghost predicate DistinctCodes(items: seq<Item>) {
    forall i, j :: 0 <= i < j < |items| && items[i].Opt? && items[j].Opt? ==> items[i].code != items[j].code
  }

  lemma {:induction false} OptionMeans(items: seq<Item>, options: Options, code: Byte)
    requires DistinctCodes(items)
    ensures forall i :: 0 <= i < |items| && items[i].Opt? && items[i].code == code ==>
      code in Meaning(items, options) && Meaning(items, options)[code] == items[i].value
    ensures (forall i :: 0 <= i < |items| && items[i].Opt? ==> items[i].code != code) ==>
              (code in Meaning(items, options) <==> code in options)
                && (code in options ==> Meaning(items, options)[code] == options[code])
  {
    if items != [] {
      var more := items[1..];
      var next := Noted(items[0], options);
      assert forall i :: 0 <= i < |more| ==> more[i] == items[i + 1];
      OptionMeans(more, next, code);
      forall i | 0 <= i < |items| && items[i].Opt? && items[i].code == code
        ensures code in Meaning(items, options) && Meaning(items, options)[code] == items[i].value
      {
        if i > 0 {
          assert more[i - 1] == items[i];
        } else {
          assert forall j :: 0 <= j < |more| && more[j].Opt? ==> more[j].code != code;
        }
      }
    }
  }

  /** Option 12 wins over option 81: with one in the packet the name is its text, and None if that
      is blank, even where option 81 holds a name. */
  lemma OptionTwelveWins(header: seq<Byte>, hw: seq<Byte>, items: seq<Item>, tail: seq<Byte>, u: Unicode, i: nat)
    requires HeaderOf(header, hw) && !AllZero(hw) && AllPrintable(items) && DistinctCodes(items)
    requires tail == [] || tail[0] == 255
    requires i < |items| && items[i].Opt? && items[i].code == 12 && items[i].value != []
    ensures Parse(header + (ItemsBytes(items) + tail), u)
            == Some(Lease(MacText(Slice(hw, 0, 6)), NoneIfEmpty(Strip(u.utf8(items[i].value), u.isSpace))))
  {
    hide Parse, MacText, HeaderOf, ItemsBytes, Meaning;
    PacketRoundTrip(header, hw, items, tail, u);
    OptionMeans(items, map[], HOST_NAME);
  }
}
