/** str.strip and the parts of Unicode the models leave open. */
module Text {
  import opened Common

  /** Python's character tables and its byte decoders, which the models do not fix. */
  datatype Unicode = Unicode(isSpace: char -> bool, isPrintable: char -> bool, lower: string -> string,
      utf8: seq<Byte> -> string, ascii: seq<Byte> -> string)

  function LStrip(s: string, drop: char -> bool): (r: string)
    ensures r != "" ==> !drop(r[0])
    ensures |r| <= |s| && r == s[|s| - |r|..] && forall i :: 0 <= i < |s| - |r| ==> drop(s[i])
  {
    if s != "" && drop(s[0]) then LStrip(s[1..], drop) else s
  }

  function RStrip(s: string, drop: char -> bool): (r: string)
    ensures r != "" ==> !drop(r[|r| - 1])
    ensures |r| <= |s| && r == s[..|r|] && forall i :: |r| <= i < |s| ==> drop(s[i])
  {
    if s != "" && drop(s[|s| - 1]) then RStrip(s[..|s| - 1], drop) else s
  }

  predicate Stripped(s: string, drop: char -> bool) { s != "" ==> !drop(s[0]) && !drop(s[|s| - 1]) }

  function Strip(s: string, drop: char -> bool): (r: string)
    ensures Stripped(r, drop) && |r| <= |s|
    ensures Stripped(s, drop) ==> r == s
    ensures forall c :: c in r ==> c in s
  {
    RStrip(LStrip(s, drop), drop)
  }

  /** Stripping takes off characters to drop at both ends, and nothing else. */
  lemma StripExactly(s: string, drop: char -> bool) returns (i: nat)
    ensures i + |Strip(s, drop)| <= |s| && s[i..i + |Strip(s, drop)|] == Strip(s, drop)
    ensures forall k :: 0 <= k < i || i + |Strip(s, drop)| <= k < |s| ==> drop(s[k])
  {
    var l := LStrip(s, drop);
    var r := RStrip(l, drop);
    i := |s| - |l|;
    forall k | i + |r| <= k < |s| ensures drop(s[k]) {
      assert s[k] == l[k - i];
    }
  }
}

/** Bytes, and how the repository prints MAC addresses. */
module Octets {
  import opened Common
  import opened Decimal


  function HexChar(d: nat): (c: char)
    requires d < 16
    ensures c != ':'
  {
    "0123456789abcdef"[d]
  }

  /** f"{n:02x}" of an octet */
  function Hex2(n: Byte): (s: string)
    ensures |s| == 2 && ':' !in s
  {
    [HexChar(n / 16), HexChar(n % 16)]
  }

  lemma HexCharInjective(a: nat, b: nat)
    requires a < 16 && b < 16
    ensures HexChar(a) == HexChar(b) <==> a == b
  {
    var t := "0123456789abcdef";
    assert forall i, j :: 0 <= i < j < |t| ==> t[i] != t[j];
  }

  lemma Hex2Injective(a: Byte, b: Byte)
    ensures Hex2(a) == Hex2(b) <==> a == b
  {
    HexCharInjective(a / 16, b / 16);
    HexCharInjective(a % 16, b % 16);
    assert Hex2(a)[0] == HexChar(a / 16) && Hex2(a)[1] == HexChar(a % 16);
    assert Hex2(b)[0] == HexChar(b / 16) && Hex2(b)[1] == HexChar(b % 16);
  }

  /** ":".join(f"{b:02x}" for b in octets) */
  function HexFields(octets: seq<Byte>): (f: seq<string>)
    ensures |f| == |octets| && forall i :: 0 <= i < |f| ==> f[i] == Hex2(octets[i])
  {
    seq(|octets|, i requires 0 <= i < |octets| => Hex2(octets[i]))
  }

  function MacText(octets: seq<Byte>): string
  {
    Join(HexFields(octets), ':')
  }

  /** The character of a hexadecimal digit. */
  lemma HexCharMeans(d: nat)
    requires d < 16
    ensures HexChar(d) as int == if d < 10 then '0' as int + d else 'a' as int + d - 10
  {
    var t := "0123456789abcdef";
    assert forall i :: 0 <= i < 10 ==> t[i] as int == '0' as int + i;
    assert forall i :: 10 <= i < 16 ==> t[i] as int == 'a' as int + i - 10;
  }

  /** The text of an address: two hexadecimal digits for each octet, the high one first, with a colon
      between octets. */
  lemma {:induction false} MacTextReads(octets: seq<Byte>, i: nat)
    requires i < |octets|
    ensures |MacText(octets)| == 3 * |octets| - 1
    ensures MacText(octets)[3 * i] == HexChar(octets[i] / 16) && MacText(octets)[3 * i + 1] == HexChar(octets[i] % 16)
    ensures i + 1 < |octets| ==> MacText(octets)[3 * i + 2] == ':'
  {
    var f := HexFields(octets);
    assert f[0] == Hex2(octets[0]);
    if |octets| > 1 {
      assert HexFields(octets[1..]) == f[1..];
      assert MacText(octets) == f[0] + [':'] + MacText(octets[1..]);
      MacTextReads(octets[1..], if i > 0 then i - 1 else 0);
    }
  }

  /** Two hardware addresses print alike exactly when they are the same. */
  lemma MacTextInjective(a: seq<Byte>, b: seq<Byte>)
    requires a != [] && b != []
    ensures MacText(a) == MacText(b) <==> a == b
  {
    JoinInjective(HexFields(a), HexFields(b), ':');
    if HexFields(a) == HexFields(b) {
      forall i | 0 <= i < |a| ensures a[i] == b[i] {
        assert HexFields(a)[i] == HexFields(b)[i];
        Hex2Injective(a[i], b[i]);
      }
    }
  }

  // ----- slices of a datagram ---------------------------------------------------------

  /** data[lo:hi], which stops at the end of the data */
  function Slice(data: seq<Byte>, lo: nat, hi: nat): seq<Byte> {
    if hi <= |data| then (if lo <= hi then data[lo..hi] else [])
    else if lo <= |data| then data[lo..] else []
  }

  lemma HeadOfPrint(rest: seq<Byte>, a: seq<Byte>, b: seq<Byte>, c: seq<Byte>)
    ensures rest == (a + b) + c <==> |a| <= |rest| && rest[..|a|] == a && rest[|a|..] == b + c
  {
    assert (a + b) + c == a + (b + c);
    if |a| <= |rest| {
      assert rest == rest[..|a|] + rest[|a|..];
    }
  }

  lemma TakeDrop(data: seq<Byte>, i: nat, n: nat)
    requires i + n <= |data|
    ensures data[i..][..n] == data[i..i + n] && data[i..][n..] == data[i + n..]
  {
  }

  lemma Regroup(a: seq<Byte>, b: seq<Byte>, c: seq<Byte>)
    ensures (a + b) + c == a + (b + c)
  {
  }
}
