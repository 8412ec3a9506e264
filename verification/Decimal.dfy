/** Decimal numbers and separated lists as Python prints and reads them. */
module Decimal {

  function DigitChar(d: nat): char
    requires d < 10
  {
    ('0' as int + d) as char
  }

  predicate IsDigit(c: char) { '0' <= c <= '9' }

  /** str.isdigit for ASCII text: not empty, digits only. */
  predicate AllDigits(s: string) { s != "" && forall i :: 0 <= i < |s| ==> IsDigit(s[i]) }

  /** str(n) */
  function Print(n: nat): (s: string)
    ensures AllDigits(s)
  {
    if n < 10 then [DigitChar(n)] else Print(n / 10) + [DigitChar(n % 10)]
  }

  /** int(s) */
  function Value(s: string): nat
    requires AllDigits(s)
  {
    var last := s[|s| - 1] as int - '0' as int;
    if |s| == 1 then last else 10 * Value(s[..|s| - 1]) + last
  }

  lemma {:induction false} ValueOfPrint(n: nat)
    ensures Value(Print(n)) == n
  {
    if n >= 10 {
      ValueOfPrint(n / 10);
      assert Print(n)[..|Print(n)| - 1] == Print(n / 10);
    }
  }

  lemma PrintInjective(m: nat, n: nat)
    ensures Print(m) == Print(n) <==> m == n
  {
    ValueOfPrint(m);
    ValueOfPrint(n);
  }

  /** A number prints without leading zero. */
  lemma {:induction false} PrintLeads(n: nat)
    ensures Print(n)[0] == '0' <==> n == 0
  {
    if n >= 10 {
      PrintLeads(n / 10);
    }
  }

  // ----- join and split ---------------------------------------------------------------

  /** sep.join(parts) */
  function Join(parts: seq<string>, sep: char): string {
    if parts == [] then ""
    else if |parts| == 1 then parts[0]
    else parts[0] + [sep] + Join(parts[1..], sep)
  }

  /** s.split(sep), with the field read so far. */
  function SplitFrom(field: string, s: string, sep: char): (parts: seq<string>)
    ensures parts != []
    decreases |s|
  {
    if s == "" then [field]
    else if s[0] == sep then [field] + SplitFrom("", s[1..], sep)
    else SplitFrom(field + [s[0]], s[1..], sep)
  }

  function Split(s: string, sep: char): seq<string> { SplitFrom("", s, sep) }

  lemma {:induction false} SplitOneField(field: string, s: string, rest: string, sep: char)
    requires sep !in s
    ensures SplitFrom(field, s, sep) == [field + s]
    ensures SplitFrom(field, s + [sep] + rest, sep) == [field + s] + SplitFrom("", rest, sep)
    decreases |s|
  {
    if s == "" {
      assert s + [sep] + rest == [sep] + rest;
      assert field + s == field;
    } else {
      SplitOneField(field + [s[0]], s[1..], rest, sep);
      assert (s + [sep] + rest)[1..] == s[1..] + [sep] + rest;
      assert field + [s[0]] + s[1..] == field + s;
    }
  }

  /** Splitting what was joined gives the fields back, if none holds the separator. */
  lemma {:induction false} SplitOfJoin(parts: seq<string>, sep: char)
    requires parts != [] && forall i :: 0 <= i < |parts| ==> sep !in parts[i]
    ensures Split(Join(parts, sep), sep) == parts
  {
    if |parts| == 1 {
      SplitOneField("", parts[0], "", sep);
      assert "" + parts[0] == parts[0] && parts == [parts[0]];
    } else {
      SplitOfJoin(parts[1..], sep);
      SplitOneField("", parts[0], Join(parts[1..], sep), sep);
      assert "" + parts[0] == parts[0] && parts == [parts[0]] + parts[1..];
    }
  }

  /** So a list of equally many such fields is determined by its joined text. */
  lemma JoinInjective(a: seq<string>, b: seq<string>, sep: char)
    requires a != [] && b != []
    requires (forall i :: 0 <= i < |a| ==> sep !in a[i]) && (forall i :: 0 <= i < |b| ==> sep !in b[i])
    ensures Join(a, sep) == Join(b, sep) <==> a == b
  {
    SplitOfJoin(a, sep);
    SplitOfJoin(b, sep);
  }
}
