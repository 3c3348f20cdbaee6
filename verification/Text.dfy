/** String operations of the source language that the parsers and message builders use. */
module Text {
  import opened Basics

  // ---------------------------------------------------------------- split and join

  /** s.split(d) for a one-character separator. */
  function Split(s: string, d: char): (parts: seq<string>)
    ensures |parts| > 0
    ensures forall i :: 0 <= i < |parts| ==> d !in parts[i]
  {
    if s == "" then [""]
    else
      var rest := Split(s[1..], d);
      if s[0] == d then [""] + rest
      else [[s[0]] + rest[0]] + rest[1..]
  }

  /** parts.join(d). */
  function Join(parts: seq<string>, d: string): string {
    if |parts| == 0 then ""
    else if |parts| == 1 then parts[0]
    else parts[0] + d + Join(parts[1..], d)
  }

  lemma {:induction false} SplitSingle(s: string, d: char)
    requires d !in s
    ensures Split(s, d) == [s]
  {
    if s != "" {
      assert s[0] in s;
      SplitSingle(s[1..], d);
      assert [s[0]] + s[1..] == s;
    }
  }

  lemma SplitCons(c: char, s: string, d: char)
    ensures c == d ==> Split([c] + s, d) == [""] + Split(s, d)
    ensures c != d ==> Split([c] + s, d) == [[c] + Split(s, d)[0]] + Split(s, d)[1..]
  {}

  lemma ConsConcat(r: seq<string>, q: seq<string>, c: string)
    requires |r| > 0
    ensures [""] + (r + q) == ([""] + r) + q
    ensures [c + (r + q)[0]] + (r + q)[1..] == ([c + r[0]] + r[1..]) + q
  {}

  /** Splitting distributes over concatenation at a separator. */
  lemma {:induction false} SplitConcat(a: string, b: string, d: char)
    ensures Split(a + [d] + b, d) == Split(a, d) + Split(b, d)
  {
    if a == "" {
      assert a + [d] + b == [d] + b;
      SplitCons(d, b, d);
    } else {
      var c, t, u := a[0], a[1..], a[1..] + [d] + b;
      SplitConcat(t, b, d);
      assert a == [c] + t && a + [d] + b == [c] + u;
      SplitCons(c, t, d);
      SplitCons(c, u, d);
      ConsConcat(Split(t, d), Split(b, d), [c]);
    }
  }

  /** A field that holds no separator is exactly one part, and leads the split. */
  lemma SplitField(field: string, rest: string, d: char)
    requires d !in field
    ensures Split(field + [d] + rest, d) == [field] + Split(rest, d)
  {
    SplitConcat(field, rest, d);
    SplitSingle(field, d);
  }

  lemma {:induction false} JoinSplit(s: string, d: char)
    ensures Join(Split(s, d), [d]) == s
  {
    if s != "" {
      JoinSplit(s[1..], d);
      var rest := Split(s[1..], d);
      if s[0] == d {
        assert ([""] + rest)[1..] == rest;
        assert "" + [d] + s[1..] == s;
      } else {
        var whole := [[s[0]] + rest[0]] + rest[1..];
        assert whole[1..] == rest[1..];
        if |rest| == 1 {
          assert [s[0]] + s[1..] == s;
        } else {
          assert [s[0]] + rest[0] + [d] + Join(rest[1..], [d]) == [s[0]] + (rest[0] + [d] + Join(rest[1..], [d]));
          assert [s[0]] + s[1..] == s;
        }
      }
    }
  }

  lemma SplitInjective(a: string, b: string, d: char)
    requires Split(a, d) == Split(b, d)
    ensures a == b
  {
    JoinSplit(a, d);
    JoinSplit(b, d);
  }

  lemma SameStart(start: string, a: string, b: string)
    ensures start + a == start + b <==> a == b
  {
    assert (start + a)[|start|..] == a && (start + b)[|start|..] == b;
  }

  // ---------------------------------------------------------------- trimming and searching

  /** The white space and line terminators that String.prototype.trim removes. */
  predicate IsSpace(c: char) {
    c in " \t\n\r\U{B}\U{C}\U{A0}\U{1680}\U{2028}\U{2029}\U{202F}\U{205F}\U{3000}\U{FEFF}"
    || '\U{2000}' <= c <= '\U{200A}'
  }

  function TrimStart(s: string): string {
    if s != "" && IsSpace(s[0]) then TrimStart(s[1..]) else s
  }

  function TrimEnd(s: string): string {
    if s != "" && IsSpace(s[|s| - 1]) then TrimEnd(s[..|s| - 1]) else s
  }

  function Trim(s: string): string {
    TrimEnd(TrimStart(s))
  }

  /** Trimming takes white space off both ends and nothing else. */
  lemma {:induction false} TrimExactly(s: string) returns (before: string, after: string)
    ensures s == before + Trim(s) + after
    ensures (forall c <- before + after :: IsSpace(c))
    ensures Trim(s) != "" ==> !IsSpace(Trim(s)[0]) && !IsSpace(Trim(s)[|Trim(s)| - 1])
  {
    before := StartTrimmed(s);
    after := EndTrimmed(TrimStart(s));
    assert s == before + (Trim(s) + after);
    if Trim(s) != "" {
      assert TrimStart(s)[0] == Trim(s)[0];
    }
  }

  lemma {:induction false} StartTrimmed(s: string) returns (before: string)
    ensures s == before + TrimStart(s) && (forall c <- before :: IsSpace(c))
    ensures TrimStart(s) != "" ==> !IsSpace(TrimStart(s)[0])
  {
    before := "";
    if s != "" && IsSpace(s[0]) {
      before := StartTrimmed(s[1..]);
      before := [s[0]] + before;
    }
  }

  lemma {:induction false} EndTrimmed(s: string) returns (after: string)
    ensures s == TrimEnd(s) + after && (forall c <- after :: IsSpace(c))
    ensures TrimEnd(s) != "" ==> !IsSpace(TrimEnd(s)[|TrimEnd(s)| - 1])
  {
    after := "";
    if s != "" && IsSpace(s[|s| - 1]) {
      after := EndTrimmed(s[..|s| - 1]);
      after := after + [s[|s| - 1]];
    }
  }

  predicate NoSpace(s: string) {
    forall c <- s :: !IsSpace(c)
  }

  lemma TrimNoSpace(s: string)
    requires NoSpace(s)
    ensures Trim(s) == s
  {}

  /** s.indexOf(c), with None for -1. */
  function IndexOf(s: string, c: char): (i: Option<nat>)
    ensures i.None? <==> c !in s
    ensures i.Some? ==> i.value < |s| && s[i.value] == c && forall j :: 0 <= j < i.value ==> s[j] != c
  {
    if s == "" then None
    else if s[0] == c then Some(0)
    else
      match IndexOf(s[1..], c)
      case None => None
      case Some(i) => Some(i + 1)
  }

  /** The first occurrence of a separator is where the leading separator-free field ends. */
  lemma IndexOfField(field: string, c: char, rest: string)
    requires c !in field
    ensures IndexOf(field + [c] + rest, c) == Some(|field|)
  {
    var s := field + [c] + rest;
    assert s[|field|] == c;
    assert forall j :: 0 <= j < |field| ==> s[j] == field[j];
  }

  // ---------------------------------------------------------------- decimal integers

  function Digit(d: int): char
    requires 0 <= d < 10
  {
    "0123456789"[d]
  }

  predicate IsDigit(c: char) {
    '0' <= c <= '9'
  }

  function DigitValue(c: char): int
    requires IsDigit(c)
  {
    c as int - '0' as int
  }

  function PrintNat(n: nat): (s: string)
    ensures |s| > 0
    ensures forall c <- s :: IsDigit(c)
  {
    if n < 10 then [Digit(n)] else PrintNat(n / 10) + [Digit(n % 10)]
  }

  /** The text of an integer number in a template literal. */
  function PrintInt(n: int): (s: string)
    ensures |s| > 0
    ensures forall c <- s :: IsDigit(c) || c == '-'
  {
    if n < 0 then "-" + PrintNat(-n) else PrintNat(n)
  }

  function Pow10(k: nat): nat {
    if k == 0 then 1 else 10 * Pow10(k - 1)
  }

  /** A number below a power of ten has at most as many digits. */
  lemma {:induction false} PrintNatLength(n: nat, k: nat)
    requires k > 0 && n < Pow10(k)
    ensures |PrintNat(n)| <= k
  {
    if n >= 10 {
      assert k > 1;
      PrintNatLength(n / 10, k - 1);
    }
  }

  lemma {:induction false} Pow10Adds(j: nat, k: nat)
    ensures Pow10(j + k) == Pow10(j) * Pow10(k)
  {
    if j > 0 {
      Pow10Adds(j - 1, k);
    }
  }

  /** Number.MAX_SAFE_INTEGER. */
  const MAX_SAFE_INTEGER := 0x1F_FFFF_FFFF_FFFF

  lemma SafeIntegersAreShort(n: int)
    requires Abs(n) <= MAX_SAFE_INTEGER
    ensures |PrintInt(n)| <= 17
  {
    assert Pow10(4) == 10_000;
    Pow10Adds(4, 4);
    Pow10Adds(8, 8);
    PrintNatLength(Abs(n), 16);
  }

  predicate AllDigits(s: string) {
    |s| > 0 && forall c <- s :: IsDigit(c)
  }

  function ParseNat(s: string): nat
    requires forall c <- s :: IsDigit(c)
  {
    if s == "" then 0 else ParseNat(s[..|s| - 1]) * 10 + DigitValue(s[|s| - 1])
  }

  /** Decimal integer text: an optional minus sign and digits. */
  predicate IsDecimal(s: string) {
    AllDigits(s) || (|s| > 1 && s[0] == '-' && AllDigits(s[1..]))
  }

  function ParseInt(s: string): int
    requires IsDecimal(s)
  {
    if s[0] == '-' then 0 - ParseNat(s[1..]) as int else ParseNat(s)
  }

  lemma {:induction false} ParsePrintNat(n: nat)
    ensures ParseNat(PrintNat(n)) == n
  {
    if n >= 10 {
      ParsePrintNat(n / 10);
      var s := PrintNat(n);
      assert s[..|s| - 1] == PrintNat(n / 10);
      assert s[|s| - 1] == Digit(n % 10);
    } else {
      assert PrintNat(n)[..0] == "";
    }
  }

  lemma ParsePrintInt(n: int)
    ensures IsDecimal(PrintInt(n)) && ParseInt(PrintInt(n)) == n
  {
    ParsePrintNat(Abs(n));
    if n < 0 {
      assert PrintInt(n)[1..] == PrintNat(-n);
    } else {
      assert IsDigit(PrintNat(n)[0]);
    }
  }

  lemma PrintIntInjective(m: int, n: int)
    requires PrintInt(m) == PrintInt(n)
    ensures m == n
  {
    ParsePrintInt(m);
    ParsePrintInt(n);
  }

  // ---------------------------------------------------------------- case

  /** String.prototype.toUpperCase on the ASCII characters HTTP methods are made of. */
  function ToUpper(s: string): (u: string)
    ensures |u| == |s|
    ensures forall i :: 0 <= i < |s| ==> u[i] == (if 'a' <= s[i] <= 'z' then (s[i] as int - 32) as char else s[i])
  {
    seq(|s|, i requires 0 <= i < |s| => if 'a' <= s[i] <= 'z' then (s[i] as int - 32) as char else s[i])
  }

}
