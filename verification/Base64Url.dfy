/**
 * Base64url (section 5 of RFC 4648) as the client writes it with btoa and the server
 * reads it back with atob, and the modulus length check that counts encoded characters.
 */
module Base64Url {
  import opened Basics

  newtype byte = x: int | 0 <= x < 256

  type Bytes = seq<byte>

  // ---------------------------------------------------------------- alphabet

  /** The standard alphabet of section 4 of RFC 4648. */
  function Sextet(v: int): char
    requires 0 <= v < 64
  {
    if v < 26 then ('A' as int + v) as char
    else if v < 52 then ('a' as int + v - 26) as char
    else if v < 62 then ('0' as int + v - 52) as char
    else if v == 62 then '+' else '/'
  }

  predicate InAlphabet(c: char) {
    'A' <= c <= 'Z' || 'a' <= c <= 'z' || '0' <= c <= '9' || c == '+' || c == '/'
  }

  function SextetValue(c: char): (v: int)
    requires InAlphabet(c)
    ensures 0 <= v < 64 && Sextet(v) == c
  {
    if 'A' <= c <= 'Z' then c as int - 'A' as int
    else if 'a' <= c <= 'z' then c as int - 'a' as int + 26
    else if '0' <= c <= '9' then c as int - '0' as int + 52
    else if c == '+' then 62 else 63
  }

  lemma SextetRoundTrip(v: int)
    requires 0 <= v < 64
    ensures InAlphabet(Sextet(v)) && SextetValue(Sextet(v)) == v
  {}

  /** The url-safe characters that an encoded value consists of. */
  predicate UrlSafe(c: char) {
    'A' <= c <= 'Z' || 'a' <= c <= 'z' || '0' <= c <= '9' || c == '-' || c == '_'
  }

  // ---------------------------------------------------------------- encoding

  /** The sextet characters of a byte string, without padding. */
  function Sextets(b: Bytes): (s: string)
    ensures forall c <- s :: InAlphabet(c)
  {
    if |b| == 0 then ""
    else if |b| == 1 then LastOne(b[0])
    else if |b| == 2 then LastTwo(b[0], b[1])
    else Quad(b[0], b[1], b[2]) + Sextets(b[3..])
  }

  function LastOne(x: byte): (s: string)
    ensures |s| == 2 && forall c <- s :: InAlphabet(c)
  {
    [Sextet(x as int / 4), Sextet(x as int % 4 * 16)]
  }

  function LastTwo(x: byte, y: byte): (s: string)
    ensures |s| == 3 && forall c <- s :: InAlphabet(c)
  {
    var x, y := x as int, y as int;
    [Sextet(x / 4), Sextet(x % 4 * 16 + y / 16), Sextet(y % 16 * 4)]
  }

  function Quad(x: byte, y: byte, z: byte): (s: string)
    ensures |s| == 4 && forall c <- s :: InAlphabet(c)
  {
    var x, y, z := x as int, y as int, z as int;
    [Sextet(x / 4), Sextet(x % 4 * 16 + y / 16), Sextet(y % 16 * 4 + z / 64), Sextet(z % 64)]
  }

  /** The '=' characters that bring a length to a multiple of four. */
  function Padding(n: nat): string {
    if n % 4 == 0 then "" else seq(4 - n % 4, _ => '=')
  }

  function Btoa(b: Bytes): string {
    Sextets(b) + Padding(|Sextets(b)|)
  }

  /** s.replace(/from/g, to) for single characters. */
  function Substitute(s: string, from: char, to: char): (t: string)
    ensures |t| == |s|
    ensures forall i :: 0 <= i < |s| ==> t[i] == if s[i] == from then to else s[i]
  {
    seq(|s|, i requires 0 <= i < |s| => if s[i] == from then to else s[i])
  }

  predicate AllAre(s: string, c: char) {
    forall i :: 0 <= i < |s| ==> s[i] == c
  }

  /** s.replace(/c/g, ""). */
  function Remove(s: string, c: char): (t: string)
    ensures c !in t
  {
    if s == "" then ""
    else if s[0] == c then Remove(s[1..], c)
    else [s[0]] + Remove(s[1..], c)
  }

  /** The client's base64urlEncode. */
  function Encode(b: Bytes): string {
    Substitute(Substitute(Remove(Btoa(b), '='), '+', '-'), '/', '_')
  }

  // ---------------------------------------------------------------- decoding

  predicate IsAsciiWhitespace(c: char) {
    c == ' ' || c == '\t' || c == '\n' || c == '\r' || c == '\U{C}'
  }

  function DropWhitespace(s: string): string {
    if s == "" then ""
    else if IsAsciiWhitespace(s[0]) then DropWhitespace(s[1..])
    else [s[0]] + DropWhitespace(s[1..])
  }

  /** Up to two trailing padding characters go, if the length is a multiple of four. */
  function DropPadding(s: string): string {
    if |s| % 4 == 0 && |s| > 0 && s[|s| - 1] == '='
    then if s[|s| - 2] == '=' then s[..|s| - 2] else s[..|s| - 1]
    else s
  }

  /** The bytes spelled by sextet characters; leftover low bits are discarded. */
  function Gather(s: string): Bytes
    requires forall c <- s :: InAlphabet(c)
    requires |s| % 4 != 1
  {
    if |s| == 0 then []
    else if |s| == 2 then Single(s[0], s[1])
    else if |s| == 3 then Pair(s[0], s[1], s[2])
    else Triple(s[0], s[1], s[2], s[3]) + Gather(s[4..])
  }

  function Single(c0: char, c1: char): Bytes
    requires InAlphabet(c0) && InAlphabet(c1)
  {
    [(SextetValue(c0) * 4 + SextetValue(c1) / 16) as byte]
  }

  function Pair(c0: char, c1: char, c2: char): Bytes
    requires InAlphabet(c0) && InAlphabet(c1) && InAlphabet(c2)
  {
    var p, q, r := SextetValue(c0), SextetValue(c1), SextetValue(c2);
    [(p * 4 + q / 16) as byte, (q % 16 * 16 + r / 4) as byte]
  }

  function Triple(c0: char, c1: char, c2: char, c3: char): (t: Bytes)
    requires InAlphabet(c0) && InAlphabet(c1) && InAlphabet(c2) && InAlphabet(c3)
    ensures |t| == 3
  {
    var p, q, r, t := SextetValue(c0), SextetValue(c1), SextetValue(c2), SextetValue(c3);
    [(p * 4 + q / 16) as byte, (q % 16 * 16 + r / 4) as byte, (r % 4 * 64 + t) as byte]
  }

  /** atob (forgiving-base64 decode): None stands for the InvalidCharacterError it throws. */
  function Atob(s: string): Option<Bytes> {
    var t := DropPadding(DropWhitespace(s));
    if |t| % 4 == 1 || exists c <- t :: !InAlphabet(c) then None
    else Some(Gather(t))
  }

  /** The server's base64urlDecode. */
  function Decode(s: string): Option<Bytes> {
    Atob(Substitute(Substitute(s + Padding(|s|), '-', '+'), '_', '/'))
  }

  // ---------------------------------------------------------------- round trip

  lemma {:induction false} RemoveAbsent(s: string, c: char)
    requires c !in s
    ensures Remove(s, c) == s
  {
    if s != "" {
      assert s[0] in s;
      RemoveAbsent(s[1..], c);
      assert [s[0]] + s[1..] == s;
    }
  }

  lemma {:induction false} RemoveSuffix(s: string, pad: string, c: char)
    requires c !in s && AllAre(pad, c)
    ensures Remove(s + pad, c) == s
  {
    if s == "" {
      assert s + pad == pad;
      if pad != "" {
        assert ("" + pad)[1..] == "" + pad[1..];
        RemoveSuffix(s, pad[1..], c);
      }
    } else {
      assert s[0] in s;
      RemoveSuffix(s[1..], pad, c);
      assert (s + pad)[1..] == s[1..] + pad;
      assert [s[0]] + s[1..] == s;
    }
  }

  lemma {:induction false} DropWhitespaceAbsent(s: string)
    requires forall c <- s :: !IsAsciiWhitespace(c)
    ensures DropWhitespace(s) == s
  {
    if s != "" {
      assert s[0] in s;
      DropWhitespaceAbsent(s[1..]);
      assert [s[0]] + s[1..] == s;
    }
  }

  lemma {:induction false} DropWhitespaceKeeps(s: string, c: char)
    requires c in s && !IsAsciiWhitespace(c)
    ensures c in DropWhitespace(s)
  {
    if s[0] != c {
      DropWhitespaceKeeps(s[1..], c);
    }
  }

  /** A text with a dot does not decode. */
  lemma DottedFails(s: string)
    requires '.' in s
    ensures Decode(s) == None
  {
    var i :| 0 <= i < |s| && s[i] == '.';
    var t := Substitute(Substitute(s + Padding(|s|), '-', '+'), '_', '/');
    assert t[i] == '.';
    DropWhitespaceKeeps(t, '.');
    var u := DropWhitespace(t);
    var k :| 0 <= k < |u| && u[k] == '.';
    assert DropPadding(u)[k] == '.';
    assert !InAlphabet(DropPadding(u)[k]) && DropPadding(u)[k] in DropPadding(u);
  }

  lemma {:induction false} SextetsLength(b: Bytes)
    ensures |Sextets(b)| == |b| / 3 * 4 + (if |b| % 3 == 0 then 0 else |b| % 3 + 1)
  {
    if |b| >= 3 {
      SextetsLength(b[3..]);
    }
  }

  /** What the shifts of encoding and decoding do to one byte and the next. */
  lemma Shifts(x: int, y: int, z: int)
    requires 0 <= x < 256 && 0 <= y < 256 && 0 <= z < 256
    ensures 0 <= x / 4 < 64 && 0 <= x % 4 * 16 + y / 16 < 64 && 0 <= y % 16 * 4 + z / 64 < 64
    ensures x / 4 * 4 + (x % 4 * 16 + y / 16) / 16 == x
    ensures (x % 4 * 16 + y / 16) % 16 * 16 + (y % 16 * 4 + z / 64) / 4 == y
    ensures (y % 16 * 4 + z / 64) % 4 * 64 + z % 64 == z
  {}

  lemma QuadValues(x: byte, y: byte, z: byte)
    ensures var s, a, b, c := Quad(x, y, z), x as int, y as int, z as int;
      && InAlphabet(s[0]) && InAlphabet(s[1]) && InAlphabet(s[2]) && InAlphabet(s[3])
      && SextetValue(s[0]) == a / 4 && SextetValue(s[1]) == a % 4 * 16 + b / 16
      && SextetValue(s[2]) == b % 16 * 4 + c / 64 && SextetValue(s[3]) == c % 64
  {
    var a, b, c := x as int, y as int, z as int;
    Shifts(a, b, c);
    SextetRoundTrip(a / 4);
    SextetRoundTrip(a % 4 * 16 + b / 16);
    SextetRoundTrip(b % 16 * 4 + c / 64);
    SextetRoundTrip(c % 64);
  }

  lemma QuadTriple(x: byte, y: byte, z: byte)
    ensures var s := Quad(x, y, z);
      (forall c <- s :: InAlphabet(c)) && Triple(s[0], s[1], s[2], s[3]) == [x, y, z]
  {
    QuadValues(x, y, z);
    Shifts(x as int, y as int, z as int);
  }

  lemma GatherQuad(q: string, s: string)
    requires |q| == 4 && |s| % 4 != 1
    requires (forall c <- q :: InAlphabet(c)) && (forall c <- s :: InAlphabet(c))
    ensures forall c <- q + s :: InAlphabet(c)
    ensures InAlphabet(q[0]) && InAlphabet(q[1]) && InAlphabet(q[2]) && InAlphabet(q[3])
    ensures Gather(q + s) == Triple(q[0], q[1], q[2], q[3]) + Gather(s)
  {}

  lemma LastOneSingle(x: byte)
    ensures var s := LastOne(x); (forall c <- s :: InAlphabet(c)) && Single(s[0], s[1]) == [x]
  {}

  lemma LastTwoPair(x: byte, y: byte)
    ensures var s := LastTwo(x, y); (forall c <- s :: InAlphabet(c)) && Pair(s[0], s[1], s[2]) == [x, y]
  {
    var a, b := x as int, y as int;
    Shifts(a, b, 0);
    SextetRoundTrip(a / 4);
    SextetRoundTrip(a % 4 * 16 + b / 16);
    SextetRoundTrip(b % 16 * 4);
    var s := LastTwo(x, y);
    assert s[0] in s && s[1] in s && s[2] in s;
  }

  predicate Spells(s: string, b: Bytes) {
    (forall c <- s :: InAlphabet(c)) && |s| % 4 != 1 && Gather(s) == b
  }

  /** Three bytes in front, four characters in front. */
  lemma GatherJoin(x: byte, y: byte, z: byte, s: string, rest: Bytes)
    requires Spells(s, rest)
    ensures Spells(Quad(x, y, z) + s, [x, y, z] + rest)
  {
    QuadTriple(x, y, z);
    GatherQuad(Quad(x, y, z), s);
  }

  lemma SextetsOfThree(x: byte, y: byte, z: byte, rest: Bytes)
    ensures Sextets([x, y, z] + rest) == Quad(x, y, z) + Sextets(rest)
  {}

  lemma {:induction false} GatherSextets(b: Bytes)
    ensures Spells(Sextets(b), b)
  {
    if |b| < 3 {
      if |b| == 1 {
        LastOneSingle(b[0]);
      } else if |b| == 2 {
        LastTwoPair(b[0], b[1]);
      }
    } else {
      var rest := b[3..];
      GatherSextets(rest);
      GatherJoin(b[0], b[1], b[2], Sextets(rest), rest);
      SextetsOfThree(b[0], b[1], b[2], rest);
      assert [b[0], b[1], b[2]] + rest == b;
    }
  }

  lemma DropPaddingOf(s: string)
    requires |s| % 4 != 1 && forall c <- s :: InAlphabet(c)
    ensures DropPadding(s + Padding(|s|)) == s
  {
    var p := s + Padding(|s|);
    if |s| % 4 == 0 {
      assert p == s;
      assert s != "" ==> s[|s| - 1] in s;
    } else {
      assert |s| % 4 == 3 ==> p[|p| - 2] == s[|s| - 1] && s[|s| - 1] in s;
    }
  }

  lemma AtobBtoa(b: Bytes)
    ensures Atob(Btoa(b)) == Some(b)
  {
    GatherSextets(b);
    DropWhitespaceAbsent(Btoa(b));
    DropPaddingOf(Sextets(b));
  }

  lemma EncodeShape(b: Bytes)
    ensures |Encode(b)| == |Sextets(b)|
    ensures forall i :: 0 <= i < |Encode(b)| ==>
      Encode(b)[i] == (var c := Sextets(b)[i]; if c == '+' then '-' else if c == '/' then '_' else c)
  {
    RemoveSuffix(Sextets(b), Padding(|Sextets(b)|), '=');
  }

  lemma EncodeUrlSafe(b: Bytes)
    ensures forall c <- Encode(b) :: UrlSafe(c)
    ensures b != [] ==> Encode(b) != ""
  {
    EncodeShape(b);
    SextetsLength(b);
    forall i | 0 <= i < |Encode(b)|
      ensures UrlSafe(Encode(b)[i])
    {
      assert Sextets(b)[i] in Sextets(b);
    }
  }

  /** The url-safe alphabet of section 5 of RFC 4648: letters, digits, '-' and '_'. */
  function UrlChar(v: int): char
    requires 0 <= v < 64
  {
    if v == 63 then '_'
    else if v == 62 then '-'
    else if v >= 52 then (v - 52 + '0' as int) as char
    else if v >= 26 then (v - 26 + 'a' as int) as char
    else (v + 'A' as int) as char
  }

  /** A byte, or zero bits where the string has ended. */
  function ByteAt(b: Bytes, n: nat): (x: int)
    ensures 0 <= x < 256
  {
    if n < |b| then b[n] as int else 0
  }

  /** The bits of a byte string from bit 6 * i on, six of them. */
  function SixBits(b: Bytes, i: nat): (v: int)
    ensures 0 <= v < 64
  {
    var first := i / 4 * 3 + i % 4 * 6 / 8;
    var x, y := ByteAt(b, first), ByteAt(b, first + 1);
    match i % 4
    case 0 => x / 4
    case 1 => x % 4 * 16 + y / 16
    case 2 => x % 16 * 4 + y / 64
    case _ => x % 64
  }

  lemma SixBitsShift(b: Bytes, i: nat)
    requires |b| >= 3 && i >= 4
    ensures SixBits(b, i) == SixBits(b[3..], i - 4)
  {
    assert i / 4 == (i - 4) / 4 + 1 && i % 4 == (i - 4) % 4;
  }

  lemma {:induction false} SextetAt(b: Bytes, i: nat)
    requires i < |Sextets(b)|
    ensures Sextets(b)[i] == Sextet(SixBits(b, i))
  {
    if |b| < 3 {
      assert i < 3 && i / 4 == 0 && i % 4 == i;
    } else if i < 4 {
      FirstQuad(b, i);
    } else {
      assert Sextets(b)[i] == Sextets(b[3..])[i - 4];
      SextetAt(b[3..], i - 4);
      SixBitsShift(b, i);
    }
  }

  lemma FirstBits(b: Bytes)
    requires |b| >= 3
    ensures var x, y, z := b[0] as int, b[1] as int, b[2] as int;
      && SixBits(b, 0) == x / 4 && SixBits(b, 1) == x % 4 * 16 + y / 16
      && SixBits(b, 2) == y % 16 * 4 + z / 64 && SixBits(b, 3) == z % 64
  {}

  lemma FirstQuad(b: Bytes, i: nat)
    requires |b| >= 3 && i < 4
    ensures Sextets(b)[i] == Sextet(SixBits(b, i))
  {
    FirstBits(b);
    var q := Quad(b[0], b[1], b[2]);
    assert Sextets(b)[i] == q[i];
    assert i == 0 || i == 1 || i == 2 || i == 3;
  }

  /**
   * Encoding is RFC 4648's: the i-th character is the alphabet's for the i-th six bits, and there are as
   * many as hold a bit of the string.
   */
  lemma EncodesExactly(b: Bytes, i: nat)
    ensures 6 * (|Encode(b)| - 1) < 8 * |b| <= 6 * |Encode(b)|
    ensures i < |Encode(b)| ==> Encode(b)[i] == UrlChar(SixBits(b, i))
  {
    EncodeShape(b);
    SextetsLength(b);
    if i < |Encode(b)| {
      SextetAt(b, i);
    }
  }

  /** Server decode of client encode is the identity on every byte string. */
  lemma DecodeEncode(b: Bytes)
    ensures Decode(Encode(b)) == Some(b)
  {
    EncodeShape(b);
    var e, s := Encode(b), Sextets(b);
    var plain := Substitute(Substitute(e + Padding(|e|), '-', '+'), '_', '/');
    forall i | 0 <= i < |s|
      ensures plain[i] == s[i]
    {
      assert s[i] in s;
    }
    assert plain == Btoa(b);
    AtobBtoa(b);
  }

  lemma EncodeInjective(a: Bytes, b: Bytes)
    requires Encode(a) == Encode(b)
    ensures a == b
  {
    DecodeEncode(a);
    DecodeEncode(b);
  }

  /** The one spelling of its bytes that the client's encoder produces. */
  predicate Canonical(s: string) {
    Decode(s).Some? && Encode(Decode(s).value) == s
  }

  /** Among canonical spellings, equal bytes mean equal text. */
  lemma CanonicalSpelling(s: string, t: string)
    requires Canonical(s) && Canonical(t) && Decode(s) == Decode(t)
    ensures s == t
  {}

  // ---------------------------------------------------------------- modulus length

  /** Characters before the trailing '=' run. */
  function TrimmedLength(s: string): (n: nat)
    ensures n <= |s|
    ensures forall i :: n <= i < |s| ==> s[i] == '='
    ensures n > 0 ==> s[n - 1] != '='
  {
    if s != "" && s[|s| - 1] == '=' then TrimmedLength(s[..|s| - 1]) else |s|
  }

  /** base64urlBits: strip trailing padding by a scan, then floor(3 end / 4) whole bytes. */
  method Base64UrlBits(b64: string) returns (bits: nat)
    ensures bits == TrimmedLength(b64) * 3 / 4 * 8
  {
    var end := |b64|;
    while end > 0 && b64[end - 1] == '='
      invariant 0 <= end <= |b64|
      invariant TrimmedLength(b64[..end]) == TrimmedLength(b64)
    {
      assert b64[..end][..end - 1] == b64[..end - 1];
      end := end - 1;
    }
    bits := end * 3 / 4 * 8;
  }

  lemma {:induction false} TrimmedLengthOf(s: string, pad: string)
    requires '=' !in s && AllAre(pad, '=')
    ensures TrimmedLength(s + pad) == |s|
  {
    var t := s + pad;
    if pad == "" {
      assert t == s;
      assert s != "" ==> s[|s| - 1] in s;
    } else {
      assert t[..|t| - 1] == s + pad[..|pad| - 1];
      TrimmedLengthOf(s, pad[..|pad| - 1]);
    }
  }

  lemma WholeBytes(q: nat, r: nat)
    requires r < 3
    ensures (q * 4 + (if r == 0 then 0 else r + 1)) * 3 / 4 == 3 * q + r
  {}

  /** The counted length of an encoded value is its bit length, whatever padding follows. */
  lemma EncodedBits(b: Bytes, pad: string)
    requires AllAre(pad, '=')
    ensures TrimmedLength(Encode(b) + pad) * 3 / 4 * 8 == 8 * |b|
  {
    EncodeUrlSafe(b);
    EncodeShape(b);
    SextetsLength(b);
    TrimmedLengthOf(Encode(b), pad);
    WholeBytes(|b| / 3, |b| % 3);
  }
}
